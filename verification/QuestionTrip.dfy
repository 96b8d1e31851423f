/** Replies that repeat their questions: the records behind the questions are found and read. */
module QuestionTrip {
  import opened Bytes
  import opened NameWalk
  import opened NameTrip
  import opened Answer
  import opened Receive
  import opened MessageTrip

  /**
   From o to e lie questions (section 4.1.2 of RFC 1035): each has an encoding of its name, its type and
   its class.
   */
  predicate QuestionsHeld(b: bytes, o: nat, names: seq<Name>, e: nat)
    decreases |names|
  {
    if names == [] then o == e
    else
      && |names[0]| <= MAX_SUBSTRINGS && Compressed(b, Span(0, |b|), o, names[0])
      && End(b, o, names[0]) + 4 <= |b| && QuestionsHeld(b, End(b, o, names[0]) + 4, names[1..], e)
  }

  lemma {:induction false} QuestionsSkipped(b: bytes, o: nat, names: seq<Name>, e: nat)
    requires QuestionsHeld(b, o, names, e)
    ensures SkipQuestions(b, o, |names|) == Some(e)
    decreases |names|
  {
    hide Compressed, Decode, SkipFrom, End;
    if names != [] {
      DecodeCompressed(b, Span(0, |b|), o, names[0], MAX_SUBSTRINGS);
      ExtractImpliesSkip(b, o, MAX_SUBSTRINGS);
      QuestionsSkipped(b, End(b, o, names[0]) + 4, names[1..], e);
    }
  }

  function WithId(seen: seq<Seen>, id: u16): (r: seq<Seen>)
    ensures |r| == |seen|
  {
    seq(|seen|, i requires 0 <= i < |seen| => seen[i].(id := id))
  }

  /** The id of a message is told with each record, and has no other effect on a scan. */
  lemma {:induction false} ScanWithId(b: bytes, o: nat, entry: nat, id: u16, n: nat, callback: Seen -> bool)
    requires GoesOn(callback)
    ensures var scan := ScanRecords(b, o, entry, 0, n, callback);
            ScanRecords(b, o, entry, id, n, callback) == Scan(WithId(scan.seen, id), scan.offset)
    decreases n
  {
    hide NameEnd, U16At, U32At, ScanRecords;
    if n == 0 {
      ScanNone(b, o, entry, 0, callback);
      ScanNone(b, o, entry, id, callback);
    } else {
      ScanStep(b, o, entry, 0, n, callback);
      ScanStep(b, o, entry, id, n, callback);
      if NameEnd(b, o) + 10 <= |b| {
        var s := SeenAt(b, o, entry, 0);
        ScanWithId(b, DataEnd(s), entry, id, n - 1, callback);
        var rest := ScanRecords(b, DataEnd(s), entry, 0, n - 1, callback).seen;
        assert WithId([s] + rest, id) == [s.(id := id)] + WithId(rest, id);
      }
    }
  }

  lemma {:induction false} SectionsWithId(b: bytes, o: nat, id: u16, n1: nat, n2: nat, n3: nat, callback: Seen -> bool)
    requires GoesOn(callback)
    ensures ScanSections(b, o, id, n1, n2, n3, callback) == WithId(ScanSections(b, o, 0, n1, n2, n3, callback), id)
  {
    hide ScanRecords;
    ScanWithId(b, o, ANSWER, id, n1, callback);
    var first := ScanRecords(b, o, ANSWER, 0, n1, callback);
    ScanWithId(b, first.offset, AUTHORITY, id, n2, callback);
    var second := ScanRecords(b, first.offset, AUTHORITY, 0, n2, callback);
    ScanWithId(b, second.offset, ADDITIONAL, id, n3, callback);
    var third := ScanRecords(b, second.offset, ADDITIONAL, 0, n3, callback);
    assert WithId(first.seen + second.seen, id) == WithId(first.seen, id) + WithId(second.seen, id);
    assert WithId(first.seen + second.seen + third.seen, id) == WithId(first.seen + second.seen, id) + WithId(third.seen, id);
  }

  lemma {:induction false} ReadBackWithId(b: bytes, s: Seen, w: Wire, id: u16)
    requires ReadBack(b, s, w)
    ensures ReadBack(b, s.(id := id), w)
  {
    hide Decode, DataName, ServiceAt, Address4At, Address6At, PairsIn, AllPlain, AsWritten;
  }

  /** The octets of the header (section 4.1.1 of RFC 1035). */
  predicate HeaderOctets(b: bytes, id: u16, questions: nat, answers: nat, authorities: nat, additionals: nat) {
    && |b| >= 12 && Word(b, 0) == id && Word(b, 4) == questions && Word(b, 6) == answers
    && Word(b, 8) == authorities && Word(b, 10) == additionals
  }

  /**
   A packet whose header announces its questions and the records of its three sections, with the questions
   first and the records behind them: when its id is the one waited for, or none is, exactly those records
   are seen, with that id, and each is read back.
   */
  lemma {:induction false} ReplySeen(b: bytes, id: u16, names: seq<Name>, o: nat, first: seq<Seen>, second: seq<Seen>,
                                     third: seq<Seen>, w1: seq<Wire>, w2: seq<Wire>, w3: seq<Wire>,
                                     callback: Seen -> bool, onlyId: int)
    requires |b| < 0x10000 && HeaderOctets(b, id, |names|, |w1|, |w2|, |w3|) && QuestionsHeld(b, 12, names, o)
    requires AllHeld(b, |b|, o, first, w1) && AllHeld(b, |b|, EndOf(o, first), second, w2)
    requires AllHeld(b, |b|, EndOf(EndOf(o, first), second), third, w3)
    requires AllEntries(w1, 1) && AllEntries(w2, 2) && AllEntries(w3, 3)
    requires GoesOn(callback) && (onlyId <= 0 || onlyId == id)
    ensures
      var seen, wires := Received(b, |b|, callback, onlyId), w1 + w2 + w3;
      |seen| == |wires| && forall i :: 0 <= i < |seen| ==> seen[i].id == id && ReadBack(b, seen[i], wires[i])
  {
    hide AllHeld, EndOf, ScanSections, ReadBack, QuestionsHeld, SkipQuestions, AllEntries;
    assert b[..|b|] == b;
    QuestionsSkipped(b, 12, names, o);
    SectionsSeen(b, o, first, second, third, w1, w2, w3, callback);
    SectionsWithId(b, o, id, |w1|, |w2|, |w3|, callback);
    AllHeldJoin(b, |b|, o, first, w1, second, w2);
    AllHeldJoin(b, |b|, o, first + second, w1 + w2, third, w3);
    var all, wires := first + second + third, w1 + w2 + w3;
    forall i | 0 <= i < |all| ensures ReadBack(b, WithId(all, id)[i], wires[i]) {
      AllHeldReadBack(b, o, all, wires, i);
      ReadBackWithId(b, all[i], wires[i], id);
    }
  }

  /** A message with another id than the one waited for is passed over. */
  lemma {:induction false} OtherIdIgnored(b: bytes, size: nat, id: u16, callback: Seen -> bool, onlyId: int)
    requires 12 <= |b| && size <= |b| && Word(b, 0) == id
    ensures onlyId > 0 && onlyId != id ==> Received(b, size, callback, onlyId) == []
    ensures onlyId <= 0 || onlyId == id ==> Received(b, size, callback, onlyId) == Received(b, size, callback, 0)
  {
    hide ScanSections, SkipQuestions;
  }
}
