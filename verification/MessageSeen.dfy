/**
 What the receiver of a message sees of the records its sender gave: which of them, where, and with
 what type, class and time to live. Nothing is said here in terms of how the sender prepares them.
 */
module MessageSeen {
  import opened Bytes
  import opened NameWalk
  import opened NameMake
  import opened NameRun
  import opened Answer
  import opened Receive
  import opened MessageTrip

  /** The type code of a record (section 3.2.2 of RFC 1035, RFC 3596, RFC 2782). */
  function Code(d: Data): u16 {
    match d
    case Address4(_) => 1
    case Pointer(_) => 12
    case Text(_, _) => 16
    case Address6(_) => 28
    case Service(_, _, _, _) => 33
    case Other(code) => code
  }

  /** Of the class given the IN bit and the cache-flush bit are kept, the latter not in a PTR record. */
  predicate ClassKept(given: u16, pointer: bool, got: u16) {
    got == given % 2 + if given >= 0x8000 && !pointer then 0x8000 else 0
  }

  /** A record keeps its own time to live and class; where it has none it gets those of the message, and a goodbye has none. */
  predicate SentAs(r: Record, rclass: u16, ttl: u32, s: Seen) {
    && s.rtype == Code(r.data)
    && (r.ttl != 0 && ttl != 0 ==> s.ttl == r.ttl)
    && (r.ttl == 0 || ttl == 0 ==> s.ttl == ttl)
    && (r.rclass != 0 ==> ClassKept(r.rclass, r.data.Pointer?, s.rclass))
    && (r.rclass == 0 ==> ClassKept(rclass, r.data.Pointer?, s.rclass))
  }

  predicate NamedAs(b: bytes, r: Record, s: Seen) {
    NameAt(b, s.nameOffset) == Some(Decoded(LabelsOf(r.name), s.nameOffset + s.nameLength))
  }

  /** A record that is not TXT, as it is seen. */
  predicate Recovered(b: bytes, entry: nat, r: Record, rclass: u16, ttl: u32, s: Seen) {
    && s.entry == entry && SentAs(r, rclass, ttl, s) && NamedAs(b, r, s) && DataRead(b, s, r.data)
    && FieldsLie(b, s) && ServiceLies(b, s, r.data)
  }

  lemma {:induction false} WireRecovered(b: bytes, entry: nat, r: Record, rclass: u16, ttl: u32, s: Seen)
    requires !r.data.Text? && ReadBack(b, s, WireOf(entry, Updated(r, rclass, ttl)))
    ensures Recovered(b, entry, r, rclass, ttl, s)
  {
    hide Decode, LabelsOf, DataRead;
  }

  /** How many of the first n records are not TXT. */
  function Others(records: seq<Record>, n: nat): (k: nat)
    requires n <= |records|
    ensures k <= n
  {
    if n == 0 then 0 else Others(records, n - 1) + if records[n - 1].data.Text? then 0 else 1
  }

  lemma {:induction false} OthersTail(records: seq<Record>, n: nat)
    requires 0 < n <= |records|
    ensures Others(records, n) == Others(records[1..], n - 1) + if records[0].data.Text? then 0 else 1
  {
    if n > 1 { OthersTail(records, n - 1); }
  }

  lemma {:induction false} OthersInPlace(records: seq<Record>, j: nat)
    requires j < |records| && !records[j].data.Text?
    ensures Others(records, j) < |NonTexts(records)| && NonTexts(records)[Others(records, j)] == records[j]
    decreases |records|
  {
    if j > 0 {
      OthersTail(records, j);
      OthersInPlace(records[1..], j - 1);
    }
  }

  lemma {:induction false} OthersCounted(records: seq<Record>)
    ensures |NonTexts(records)| == Others(records, |records|)
  {
    if records != [] {
      OthersCounted(records[1..]);
      OthersTail(records, |records|);
    }
  }

  lemma {:induction false} TextsInPlace(records: seq<Record>, j: nat)
    requires j < |records| && records[j].data.Text?
    ensures j - Others(records, j) < |Texts(records)| && Texts(records)[j - Others(records, j)] == records[j]
    decreases |records|
  {
    if j > 0 {
      OthersTail(records, j);
      TextsInPlace(records[1..], j - 1);
    }
  }

  /** Record j is the first TXT record. */
  predicate FirstText(records: seq<Record>, j: nat)
    requires j < |records|
  {
    records[j].data.Text? && forall i :: 0 <= i < j ==> !records[i].data.Text?
  }

  lemma {:induction false} AllOthers(records: seq<Record>, j: nat)
    requires j <= |records| && forall i :: 0 <= i < j ==> !records[i].data.Text?
    ensures Others(records, j) == j
  {
    if j > 0 { AllOthers(records, j - 1); }
  }

  /** The pairs of the TXT records, in order. */
  predicate PairsGiven(records: seq<Record>, pairs: seq<(bytes, bytes)>) {
    && |pairs| == |records| - Others(records, |records|)
    && forall j :: 0 <= j < |records| && records[j].data.Text? ==>
         var k := j - Others(records, j); k < |pairs| && pairs[k] == (records[j].data.key, records[j].data.value)
  }

  lemma {:induction false} PairsInPlace(records: seq<Record>)
    ensures PairsGiven(records, PairsOf(Texts(records)))
  {
    OthersCounted(records);
    forall j | 0 <= j < |records| && records[j].data.Text?
      ensures j - Others(records, j) < |Texts(records)|
      ensures PairsOf(Texts(records))[j - Others(records, j)] == (records[j].data.key, records[j].data.value)
    {
      TextsInPlace(records, j);
    }
  }

  /** The one record seen for the TXT records of a section, of which r is the first. */
  ghost predicate TextRecovered(b: bytes, entry: nat, r: Record, records: seq<Record>, rclass: u16, ttl: u32, s: Seen) {
    && s.entry == entry && SentAs(r, rclass, ttl, s) && NamedAs(b, r, s) && FieldsLie(b, s)
    && exists pairs :: PairsGiven(records, pairs) && StringsRead(b, s, pairs) && StringsLie(b, s, pairs)
  }

  lemma {:induction false} TextWireRecovered(b: bytes, entry: nat, r: Record, records: seq<Record>, rclass: u16, ttl: u32, s: Seen)
    requires r.data.Text?
    requires ReadBack(b, s, WireOf(entry, Updated(r, rclass, ttl)).(content := Strings(PairsOf(Texts(records)))))
    ensures TextRecovered(b, entry, r, records, rclass, ttl, s)
  {
    hide Decode, LabelsOf, StringsRead, PairsGiven, StringsOnWire;
    PairsInPlace(records);
  }

  /** How many records a section is seen to have. */
  function SectionCount(records: seq<Record>): nat {
    Others(records, |records|) + if exists j :: 0 <= j < |records| && records[j].data.Text? then 1 else 0
  }

  /** From position `from` on, the records of a section: those that are not TXT in their order, then one for all that are. */
  ghost predicate SectionRecovered(b: bytes, entry: nat, records: seq<Record>, rclass: u16, ttl: u32, seen: seq<Seen>, from: nat) {
    && from + SectionCount(records) <= |seen|
    && (forall j :: 0 <= j < |records| && !records[j].data.Text? ==>
          var k := from + Others(records, j); k < |seen| && Recovered(b, entry, records[j], rclass, ttl, seen[k]))
    && (forall j :: 0 <= j < |records| && FirstText(records, j) ==>
          var k := from + Others(records, |records|);
          k < |seen| && TextRecovered(b, entry, records[j], records, rclass, ttl, seen[k]))
  }

  lemma {:induction false} CountsAgree(records: seq<Record>)
    ensures SectionCount(records) == RecordCount(records)
  {
    OthersCounted(records);
    if exists j :: 0 <= j < |records| && records[j].data.Text? {
      var j :| 0 <= j < |records| && records[j].data.Text?;
      TextsInPlace(records, j);
    } else {
      AllOthers(records, |records|);
    }
  }

  /** The records w are seen from position `from` on. */
  ghost predicate WiresSeen(b: bytes, w: seq<Wire>, seen: seq<Seen>, from: nat) {
    from + |w| <= |seen| && forall i :: 0 <= i < |w| ==> WireSeen(b, w, seen, from, i)
  }

  ghost predicate WireSeen(b: bytes, w: seq<Wire>, seen: seq<Seen>, from: nat, i: nat)
    requires from + |w| <= |seen| && i < |w|
  {
    ReadBack(b, seen[from + i], w[i])
  }

  lemma {:induction false} OtherWire(entry: nat, records: seq<Record>, rclass: u16, ttl: u32, j: nat)
    requires j < |records| && !records[j].data.Text?
    ensures var w, i := SectionWires(entry, records, rclass, ttl), Others(records, j);
      i < |w| && w[i] == WireOf(entry, Updated(records[j], rclass, ttl))
  {
    hide WireOf, Updated, Others, NonTexts, Texts;
    OthersInPlace(records, j);
  }

  lemma {:induction false} TextWire(entry: nat, records: seq<Record>, rclass: u16, ttl: u32, j: nat)
    requires j < |records| && FirstText(records, j)
    ensures var w, i := SectionWires(entry, records, rclass, ttl), Others(records, |records|);
      i < |w| && w[i] == WireOf(entry, Updated(records[j], rclass, ttl)).(content := Strings(PairsOf(Texts(records))))
  {
    hide WireOf, Updated, Others, NonTexts, Texts, PairsOf;
    AllOthers(records, j);
    TextsInPlace(records, j);
    OthersCounted(records);
  }

  lemma {:induction false} SectionSeenAs(b: bytes, entry: nat, records: seq<Record>, rclass: u16, ttl: u32, seen: seq<Seen>, from: nat)
    requires WiresSeen(b, SectionWires(entry, records, rclass, ttl), seen, from)
    ensures SectionRecovered(b, entry, records, rclass, ttl, seen, from)
  {
    hide ReadBack, WireOf, Updated, Recovered, TextRecovered, SectionWires, Others, SectionCount, RecordCount, FirstText;
    var w := SectionWires(entry, records, rclass, ttl);
    SectionLength(entry, records, rclass, ttl);
    CountsAgree(records);
    forall j | 0 <= j < |records| && !records[j].data.Text?
      ensures var k := from + Others(records, j); k < |seen| && Recovered(b, entry, records[j], rclass, ttl, seen[k])
    {
      OtherWire(entry, records, rclass, ttl, j);
      assert WireSeen(b, w, seen, from, Others(records, j));
      WireRecovered(b, entry, records[j], rclass, ttl, seen[from + Others(records, j)]);
    }
    forall j | 0 <= j < |records| && FirstText(records, j)
      ensures var k := from + Others(records, |records|);
        k < |seen| && TextRecovered(b, entry, records[j], records, rclass, ttl, seen[k])
    {
      TextWire(entry, records, rclass, ttl, j);
      assert WireSeen(b, w, seen, from, Others(records, |records|));
      FirstIsText(records, j);
      TextWireRecovered(b, entry, records[j], records, rclass, ttl, seen[from + Others(records, |records|)]);
    }
  }

  lemma {:induction false} FirstIsText(records: seq<Record>, j: nat)
    requires j < |records| && FirstText(records, j)
    ensures records[j].data.Text?
  {}

  /** What is seen of three parts in a row is seen of each. */
  lemma {:induction false} PartsSeen(b: bytes, w1: seq<Wire>, w2: seq<Wire>, w3: seq<Wire>, seen: seq<Seen>)
    requires |seen| == |w1 + w2 + w3| && forall i :: 0 <= i < |seen| ==> ReadBack(b, seen[i], (w1 + w2 + w3)[i])
    ensures WiresSeen(b, w1, seen, 0) && WiresSeen(b, w2, seen, |w1|) && WiresSeen(b, w3, seen, |w1| + |w2|)
  {
    hide ReadBack;
    var w := w1 + w2 + w3;
    forall i | 0 <= i < |w1| ensures WireSeen(b, w1, seen, 0, i) { assert w[i] == w1[i]; }
    forall i | 0 <= i < |w2| ensures WireSeen(b, w2, seen, |w1|, i) { assert w[|w1| + i] == w2[i]; }
    var o := |w1| + |w2|;
    forall i | 0 <= i < |w3| ensures WireSeen(b, w3, seen, o, i) { assert w[o + i] == w3[i]; }
  }

  /** An answer without a question: id 0, the response and authoritative bits, and the counts. */
  function HeaderOctets(authority: nat, additional: nat): bytes {
    [0, 0, 0x84, 0, 0, 0, 0, 1, authority / 256 % 256, authority % 256, additional / 256 % 256, additional % 256]
  }

  lemma {:induction false} HeaderIs(authority: nat, additional: nat)
    ensures MessageHeader(authority, additional) == HeaderOctets(authority, additional)
  {}

  /**
   The round trip of a whole message in terms of the records given. The header tells how many there are. Each record that is not TXT is seen in
   its place, with its type, name and data, its own time to live and class or those of the message; the TXT
   records of a section are seen as one, named as the first of them, with all their pairs in order.
   */
  lemma {:induction false} RecordsSeen(b: bytes, answer: Record, authority: seq<Record>, additional: seq<Record>,
                                       rclass: u16, ttl: u32, final: Label, callback: Seen -> bool, onlyId: int)
    requires |b| <= 0x4000 && !answer.data.Text? && RegularRecord(answer, final)
    requires AllRegular(authority, final) && AllRegular(additional, final)
    requires AnswerMessage(b, answer, authority, additional, rclass, ttl).end.Some?
    requires GoesOn(callback) && onlyId <= 0
    ensures
      var m := AnswerMessage(b, answer, authority, additional, rclass, ttl);
      var p := m.buf[..m.end.value];
      var seen := Received(m.buf, m.end.value, callback, onlyId);
      && |seen| == 1 + SectionCount(authority) + SectionCount(additional)
      && p[..12] == HeaderOctets(SectionCount(authority), SectionCount(additional))
      && Recovered(p, 1, answer, rclass, ttl, seen[0])
      && SectionRecovered(p, 2, authority, rclass, ttl, seen, 1)
      && SectionRecovered(p, 3, additional, rclass, ttl, seen, 1 + SectionCount(authority))
  {
    hide *;
    MessageRoundTrip(b, answer, authority, additional, rclass, ttl, final, callback, onlyId);
    HeaderSeen(b, answer, authority, additional, rclass, ttl, final);
    var m := AnswerMessage(b, answer, authority, additional, rclass, ttl);
    var p := m.buf[..m.end.value];
    var seen := Received(m.buf, m.end.value, callback, onlyId);
    var w1, w2, w3 := [WireOf(1, Updated(answer, rclass, ttl))], SectionWires(2, authority, rclass, ttl),
                      SectionWires(3, additional, rclass, ttl);
    ExpectedParts(answer, authority, additional, rclass, ttl);
    PartsSeen(p, w1, w2, w3, seen);
    CountsAgree(authority);
    CountsAgree(additional);
    SectionLength(2, authority, rclass, ttl);
    SectionLength(3, additional, rclass, ttl);
    WireRecovered(p, 1, answer, rclass, ttl, seen[0]);
    SectionSeenAs(p, 2, authority, rclass, ttl, seen, 1);
    SectionSeenAs(p, 3, additional, rclass, ttl, seen, 1 + |w2|);
  }

  lemma {:induction false} ExpectedParts(answer: Record, authority: seq<Record>, additional: seq<Record>, rclass: u16, ttl: u32)
    ensures Expected(answer, authority, additional, rclass, ttl) ==
      [WireOf(1, Updated(answer, rclass, ttl))] + SectionWires(2, authority, rclass, ttl) + SectionWires(3, additional, rclass, ttl)
  {}

  lemma {:induction false} HeaderSeen(b: bytes, answer: Record, authority: seq<Record>, additional: seq<Record>,
                                      rclass: u16, ttl: u32, final: Label)
    requires |b| <= 0x4000 && RegularRecord(answer, final)
    requires AllRegular(authority, final) && AllRegular(additional, final)
    requires AnswerMessage(b, answer, authority, additional, rclass, ttl).end.Some?
    ensures var m := AnswerMessage(b, answer, authority, additional, rclass, ttl);
      12 <= m.end.value <= |m.buf| &&
      m.buf[..m.end.value][..12] == HeaderOctets(SectionCount(authority), SectionCount(additional))
  {
    hide AnswerMessage, AllRegular, RegularRecord, RecordCount, SectionCount, AllHeld, EndOf, HeaderOctets, SectionWires,
         AnswerWires, MessageHeader;
    var first, second, third := MessageBuilt(b, answer, authority, additional, rclass, ttl, final);
    HeaderIs(RecordCount(authority), RecordCount(additional));
    CountsAgree(authority);
    CountsAgree(additional);
    var m := AnswerMessage(b, answer, authority, additional, rclass, ttl);
    assert m.buf[..m.end.value][..12] == m.buf[..12];
  }
}
