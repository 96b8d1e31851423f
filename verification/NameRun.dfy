/**
 Whole messages: names that share one final label found nowhere else in them, as names under "local"
 do (section 3 of RFC 6762), and whose labels are distinct, are all read back, whatever is written
 between and after them and however often the ring of remembered labels wraps.
 */
module NameRun {
  import opened Bytes
  import opened NameWalk
  import opened NameMake
  import opened NameTrip
  import opened NameExact

  /** The name ends in final, which is none of its other labels. */
  predicate EndsIn(labels: Name, final: Label) {
    labels != [] && labels[|labels| - 1] == final && forall i :: 0 <= i < |labels| - 1 ==> labels[i] != final
  }

  /** The names a caller may count on. */
  predicate Regular(labels: Name, final: Label) {
    TextName(labels) && |labels| <= MAX_SUBSTRINGS && Distinct(labels) && EndsIn(labels, final)
  }

  ghost predicate AllEndIn(stored: map<nat, Name>, final: Label) {
    forall o :: o in stored ==> EndsIn(stored[o], final)
  }

  function TextAt(b: bytes, o: nat): bytes {
    if o < |b| && o + 1 + b[o] <= |b| then b[o + 1..o + 1 + b[o]] else []
  }

  /** No label of the unfinished name comes again in what is left of it. */
  ghost predicate Apart(b: bytes, own: map<nat, nat>, labels: Name) {
    forall o :: o in own ==> TextAt(b, o) !in labels
  }

  lemma PrefixIsWhole(labels: Name, have: Name, final: Label)
    requires EndsIn(labels, final) && EndsIn(have, final) && labels <= have
    ensures labels == have
  {
    assert labels[|labels| - 1] == have[|labels| - 1];
  }

  /** The search never finds a label of the name being written. */
  lemma {:induction false} OwnNotFound(b: bytes, octets: set<nat>, start: nat, pos: nat, t: Table, stored: map<nat, Name>,
                    own: map<nat, nat>, labels: Name)
    requires Ready(b, octets, start, pos, t, stored, own) && labels != [] && Apart(b, own, labels)
    requires FindRef(t, b, labels, 0).Some?
    ensures FindRef(t, b, labels, 0).value !in own
  {
    FoundRef(t, b, labels, 0);
    var r := FindRef(t, b, labels, 0).value;
    if r in own {
      LiteralMatch(b, r, pos, own[r], labels);
    }
  }

  lemma {:induction false} LiteralMatch(b: bytes, o: nat, pos: nat, count: nat, labels: Name)
    requires Chain(b, o, pos, count) && count > 0 && labels != [] && Matches(b, o, labels)
    ensures TextAt(b, o) == labels[0]
  {
    hide NextSubstring;
    LiteralSubstring(b, o);
    MatchesFirst(b, o, labels);
  }

  lemma ApartStep(b: bytes, octets: set<nat>, start: nat, pos: nat, t: Table, stored: map<nat, Name>,
                  own: map<nat, nat>, labels: Name)
    requires Ready(b, octets, start, pos, t, stored, own) && labels != [] && Apart(b, own, labels)
    requires TextName(labels) && Distinct(labels) && pos + |labels[0]| + 1 < |b|
    ensures Apart(Splice(b, pos, [|labels[0]| % 256] + labels[0]), (map o | o in own :: own[o] + 1)[pos := 1], labels[1..])
  {
    hide Ready, Splice;
    var x, b2 := labels[0], Splice(b, pos, [|labels[0]| % 256] + labels[0]);
    var own2 := (map o | o in own :: own[o] + 1)[pos := 1];
    ReadyStep(b, octets, start, pos, t, stored, own, x);
    forall o | o in own2 ensures TextAt(b2, o) !in labels[1..] {
      if o == pos {
        assert TextAt(b2, o) == x;
      } else {
        OwnText(b, octets, start, pos, t, stored, own, b2, o);
      }
    }
  }

  lemma OwnText(b: bytes, octets: set<nat>, start: nat, pos: nat, t: Table, stored: map<nat, Name>,
                own: map<nat, nat>, b2: bytes, o: nat)
    requires Ready(b, octets, start, pos, t, stored, own) && o in own && |b2| == |b|
    requires forall k :: 0 <= k < pos ==> b2[k] == b[k]
    ensures TextAt(b2, o) == TextAt(b, o)
  {
    hide StoredAt, Remembers;
    assert Chain(b, o, pos, own[o]);
    ChainBound(b, o + 1 + b[o], pos, own[o] - 1);
  }

  /** What a caller can check before any writing makes every reference sound. */
  lemma {:induction false} RegularIsSound(b: bytes, octets: set<nat>, start: nat, pos: nat, t: Table,
                                          stored: map<nat, Name>, own: map<nat, nat>, labels: Name, final: Label)
    requires Ready(b, octets, start, pos, t, stored, own) && t.Valid() && pos <= |b|
    requires AllEndIn(stored, final) && Apart(b, own, labels)
    requires TextName(labels) && Distinct(labels) && (labels == [] || EndsIn(labels, final))
    ensures SoundRefs(b, pos, labels, t, start)
    decreases labels
  {
    hide *;
    if labels == [] {
      NothingSound(b, pos, t, start);
    } else if FindRef(t, b, labels, 0).Some? {
      RefChoice(b, octets, start, pos, t, stored, own, labels);
      OwnNotFound(b, octets, start, pos, t, stored, own, labels);
      var r := FindRef(t, b, labels, 0).value;
      StoredEnds(stored, r, final);
      PrefixIsWhole(labels, stored[r], final);
      RefIsSound(b, pos, labels, t, start);
    } else if pos + |labels[0]| + 1 < |b| {
      var x := labels[0];
      RegularTail(labels, final);
      ApartStep(b, octets, start, pos, t, stored, own, labels);
      ReadyStep(b, octets, start, pos, t, stored, own, x);
      RegularIsSound(Splice(b, pos, [|x| % 256] + x), octets, start, pos + 1 + |x|, t.Add(pos), stored,
                     (map o | o in own :: own[o] + 1)[pos := 1], labels[1..], final);
      LabelIsSound(b, pos, labels, t, start);
    } else {
      NoRoomIsSound(b, pos, labels, t, start);
    }
  }

  lemma StoredEnds(stored: map<nat, Name>, r: nat, final: Label)
    requires AllEndIn(stored, final)
    ensures r in stored ==> EndsIn(stored[r], final)
  {}

  lemma RegularTail(labels: Name, final: Label)
    requires TextName(labels) && Distinct(labels) && EndsIn(labels, final)
    ensures TextLabel(labels[0]) && TextName(labels[1..]) && Distinct(labels[1..])
    ensures labels[1..] == [] || EndsIn(labels[1..], final)
  {}

  lemma {:induction false} RefIsSound(b: bytes, pos: nat, labels: Name, t: Table, start: nat)
    requires t.Valid() && labels != [] && FindRef(t, b, labels, 0).Some?
    requires var r := FindRef(t, b, labels, 0).value; r < start && EndsAfter(b, r, |labels|)
    ensures SoundRefs(b, pos, labels, t, start)
  {}

  lemma LabelIsSound(b: bytes, pos: nat, labels: Name, t: Table, start: nat)
    requires t.Valid() && labels != [] && FindRef(t, b, labels, 0).None? && pos + |labels[0]| + 1 < |b|
    requires SoundRefs(Splice(b, pos, [|labels[0]| % 256] + labels[0]), pos + 1 + |labels[0]|, labels[1..], t.Add(pos), start)
    ensures SoundRefs(b, pos, labels, t, start)
  {
    hide FindRef, Splice;
  }

  lemma {:induction false} NoRoomIsSound(b: bytes, pos: nat, labels: Name, t: Table, start: nat)
    requires t.Valid() && labels != [] && FindRef(t, b, labels, 0).None? && pos + |labels[0]| + 1 >= |b|
    ensures SoundRefs(b, pos, labels, t, start)
  {}

  /** A message in the making: everything before pos is written, and stored says what the ring knows. */
  ghost predicate Sound(b: bytes, octets: set<nat>, pos: nat, t: Table, stored: map<nat, Name>, final: Label) {
    Ready(b, octets, pos, pos, t, stored, map[]) && AllEndIn(stored, final)
  }

  /** One more regular name: it is read back, and the message stays sound. */
  lemma NameAppended(b: bytes, octets: set<nat>, pos: nat, t: Table, stored: map<nat, Name>, final: Label, labels: Name)
    returns (stored2: map<nat, Name>)
    requires Sound(b, octets, pos, t, stored, final) && Regular(labels, final) && t.Valid() && pos <= |b|
    requires MakeName(b, pos, labels, Some(t)).end.Some?
    ensures
      var m := MakeName(b, pos, labels, Some(t));
      var octets2 := octets + Span(pos, m.end.value);
      && m.table.Some?
      && Sound(m.buf, octets2, m.end.value, m.table.value, stored2, final)
      && Compressed(m.buf, octets2, pos, labels) && End(m.buf, pos, labels) == m.end.value
      && m.buf[..pos] == b[..pos]
  {
    hide *;
    SoundStarts(b, octets, pos, t, stored, final, labels);
    RegularIsSound(b, octets, pos, pos, t, stored, map[], labels, final);
    NotStoredYet(b, octets, pos, t, stored);
    stored2 := MakeSound(b, octets, pos, pos, t, stored, map[], labels);
    MakeNameFrame(b, pos, labels, Some(t));
    TailsEnd(stored, stored2, labels, final);
    SoundAgain(b, octets, pos, t, stored, final, MakeName(b, pos, labels, Some(t)), labels, stored2);
  }

  /** A message that is sound and a regular name meet what the writing of the name needs. */
  lemma SoundStarts(b: bytes, octets: set<nat>, pos: nat, t: Table, stored: map<nat, Name>, final: Label, labels: Name)
    requires Sound(b, octets, pos, t, stored, final) && Regular(labels, final)
    ensures Ready(b, octets, pos, pos, t, stored, map[]) && AllEndIn(stored, final) && Apart(b, map[], labels)
    ensures TextName(labels) && Distinct(labels) && EndsIn(labels, final)
  {}

  lemma {:induction false} SoundAgain(b: bytes, octets: set<nat>, pos: nat, t: Table, stored: map<nat, Name>, final: Label,
                   m: Made, labels: Name, stored2: map<nat, Name>)
    requires Sound(b, octets, pos, t, stored, final) && AllEndIn(stored2, final) && |m.buf| == |b|
    requires m.end.Some? ==> pos < m.end.value <= |b|
    requires var none: map<nat, nat> := map[]; NameWritten(m, octets, pos, labels, stored2, none.Keys)
    ensures
      var octets2 := octets + Span(pos, m.end.value);
      && m.end.Some? && m.table.Some?
      && Sound(m.buf, octets2, m.end.value, m.table.value, stored2, final)
      && Compressed(m.buf, octets2, pos, labels) && End(m.buf, pos, labels) == m.end.value
  {
    hide Compressed, End, StoredAt;
    var none: map<nat, nat> := map[];
    assert stored2.Keys + none.Keys == stored2.Keys;
  }

  lemma TailsEnd(stored: map<nat, Name>, stored2: map<nat, Name>, labels: Name, final: Label)
    requires AllEndIn(stored, final) && Extends(stored, stored2, labels) && EndsIn(labels, final)
    ensures AllEndIn(stored2, final)
  {
    forall o | o in stored2 ensures EndsIn(stored2[o], final) {
      if o !in stored { assert TailOf(stored2[o], labels); }
    }
  }

  /** Octets that belong to no name may be written at any time. */
  lemma OtherOctetsWritten(b: bytes, octets: set<nat>, pos: nat, t: Table, stored: map<nat, Name>, final: Label,
                           b2: bytes, pos2: nat)
    requires Sound(b, octets, pos, t, stored, final) && |b2| == |b| && Keeps(b, octets, b2) && pos <= pos2 <= |b|
    ensures Sound(b2, octets, pos2, t, stored, final)
  {
    StoredFrame(b, octets, pos, stored, b2, octets, pos2);
  }

  /** What is appended to a message: a name, or other octets such as the fixed fields of a record. */
  datatype Piece = NamePiece(name: NonEmpty) | RawPiece(octets: bytes)

  datatype Placed = Placed(start: nat, labels: Name, end: nat)

  datatype Message = Message(buf: bytes, pos: nat, table: Table, names: seq<Placed>)

  function Append(s: Message, p: Piece): (r: Option<Message>)
    requires s.pos <= |s.buf| && s.table.Valid()
    ensures r.Some? ==> s.pos <= r.value.pos <= |r.value.buf| == |s.buf| && r.value.table.Valid()
  {
    match p
    case RawPiece(x) =>
      if s.pos + |x| > |s.buf| then None else Some(s.(buf := Splice(s.buf, s.pos, x), pos := s.pos + |x|))
    case NamePiece(name) =>
      var m := MakeName(s.buf, s.pos, LabelsOf(name), Some(s.table));
      if m.end.None? then None
      else Some(Message(m.buf, m.end.value, m.table.value, s.names + [Placed(s.pos, LabelsOf(name), m.end.value)]))
  }

  function AppendAll(s: Message, pieces: seq<Piece>): (r: Option<Message>)
    requires s.pos <= |s.buf| && s.table.Valid()
    decreases |pieces|
  {
    if pieces == [] then Some(s)
    else match Append(s, pieces[0])
      case None => None
      case Some(s2) => AppendAll(s2, pieces[1..])
  }

  /** The names among the pieces, in order. */
  function NamesIn(pieces: seq<Piece>): seq<Name>
  {
    if pieces == [] then []
    else (if pieces[0].NamePiece? then [LabelsOf(pieces[0].name)] else []) + NamesIn(pieces[1..])
  }

  function LabelsPlaced(names: seq<Placed>): seq<Name> {
    seq(|names|, i requires 0 <= i < |names| => names[i].labels)
  }

  ghost predicate Intact(s: Message, octets: set<nat>, p: Placed) {
    Compressed(s.buf, octets, p.start, p.labels) && End(s.buf, p.start, p.labels) == p.end && |p.labels| <= MAX_SUBSTRINGS
  }

  ghost predicate AllIntact(s: Message, octets: set<nat>) {
    forall i :: 0 <= i < |s.names| ==> Intact(s, octets, s.names[i])
  }

  predicate RegularPiece(p: Piece, final: Label) {
    p.NamePiece? ==> Regular(LabelsOf(p.name), final)
  }

  lemma IntactFrame(s: Message, octets: set<nat>, s2: Message, octets2: set<nat>)
    requires AllIntact(s, octets) && Keeps(s.buf, octets, s2.buf) && octets <= octets2
    ensures forall i :: 0 <= i < |s.names| ==> Intact(s2, octets2, s.names[i])
  {
    forall i | 0 <= i < |s.names| ensures Intact(s2, octets2, s.names[i]) {
      var p := s.names[i];
      assert Intact(s, octets, p);
      CompressedFrame(s.buf, octets, p.start, p.labels, s2.buf, octets2);
    }
  }

  lemma AppendIntact(s: Message, octets: set<nat>, stored: map<nat, Name>, final: Label, p: Piece)
    returns (octets2: set<nat>, stored2: map<nat, Name>)
    requires s.pos <= |s.buf| && s.table.Valid() && RegularPiece(p, final) && Append(s, p).Some?
    requires Sound(s.buf, octets, s.pos, s.table, stored, final) && AllIntact(s, octets)
    ensures var s2 := Append(s, p).value;
            Sound(s2.buf, octets2, s2.pos, s2.table, stored2, final) && AllIntact(s2, octets2)
  {
    hide Compressed, Labels, End, MakeName, Intact, TextName, Distinct, StoredAt, Remembers;
    var s2 := Append(s, p).value;
    OctetsBefore(s.buf, octets, s.pos, s.table, stored, final);
    match p
    case RawPiece(x) =>
      octets2, stored2 := octets, stored;
      OtherOctetsWritten(s.buf, octets, s.pos, s.table, stored, final, s2.buf, s2.pos);
      IntactFrame(s, octets, s2, octets2);
    case NamePiece(name) =>
      stored2 := NameAppended(s.buf, octets, s.pos, s.table, stored, final, LabelsOf(name));
      octets2 := octets + Span(s.pos, s2.pos);
      KeptPrefix(s.buf, s2.buf, s.pos, octets);
      IntactFrame(s, octets, s2, octets2);
      LastIntact(s2, octets2, s2.names[|s2.names| - 1]);
  }

  lemma {:induction false} LastIntact(s: Message, octets: set<nat>, p: Placed)
    requires Compressed(s.buf, octets, p.start, p.labels) && End(s.buf, p.start, p.labels) == p.end
    requires |p.labels| <= MAX_SUBSTRINGS
    ensures Intact(s, octets, p)
  {}

  lemma OctetsBefore(b: bytes, octets: set<nat>, pos: nat, t: Table, stored: map<nat, Name>, final: Label)
    requires Sound(b, octets, pos, t, stored, final)
    ensures forall k :: k in octets ==> k < pos
  {}

  lemma KeptPrefix(b: bytes, b2: bytes, pos: nat, octets: set<nat>)
    requires pos <= |b| && pos <= |b2| && b2[..pos] == b[..pos] && (forall k :: k in octets ==> k < pos)
    ensures Keeps(b, octets, b2)
  {
    forall k | k in octets && k < |b| ensures b2[k] == b[k] {
      assert b2[..pos][k] == b[..pos][k];
    }
  }

  lemma OneMorePlaced(s: Message, p: Piece)
    requires s.pos <= |s.buf| && s.table.Valid() && Append(s, p).Some?
    ensures LabelsPlaced(Append(s, p).value.names) == LabelsPlaced(s.names) + NamesIn([p])
  {
    hide MakeName, LabelsOf, Splice;
    assert [p][1..] == [];
  }

  lemma {:induction false} AppendAllIntact(s: Message, octets: set<nat>, stored: map<nat, Name>, final: Label, pieces: seq<Piece>)
    returns (octets2: set<nat>)
    requires s.pos <= |s.buf| && s.table.Valid() && (forall i :: 0 <= i < |pieces| ==> RegularPiece(pieces[i], final))
    requires AppendAll(s, pieces).Some?
    requires Sound(s.buf, octets, s.pos, s.table, stored, final) && AllIntact(s, octets)
    ensures var s2 := AppendAll(s, pieces).value;
      && AllIntact(s2, octets2) && LabelsPlaced(s2.names) == LabelsPlaced(s.names) + NamesIn(pieces)
    decreases |pieces|
  {
    hide Sound, AllIntact, Regular, LabelsOf, Append, LabelsPlaced;
    if pieces == [] {
      octets2 := octets;
    } else {
      var o2, st2 := AppendIntact(s, octets, stored, final, pieces[0]);
      var s2 := Append(s, pieces[0]).value;
      octets2 := AppendAllIntact(s2, o2, st2, final, pieces[1..]);
      OneMorePlaced(s, pieces[0]);
      assert NamesIn(pieces) == NamesIn([pieces[0]]) + NamesIn(pieces[1..]);
    }
  }

  /** An empty ring. */
  predicate Fresh(t: Table) {
    t.Valid() && t.count == 0
  }

  /**
   The compression round trip over a whole message (section 4.1.4 of RFC 1035): names and other
   octets appended in any order, from an empty ring. At the end every name written is read back in
   full from where it starts, ends where its writing ended, and is encoded with references that point
   strictly backwards to literal labels.
   */
  lemma NamesSurvive(b: bytes, pos: nat, t: Table, pieces: seq<Piece>, final: Label) returns (octets: set<nat>)
    requires pos <= |b| <= 0x4000 && Fresh(t)
    requires forall i :: 0 <= i < |pieces| ==> RegularPiece(pieces[i], final)
    requires AppendAll(Message(b, pos, t, []), pieces).Some?
    ensures
      var s := AppendAll(Message(b, pos, t, []), pieces).value;
      && LabelsPlaced(s.names) == NamesIn(pieces)
      && forall i :: 0 <= i < |s.names| ==>
           && NameAt(s.buf, s.names[i].start) == Some(Decoded(s.names[i].labels, s.names[i].end))
           && Compressed(s.buf, octets, s.names[i].start, s.names[i].labels)
  {
    var s0 := Message(b, pos, t, []);
    octets := AppendAllIntact(s0, {}, map[], final, pieces);
    hide AppendAll, RegularPiece, Compressed, End, Decode;
    var s := AppendAll(s0, pieces).value;
    assert LabelsPlaced([]) + NamesIn(pieces) == NamesIn(pieces);
    forall i | 0 <= i < |s.names|
      ensures NameAt(s.buf, s.names[i].start) == Some(Decoded(s.names[i].labels, s.names[i].end))
      ensures Compressed(s.buf, octets, s.names[i].start, s.names[i].labels)
    {
      assert Intact(s, octets, s.names[i]);
      DecodeCompressed(s.buf, octets, s.names[i].start, s.names[i].labels, MAX_SUBSTRINGS);
    }
  }

  /** The dot that text from a position on lacks at its end. */
  function LastDot(str: bytes, from: nat): bytes
    requires from <= |str|
  {
    if from == |str| || str[|str| - 1] == 0x2E then [] else [0x2E]
  }

  /** The labels are what lies between the dots, all of it; a last dot opens no further label. */
  lemma {:induction false} DottedSplit(str: bytes, from: nat)
    requires from <= |str|
    ensures Dotted(Split(str, from)) == str[from..] + LastDot(str, from)
    ensures forall i :: 0 <= i < |Split(str, from)| ==> 0x2E !in Split(str, from)[i]
    decreases |str| - from
  {
    hide Split, Find, Dotted, LabelEnd;
    if from == |str| {
      SplitEnd(str);
      DottedNothing();
    } else {
      var p := LabelEnd(str, from);
      SplitStep(str, from);
      LabelEndsAtDot(str, from);
      var labels := Split(str, from);
      DottedStep(labels);
      if p < |str| {
        DottedSplit(str, p + 1);
        assert labels[1..] == Split(str, p + 1);
        assert str[from..] == str[from..p] + ([DOT] + str[p + 1..]);
        Joins(str[from..p], str[p + 1..], LastDot(str, p + 1));
      } else {
        SplitEnd(str);
        assert labels[1..] == Split(str, |str|);
        DottedNothing();
        assert str[|str| - 1] in str[from..p];
        assert str[from..p] == str[from..];
      }
    }
  }

  lemma Joins(x: bytes, y: bytes, z: bytes)
    ensures x + ([0x2E] + (y + z)) == x + ([0x2E] + y) + z
  {}

  /** The labels of a name: its text between the dots, without one dot at its end. */
  lemma {:induction false} LabelsExactly(name: NonEmpty)
    ensures var str := if name[|name| - 1] == 0x2E then name[..|name| - 1] else name;
            Dotted(LabelsOf(name)) == str + LastDot(str, 0)
    ensures forall i :: 0 <= i < |LabelsOf(name)| ==> 0x2E !in LabelsOf(name)[i]
  {
    hide Split, Dotted;
    DottedSplit(Trimmed(name), 0);
    assert Trimmed(name)[0..] == Trimmed(name);
  }

  lemma LabelEndsAtDot(str: bytes, from: nat)
    requires from < |str|
    ensures var p := LabelEnd(str, from); 0x2E !in str[from..p] && (p < |str| ==> str[p] == 0x2E)
  {}

  lemma {:induction false} DottedStep(labels: Name)
    requires labels != []
    ensures Dotted(labels) == labels[0] + ([DOT] + Dotted(labels[1..]))
  {
    assert labels[0] + [DOT] + Dotted(labels[1..]) == labels[0] + ([DOT] + Dotted(labels[1..]));
  }

  lemma DottedNothing()
    ensures Dotted([]) == []
  {}
}
