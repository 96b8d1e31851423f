/**
 What the compressed names in a message mean, that later writes leave it alone, and that writing a
 name and reading it back agree when the reference the search picks is a sound one.
 */
module NameTrip {
  import opened Bytes
  import opened NameWalk
  import opened NameMake

  /** A label octet that no reader takes for a terminator or a reference. */
  predicate TextLabel(x: Label) {
    1 <= |x| < 0xC0
  }

  predicate TextName(labels: Name) {
    forall i :: 0 <= i < |labels| ==> TextLabel(labels[i])
  }

  /** The octets from o hold the label x, all of them in the set of name octets. */
  predicate Literal(b: bytes, octets: set<nat>, o: nat, x: Label) {
    && TextLabel(x) && o + 1 + |x| <= |b|
    && b[o] == |x| && b[o + 1..o + 1 + |x|] == x
    && forall k :: o <= k <= o + |x| ==> k in octets
  }

  /** labels, at least one of them, begin literally at o. */
  predicate Labels(b: bytes, octets: set<nat>, o: nat, labels: Name)
    decreases |labels|, 0
  {
    && labels != []
    && Literal(b, octets, o, labels[0])
    && Compressed(b, octets, o + 1 + |labels[0]|, labels[1..])
  }

  /**
   The octets at o are an encoding of labels in which every reference points strictly backwards to
   a literal label. Only octets of the given set are looked at.
   */
  predicate Compressed(b: bytes, octets: set<nat>, o: nat, labels: Name)
    decreases |labels|, 1
  {
    && o < |b| && o in octets
    && if IsStringRef(b[o]) then
         && o + 1 < |b| && o + 1 in octets
         && RefTarget(b, o) < o && Labels(b, octets, RefTarget(b, o), labels)
       else if labels == [] then b[o] == 0
       else Labels(b, octets, o, labels)
  }

  function End(b: bytes, o: nat, labels: Name): nat
    decreases |labels|
  {
    if o < |b| && IsStringRef(b[o]) then o + 2
    else if labels == [] then o + 1
    else End(b, o + 1 + |labels[0]|, labels[1..])
  }

  /** b2 has the name octets of b. */
  predicate Keeps(b: bytes, octets: set<nat>, b2: bytes) {
    forall k :: k in octets && k < |b| ==> k < |b2| && b2[k] == b[k]
  }

  /** Writing elsewhere leaves a name alone. */
  lemma {:induction false} LabelsFrame(b: bytes, octets: set<nat>, o: nat, labels: Name, b2: bytes, octets2: set<nat>)
    requires Labels(b, octets, o, labels) && Keeps(b, octets, b2) && octets <= octets2
    ensures Labels(b2, octets2, o, labels)
    decreases |labels|, 0
  {
    var n := |labels[0]|;
    assert o in octets && o + n in octets;
    forall k | o + 1 <= k <= o + n ensures b2[k] == b[k] { assert k in octets; }
    assert b2[o + 1..o + 1 + n] == b[o + 1..o + 1 + n];
    CompressedFrame(b, octets, o + 1 + n, labels[1..], b2, octets2);
  }

  lemma {:induction false} CompressedFrame(b: bytes, octets: set<nat>, o: nat, labels: Name, b2: bytes, octets2: set<nat>)
    requires Compressed(b, octets, o, labels) && Keeps(b, octets, b2) && octets <= octets2
    ensures Compressed(b2, octets2, o, labels)
    ensures End(b2, o, labels) == End(b, o, labels)
    decreases |labels|, 1
  {
    if IsStringRef(b[o]) {
      LabelsFrame(b, octets, RefTarget(b, o), labels, b2, octets2);
    } else if labels != [] {
      LabelsFrame(b, octets, o, labels, b2, octets2);
      CompressedFrame(b, octets, o + 1 + |labels[0]|, labels[1..], b2, octets2);
    }
  }

  /** A literal label is found directly or through one reference. */
  lemma SubstringAt(b: bytes, octets: set<nat>, o: nat, x: Label)
    requires o < |b|
    requires IsStringRef(b[o]) ==> o + 1 < |b|
    requires Literal(b, octets, if IsStringRef(b[o]) then RefTarget(b, o) else o, x)
    ensures var at := if IsStringRef(b[o]) then RefTarget(b, o) else o;
            NextSubstring(b, o) == Sub(at + 1, |x|, IsStringRef(b[o]))
  {
    if IsStringRef(b[o]) {
      var at := RefTarget(b, o);
      assert Follow(b, at, 1) == Some(at);
      assert Follow(b, o, 0) == Some(at);
    }
  }

  /** Where the first label of a name lies: at o, or where the reference at o points. */
  function First(b: bytes, o: nat): nat
    requires o < |b| && (IsStringRef(b[o]) ==> o + 1 < |b|)
  {
    if IsStringRef(b[o]) then RefTarget(b, o) else o
  }

  /** The first label of a compressed name, found by every reader, and the rest behind it. */
  lemma CompressedStep(b: bytes, octets: set<nat>, o: nat, labels: Name)
    requires Compressed(b, octets, o, labels)
    ensures o < |b| && (IsStringRef(b[o]) ==> o + 1 < |b|)
    ensures labels == [] ==> NextSubstring(b, o) == Sub(o, 0, false) && End(b, o, labels) == o + 1
    ensures labels != [] ==>
      var at, n := First(b, o), |labels[0]|;
      && NextSubstring(b, o) == Sub(at + 1, n, IsStringRef(b[o]))
      && n > 0 && at + 1 + n <= |b| && b[at + 1..at + 1 + n] == labels[0]
      && Compressed(b, octets, at + 1 + n, labels[1..])
      && End(b, o, labels) == if IsStringRef(b[o]) then o + 2 else End(b, at + 1 + n, labels[1..])
  {
    if labels != [] {
      SubstringAt(b, octets, o, labels[0]);
    }
  }

  /** The readers of section 4.1.4 and the picture above agree. */
  lemma {:induction false} DecodeCompressed(b: bytes, octets: set<nat>, o: nat, labels: Name, budget: nat)
    requires Compressed(b, octets, o, labels)
    ensures Decode(b, o, budget) ==
      if |labels| <= budget then Some(Decoded(labels, End(b, o, labels))) else None
    decreases |labels|
  {
    hide NextSubstring, Compressed, Labels, First, End;
    CompressedStep(b, octets, o, labels);
    if labels != [] && budget > 0 {
      assert [labels[0]] + labels[1..] == labels;
      DecodeCompressed(b, octets, First(b, o) + 1 + |labels[0]|, labels[1..], budget - 1);
    }
  }

  lemma {:induction false} LabelsAreCompressed(b: bytes, octets: set<nat>, o: nat, labels: Name)
    requires Labels(b, octets, o, labels)
    ensures Compressed(b, octets, o, labels)
  {
    assert o in octets;
  }

  /** The search compares prefixes only: a longer stored name matches as well. */
  lemma {:induction false} MatchesStored(b: bytes, octets: set<nat>, o: nat, have: Name, want: Name)
    requires Compressed(b, octets, o, have)
    ensures Matches(b, o, want) <==> want <= have
    decreases |want|
  {
    hide NextSubstring, Compressed, Labels, First;
    CompressedStep(b, octets, o, have);
    if want != [] && have != [] {
      MatchesStored(b, octets, First(b, o) + 1 + |have[0]|, have[1..], want[1..]);
      PrefixStep(want, have);
    }
  }

  lemma PrefixStep(want: Name, have: Name)
    requires want != [] && have != []
    ensures want <= have <==> want[0] == have[0] && want[1..] <= have[1..]
  {
    assert want == [want[0]] + want[1..] && have == [have[0]] + have[1..];
  }

  /** The check that mdns_string_table_find leaves out: the stored name has exactly count labels. */
  predicate EndsAfter(b: bytes, o: nat, count: nat)
    decreases count
  {
    var s := NextSubstring(b, o);
    && s.Sub?
    && if count == 0 then s.length == 0 else EndsAfter(b, s.offset + s.length, count - 1)
  }

  lemma {:induction false} EndsAfterStored(b: bytes, octets: set<nat>, o: nat, have: Name, count: nat)
    requires Compressed(b, octets, o, have) && count <= |have|
    ensures EndsAfter(b, o, count) <==> count == |have|
    decreases count
  {
    hide NextSubstring, Compressed, Labels, First;
    CompressedStep(b, octets, o, have);
    if count > 0 {
      EndsAfterStored(b, octets, First(b, o) + 1 + |have[0]|, have[1..], count - 1);
    }
  }

  lemma {:induction false} FoundRef(t: Table, b: bytes, labels: Name, i: nat)
    requires t.Valid() && FindRef(t, b, labels, i).Some?
    ensures var r := FindRef(t, b, labels, i).value;
            r < |b| && Matches(b, r, labels) && exists k :: i <= k < t.count && t.offset[k] == r
    decreases t.count - i
  {
    if !(t.offset[i] < |b| && Matches(b, t.offset[i], labels)) {
      FoundRef(t, b, labels, i + 1);
    }
  }

  lemma RefReadsBack(b: bytes, pos: nat, target: nat)
    requires pos + 2 <= |b| && target < 0x4000
    ensures var r := Splice(b, pos, RefBytes(target));
            IsStringRef(r[pos]) && RefTarget(r, pos) == target
  {
    var r, v := Splice(b, pos, RefBytes(target)), 0xC000 + target;
    assert r[pos..pos + 2] == RefBytes(target) == Put16(v);
    assert r[pos] == Put16(v)[0] && r[pos + 1] == Put16(v)[1];
    Put16ReadsBack(v);
    assert v / 256 >= 0xC0;
  }

  /**
   When the reference that ends the writing of labels, if any, is a sound one: it points before the
   name being written, at a stored name that ends where the sought one ends. Lines 697-699 of the
   source check neither.
   */
  predicate SoundRefs(b: bytes, pos: nat, labels: Name, t: Table, start: nat)
    requires t.Valid()
    decreases labels
  {
    labels == [] ||
    match FindRef(t, b, labels, 0)
    case Some(r) => r < start && EndsAfter(b, r, |labels|)
    case None =>
      pos + |labels[0]| + 1 < |b| ==>
        SoundRefs(Splice(b, pos, [|labels[0]| % 256] + labels[0]), pos + 1 + |labels[0]|, labels[1..], t.Add(pos), start)
  }

  /** Behind o, count literal labels lead to pos. */
  predicate Chain(b: bytes, o: nat, pos: nat, count: nat)
    decreases count
  {
    if count == 0 then o == pos
    else o < |b| && 1 <= b[o] < 0xC0 && o + 1 + b[o] <= |b| && Chain(b, o + 1 + b[o], pos, count - 1)
  }

  /** The labels of an unfinished name, each with the number of labels from it to pos. */
  ghost predicate Own(b: bytes, own: map<nat, nat>, start: nat, pos: nat) {
    forall o :: o in own ==> start <= o < pos && own[o] > 0 && Chain(b, o, pos, own[o])
  }

  /**
   The names written so far: stored gives the labels at every remembered offset before start, own
   the number of labels of the unfinished name at start behind each of its own offsets.
   */
  ghost predicate Ready(b: bytes, octets: set<nat>, start: nat, pos: nat, t: Table,
                        stored: map<nat, Name>, own: map<nat, nat>) {
    && |b| <= 0x4000 && start <= pos <= |b| && t.Valid()
    && (forall k :: k in octets ==> k < start)
    && StoredAt(b, octets, start, stored)
    && Own(b, own, start, pos)
    && Remembers(t, stored.Keys + own.Keys)
  }

  /** At every offset of stored, all of them before bound, its labels begin literally. */
  ghost predicate StoredAt(b: bytes, octets: set<nat>, bound: nat, stored: map<nat, Name>) {
    forall o :: o in stored ==> o < bound && Labels(b, octets, o, stored[o])
  }

  /** The slots of the ring in use hold some of the offsets. */
  ghost predicate Remembers(t: Table, offsets: set<nat>)
    requires t.Valid()
  {
    forall i :: 0 <= i < t.count ==> t.offset[i] in offsets
  }

  lemma RemembersMore(t: Table, offsets: set<nat>, o: nat)
    requires t.Valid() && Remembers(t, offsets)
    ensures t.Add(o).Valid() && Remembers(t.Add(o), offsets + {o})
  {
    var t2 := t.Add(o);
    forall i | 0 <= i < t2.count ensures t2.offset[i] in offsets + {o} {
      assert i == t.next || i < t.count;
    }
  }

  lemma StoredFrame(b: bytes, octets: set<nat>, bound: nat, stored: map<nat, Name>, b2: bytes, octets2: set<nat>,
                    bound2: nat)
    requires StoredAt(b, octets, bound, stored) && Keeps(b, octets, b2) && octets <= octets2 && bound <= bound2
    ensures StoredAt(b2, octets2, bound2, stored)
  {
    forall o | o in stored ensures Labels(b2, octets2, o, stored[o]) {
      LabelsFrame(b, octets, o, stored[o], b2, octets2);
    }
  }

  lemma {:induction false} ChainFrame(b: bytes, o: nat, pos: nat, count: nat, b2: bytes)
    requires Chain(b, o, pos, count) && |b2| == |b| && pos <= |b|
    requires forall k :: o <= k < pos ==> b2[k] == b[k]
    ensures Chain(b2, o, pos, count)
    decreases count
  {
    if count > 0 {
      ChainBound(b, o + 1 + b[o], pos, count - 1);
      ChainFrame(b, o + 1 + b[o], pos, count - 1, b2);
    }
  }

  lemma {:induction false} ChainBound(b: bytes, o: nat, pos: nat, count: nat)
    requires Chain(b, o, pos, count)
    ensures o + count <= pos
    decreases count
  {
    if count > 0 { ChainBound(b, o + 1 + b[o], pos, count - 1); }
  }

  lemma {:induction false} ChainMore(b: bytes, o: nat, pos: nat, count: nat)
    requires Chain(b, o, pos, count) && pos < |b| && 1 <= b[pos] < 0xC0 && pos + 1 + b[pos] <= |b|
    ensures Chain(b, o, pos + 1 + b[pos], count + 1)
    decreases count
  {
    if count > 0 { ChainMore(b, o + 1 + b[o], pos, count - 1); }
  }

  predicate SameBefore(b: bytes, b2: bytes, pos: nat) {
    pos <= |b| == |b2| && forall k :: 0 <= k < pos ==> b2[k] == b[k]
  }

  lemma OwnStep(b: bytes, own: map<nat, nat>, start: nat, pos: nat, x: Label)
    requires Own(b, own, start, pos) && start <= pos && TextLabel(x) && pos + |x| + 1 < |b|
    ensures Own(Splice(b, pos, [|x| % 256] + x), (map o | o in own :: own[o] + 1)[pos := 1], start, pos + 1 + |x|)
  {
    var b2 := Splice(b, pos, [|x| % 256] + x);
    var own2 := (map o | o in own :: own[o] + 1)[pos := 1];
    LabelThere(b, pos, x);
    forall o | o in own2 ensures start <= o < pos + 1 + |x| && own2[o] > 0 && Chain(b2, o, pos + 1 + |x|, own2[o]) {
      if o == pos {
        assert Chain(b2, pos + 1 + |x|, pos + 1 + |x|, 0);
      } else {
        ChainFrame(b, o, pos, own[o], b2);
        ChainMore(b2, o, pos, own[o]);
      }
    }
  }

  lemma LabelThere(b: bytes, pos: nat, x: Label)
    requires |x| < 0x100 && pos + |x| + 1 < |b|
    ensures var b2 := Splice(b, pos, [|x| % 256] + x);
      b2[pos] == |x| && b2[pos + 1..pos + 1 + |x|] == x && SameBefore(b, b2, pos)
  {
    var b2 := Splice(b, pos, [|x| % 256] + x);
    assert b2[pos..pos + 1 + |x|] == [|x| % 256] + x;
    assert b2[pos] == b2[pos..pos + 1 + |x|][0] == |x|;
    assert b2[pos + 1..pos + 1 + |x|] == b2[pos..pos + 1 + |x|][1..] == x;
  }

  /** Writing one more label keeps the picture. */
  lemma ReadyStep(b: bytes, octets: set<nat>, start: nat, pos: nat, t: Table, stored: map<nat, Name>,
                  own: map<nat, nat>, x: Label)
    requires Ready(b, octets, start, pos, t, stored, own) && TextLabel(x) && pos + |x| + 1 < |b|
    ensures t.Add(pos).Valid()
    ensures
      var b2 := Splice(b, pos, [|x| % 256] + x);
      var own2 := (map o | o in own :: own[o] + 1)[pos := 1];
      && Ready(b2, octets, start, pos + 1 + |x|, t.Add(pos), stored, own2)
      && b2[pos] == |x| && b2[pos + 1..pos + 1 + |x|] == x && pos + 1 + |x| !in stored
  {
    hide Splice, Chain, Labels;
    var b2 := Splice(b, pos, [|x| % 256] + x);
    LabelThere(b, pos, x);
    StoredFrame(b, octets, start, stored, b2, octets, start);
    OwnStep(b, own, start, pos, x);
    var own2 := (map o | o in own :: own[o] + 1)[pos := 1];
    RemembersMore(t, stored.Keys + own.Keys, pos);
    assert stored.Keys + own2.Keys == stored.Keys + own.Keys + {pos};
  }

  function Span(from: nat, end: nat): (s: set<nat>)
    ensures forall k: nat :: k in s <==> from <= k < end
    decreases end - from
  {
    if from >= end then {} else {from} + Span(from + 1, end)
  }

  /** The tail of a name, with at least one label. */
  predicate TailOf(tail: Name, labels: Name) {
    0 < |tail| <= |labels| && tail == labels[|labels| - |tail|..]
  }

  lemma TailOfRest(tail: Name, labels: Name)
    requires labels != [] && TailOf(tail, labels[1..])
    ensures TailOf(tail, labels)
  {}

  /** A remembered offset whose labels begin with the sought ones. */
  lemma {:induction false} RefChoice(b: bytes, octets: set<nat>, start: nat, pos: nat, t: Table, stored: map<nat, Name>,
                  own: map<nat, nat>, labels: Name)
    requires Ready(b, octets, start, pos, t, stored, own) && labels != []
    requires FindRef(t, b, labels, 0).Some?
    ensures
      var r := FindRef(t, b, labels, 0).value;
      if r < start then
        && r in stored && labels <= stored[r]
        && (EndsAfter(b, r, |labels|) <==> labels == stored[r])
      else r in own
  {
    FoundRef(t, b, labels, 0);
    var r := FindRef(t, b, labels, 0).value;
    if r < start {
      LabelsAreCompressed(b, octets, r, stored[r]);
      MatchesStored(b, octets, r, stored[r], labels);
      EndsAfterStored(b, octets, r, stored[r], |labels|);
    }
  }

  /** What is known once labels have been written from pos to end. */
  ghost predicate NameWritten(m: Made, octets: set<nat>, pos: nat, labels: Name, stored: map<nat, Name>, own: set<nat>)
  {
    && m.end.Some? && m.table.Some? && m.table.value.Valid()
    && Compressed(m.buf, octets + Span(pos, m.end.value), pos, labels)
    && End(m.buf, pos, labels) == m.end.value
    && StoredAt(m.buf, octets + Span(pos, m.end.value), m.end.value, stored)
    && Remembers(m.table.value, stored.Keys + own)
  }

  /** stored2 adds tails of labels to stored. */
  ghost predicate Extends(stored: map<nat, Name>, stored2: map<nat, Name>, labels: Name) {
    && (forall o :: o in stored ==> o in stored2 && stored2[o] == stored[o])
    && (forall o :: o in stored2 && o !in stored ==> TailOf(stored2[o], labels))
  }

  lemma {:induction false} KeepStored(b: bytes, octets: set<nat>, start: nat, pos: nat, stored: map<nat, Name>, b2: bytes, end: nat)
    requires |b2| == |b| && start <= pos <= |b| && b2[..pos] == b[..pos] && (forall k :: k in octets ==> k < pos)
    requires StoredAt(b, octets, start, stored) && start <= end
    ensures StoredAt(b2, octets + Span(pos, end), end, stored)
  {
    forall k | k in octets && k < |b| ensures b2[k] == b[k] {
      assert b2[..pos][k] == b[..pos][k];
    }
    StoredFrame(b, octets, start, stored, b2, octets + Span(pos, end), end);
  }

  lemma {:induction false} TerminatorWritten(b: bytes, octets: set<nat>, start: nat, pos: nat, t: Table, stored: map<nat, Name>,
                          own: map<nat, nat>)
    requires Ready(b, octets, start, pos, t, stored, own) && MakeName(b, pos, [], Some(t)).end.Some?
    ensures NameWritten(MakeName(b, pos, [], Some(t)), octets, pos, [], stored, own.Keys)
    ensures Extends(stored, stored, [])
  {
    hide Labels;
    KeepStored(b, octets, start, pos, stored, b[pos := 0], pos + 1);
  }

  /** A sound reference is a compressed encoding of the labels it stands for. */
  lemma {:induction false} RefWritten(b: bytes, octets: set<nat>, start: nat, pos: nat, t: Table, stored: map<nat, Name>,
                   own: map<nat, nat>, labels: Name)
    requires Ready(b, octets, start, pos, t, stored, own) && labels != []
    requires FindRef(t, b, labels, 0).Some? && SoundRefs(b, pos, labels, t, start)
    requires MakeName(b, pos, labels, Some(t)).end.Some?
    ensures NameWritten(MakeName(b, pos, labels, Some(t)), octets, pos, labels, stored, own.Keys)
    ensures Extends(stored, stored, labels)
  {
    hide Labels, FindRef, EndsAfter, Splice, RefBytes;
    var r := FindRef(t, b, labels, 0).value;
    RefChoice(b, octets, start, pos, t, stored, own, labels);
    RefReadsBack(b, pos, r);
    KeepStored(b, octets, start, pos, stored, Splice(b, pos, RefBytes(r)), pos + 2);
  }

  /** A literal label in front of a finished rest. */
  lemma LabelWritten(b: bytes, octets: set<nat>, pos: nat, labels: Name, m: Made, stored: map<nat, Name>,
                     rest: map<nat, Name>, own: set<nat>)
    requires labels != [] && TextLabel(labels[0]) && pos + 1 + |labels[0]| <= |b| == |m.buf|
    requires b[pos] == |labels[0]| && b[pos + 1..pos + 1 + |labels[0]|] == labels[0]
    requires m.buf[..pos + 1 + |labels[0]|] == b[..pos + 1 + |labels[0]|]
    requires NameWritten(m, octets, pos + 1 + |labels[0]|, labels[1..], rest, own + {pos})
    requires m.end.value > pos + 1 + |labels[0]|
    requires Extends(stored, rest, labels[1..]) && pos !in stored
    ensures NameWritten(m, octets, pos, labels, rest[pos := labels], own)
    ensures Extends(stored, rest[pos := labels], labels)
  {
    hide Labels, Compressed, End, Extends, StoredAt, TextLabel;
    LabelInFront(b, octets, pos, labels, m.buf, m.end.value);
    StoredMore(m.buf, octets + Span(pos + 1 + |labels[0]|, m.end.value), octets + Span(pos, m.end.value), m.end.value,
               rest, pos, labels);
    assert rest.Keys + (own + {pos}) == rest[pos := labels].Keys + own;
    ExtendsMore(stored, rest, labels, pos);
  }

  lemma {:induction false} StoredMore(b: bytes, octets: set<nat>, octets2: set<nat>, bound: nat,
                                      stored: map<nat, Name>, o: nat, labels: Name)
    requires StoredAt(b, octets, bound, stored) && octets <= octets2 && o < bound && Labels(b, octets2, o, labels)
    ensures StoredAt(b, octets2, bound, stored[o := labels])
  {
    hide Labels;
    StoredFrame(b, octets, bound, stored, b, octets2, bound);
  }

  lemma ExtendsMore(stored: map<nat, Name>, rest: map<nat, Name>, labels: Name, pos: nat)
    requires labels != [] && Extends(stored, rest, labels[1..]) && pos !in stored
    ensures Extends(stored, rest[pos := labels], labels)
  {
    forall o | o in rest && o !in stored ensures TailOf(rest[o], labels) {
      TailOfRest(rest[o], labels);
    }
    TailOfSelf(labels);
  }

  lemma TailOfSelf(labels: Name)
    requires labels != []
    ensures TailOf(labels, labels)
  {}

  lemma LabelInFront(b: bytes, octets: set<nat>, pos: nat, labels: Name, b2: bytes, e: nat)
    requires labels != [] && TextLabel(labels[0])
    requires var p2 := pos + 1 + |labels[0]|;
      && p2 <= |b| == |b2| && b[pos] == |labels[0]| && b[pos + 1..p2] == labels[0] && b2[..p2] == b[..p2]
      && p2 <= e && Compressed(b2, octets + Span(p2, e), p2, labels[1..])
    ensures Labels(b2, octets + Span(pos, e), pos, labels) && Compressed(b2, octets + Span(pos, e), pos, labels)
    ensures End(b2, pos, labels) == End(b2, pos + 1 + |labels[0]|, labels[1..])
  {
    var p2 := pos + 1 + |labels[0]|;
    var large := octets + Span(pos, e);
    CompressedFrame(b2, octets + Span(p2, e), p2, labels[1..], b2, large);
    assert b2[pos] == b2[..p2][pos] == b[pos];
    assert b2[pos + 1..p2] == b2[..p2][pos + 1..] == b[..p2][pos + 1..] == labels[0];
    assert Literal(b2, large, pos, labels[0]);
    LabelsAreCompressed(b2, large, pos, labels);
  }

  /** One turn of the writing loop, for a table that is there. */
  lemma LabelStep(b: bytes, pos: nat, labels: Name, t: Table, start: nat)
    requires t.Valid() && pos <= |b| && labels != [] && TextName(labels) && FindRef(t, b, labels, 0).None?
    requires MakeName(b, pos, labels, Some(t)).end.Some?
    ensures TextLabel(labels[0]) && TextName(labels[1..]) && pos + |labels[0]| + 1 < |b| && t.Add(pos).Valid()
    ensures var b2 := Splice(b, pos, [|labels[0]| % 256] + labels[0]);
      && MakeName(b, pos, labels, Some(t)) == MakeName(b2, pos + 1 + |labels[0]|, labels[1..], Some(t.Add(pos)))
      && SoundRefs(b, pos, labels, t, start) == SoundRefs(b2, pos + 1 + |labels[0]|, labels[1..], t.Add(pos), start)
  {
    hide FindRef, Splice;
  }

  /** With sound references the whole name is there, and every label of it is remembered as what it begins. */
  lemma {:induction false} MakeSound(b: bytes, octets: set<nat>, start: nat, pos: nat, t: Table,
                                     stored: map<nat, Name>, own: map<nat, nat>, labels: Name)
    returns (stored2: map<nat, Name>)
    requires Ready(b, octets, start, pos, t, stored, own) && t.Valid() && pos <= |b| && pos !in stored
    requires TextName(labels) && SoundRefs(b, pos, labels, t, start)
    requires MakeName(b, pos, labels, Some(t)).end.Some?
    ensures NameWritten(MakeName(b, pos, labels, Some(t)), octets, pos, labels, stored2, own.Keys)
    ensures Extends(stored, stored2, labels)
    decreases labels
  {
    hide *;
    if labels == [] {
      stored2 := stored;
      TerminatorWritten(b, octets, start, pos, t, stored, own);
    } else if FindRef(t, b, labels, 0).Some? {
      stored2 := stored;
      RefWritten(b, octets, start, pos, t, stored, own, labels);
    } else {
      var x := labels[0];
      LabelStep(b, pos, labels, t, start);
      ReadyStep(b, octets, start, pos, t, stored, own, x);
      var own2 := (map o | o in own :: own[o] + 1)[pos := 1];
      var b2 := Splice(b, pos, [|x| % 256] + x);
      assert own2.Keys == own.Keys + {pos};
      var rest := MakeSound(b2, octets, start, pos + 1 + |x|, t.Add(pos), stored, own2, labels[1..]);
      var m := MakeName(b2, pos + 1 + |x|, labels[1..], Some(t.Add(pos)));
      MakeNameFrame(b2, pos + 1 + |x|, labels[1..], Some(t.Add(pos)));
      LabelWritten(b2, octets, pos, labels, m, stored, rest, own.Keys);
      stored2 := rest[pos := labels];
    }
  }
}
