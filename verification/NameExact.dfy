/** Writing a name and reading it back agree exactly when the reference the search picks is sound. */
module NameExact {
  import opened Bytes
  import opened NameWalk
  import opened NameMake
  import opened NameTrip

  /** Whatever is read from a packet is a name of text labels within the budget. */
  lemma {:induction false} DecodedText(b: bytes, o: nat, budget: nat)
    requires Decode(b, o, budget).Some?
    ensures TextName(Decode(b, o, budget).value.labels) && |Decode(b, o, budget).value.labels| <= budget
    decreases budget
  {
    hide NextSubstring;
    var s := NextSubstring(b, o);
    if s.length > 0 {
      DecodedText(b, s.offset + s.length, budget - 1);
    }
  }

  /** A walk along a chain of literal labels reaches its end with the budget left. */
  lemma {:induction false} ChainDecode(b: bytes, o: nat, pos: nat, count: nat, budget: nat)
    requires Chain(b, o, pos, count) && Decode(b, o, budget).Some?
    ensures count <= budget && Decode(b, pos, budget - count).Some?
    decreases count
  {
    hide NextSubstring;
    if count > 0 {
      LiteralSubstring(b, o);
      ChainDecode(b, o + 1 + b[o], pos, count - 1, budget - 1);
    }
  }

  lemma LiteralSubstring(b: bytes, o: nat)
    requires o < |b| && 1 <= b[o] < 0xC0 && o + 1 + b[o] <= |b|
    ensures NextSubstring(b, o) == Sub(o + 1, b[o], false)
  {}

  lemma RefSubstring(b: bytes, pos: nat, r: nat)
    requires pos + 1 < |b| && IsStringRef(b[pos]) && RefTarget(b, pos) == r < |b|
    requires 1 <= b[r] < 0xC0 && r + 1 + b[r] <= |b|
    ensures NextSubstring(b, pos) == Sub(r + 1, b[r], true)
  {
    assert Follow(b, r, 1) == Some(r);
    assert Follow(b, pos, 0) == Some(r);
  }

  /** A name that ends in a reference to one of its own labels has no end. */
  lemma {:induction false} CycleNeverEnds(b: bytes, pos: nat, r: nat, count: nat, budget: nat)
    requires pos + 1 < |b| && IsStringRef(b[pos]) && RefTarget(b, pos) == r
    requires count > 0 && Chain(b, r, pos, count)
    ensures Decode(b, pos, budget).None?
    decreases budget
  {
    hide NextSubstring;
    LiteralSubstring(b, r);
    RefSubstring(b, pos, r);
    if Decode(b, pos, budget).Some? {
      assert Decode(b, r, budget).Some?;
      ChainDecode(b, r, pos, count, budget);
      CycleNeverEnds(b, pos, r, count, budget - count);
      assert false;
    }
  }

  lemma {:induction false} NothingSound(b: bytes, pos: nat, t: Table, start: nat)
    requires t.Valid()
    ensures SoundRefs(b, pos, [], t, start)
  {}

  lemma {:induction false} LookupSome(t: Table, b: bytes, labels: Name)
    requires t.Valid()
    ensures Lookup(Some(t), b, labels) == FindRef(t, b, labels, 0)
  {}

  /**
   The names in a message, soundly written or not: a walk that comes to o, before pos, finds a
   terminator, a known offset, or a reference to one.
   */
  predicate Leads(b: bytes, known: set<nat>, o: nat, pos: nat)
    requires pos <= |b|
  {
    o < pos && (b[o] == 0 || o in known || (o + 1 < pos && IsStringRef(b[o]) && RefTarget(b, o) in known))
  }

  /** At each known offset there is a terminator, or a literal label that leads on before pos. */
  ghost predicate Closed(b: bytes, known: set<nat>, pos: nat) {
    pos <= |b| && forall o :: o in known ==>
      o < pos && (b[o] == 0 || (b[o] < 0xC0 && Leads(b, known, o + 1 + b[o], pos)))
  }

  /** The same for a name that is not finished: its last label leads to pos. */
  ghost predicate Unfinished(b: bytes, known: set<nat>, pos: nat) {
    pos <= |b| && forall o :: o in known ==>
      o < pos && (b[o] == 0 || (b[o] < 0xC0 && (o + 1 + b[o] == pos || Leads(b, known, o + 1 + b[o], pos))))
  }

  /** The next substring of a walk lies before pos, and so does what follows it. */
  lemma LeadsOn(b: bytes, known: set<nat>, o: nat, pos: nat)
    requires Closed(b, known, pos) && Leads(b, known, o, pos)
    ensures var s := NextSubstring(b, o);
      && s.Sub? && s.offset + s.length <= pos
      && (s.length > 0 ==> Leads(b, known, s.offset + s.length, pos))
  {
    if IsStringRef(b[o]) {
      var r := RefTarget(b, o);
      assert Follow(b, r, 1) == Some(r);
      assert Follow(b, o, 0) == Some(r);
    }
  }

  lemma SameSubstring(b: bytes, known: set<nat>, o: nat, pos: nat, b2: bytes)
    requires Closed(b, known, pos) && Leads(b, known, o, pos) && SameBefore(b, b2, pos)
    ensures NextSubstring(b2, o) == NextSubstring(b, o)
  {
    if IsStringRef(b[o]) {
      var r := RefTarget(b, o);
      assert Follow(b, r, 1) == Some(r) && Follow(b2, r, 1) == Some(r);
      assert Follow(b, o, 0) == Some(r) && Follow(b2, o, 0) == Some(r);
    }
  }

  /** What is written at or behind pos changes no name before it. */
  lemma {:induction false} DecodeFrame(b: bytes, known: set<nat>, o: nat, pos: nat, b2: bytes, budget: nat)
    requires Closed(b, known, pos) && Leads(b, known, o, pos) && SameBefore(b, b2, pos)
    ensures Decode(b2, o, budget) == Decode(b, o, budget)
    decreases budget
  {
    hide NextSubstring, Leads, Closed;
    LeadsOn(b, known, o, pos);
    SameSubstring(b, known, o, pos, b2);
    var s := NextSubstring(b, o);
    if s.length > 0 && budget > 0 {
      assert b2[s.offset..s.offset + s.length] == b[s.offset..s.offset + s.length];
      DecodeFrame(b, known, s.offset + s.length, pos, b2, budget - 1);
    }
  }

  /** What the search compares, and the check it leaves out, together say what is read. */
  lemma {:induction false} DecodesTo(b: bytes, o: nat, labels: Name, budget: nat)
    requires |labels| <= budget
    ensures (Decode(b, o, budget).Some? && Decode(b, o, budget).value.labels == labels)
       <==> Matches(b, o, labels) && EndsAfter(b, o, |labels|)
    decreases budget
  {
    hide NextSubstring;
    var s := NextSubstring(b, o);
    if labels != [] && s.Sub? && s.length > 0 {
      var text, rest := b[s.offset..s.offset + s.length], Decode(b, s.offset + s.length, budget - 1);
      DecodesTo(b, s.offset + s.length, labels[1..], budget - 1);
      if rest.Some? {
        FirstAndRest(text, rest.value.labels, labels);
      }
    }
  }

  lemma FirstAndRest(x: Label, rest: Name, labels: Name)
    requires labels != []
    ensures [x] + rest == labels <==> x == labels[0] && rest == labels[1..]
  {
    assert ([x] + rest)[1..] == rest;
    assert labels == [labels[0]] + labels[1..];
  }

  /** A reference to a literal label is read as what begins there. */
  lemma {:induction false} RefDecode(b: bytes, pos: nat, r: nat, budget: nat)
    requires pos + 1 < |b| && IsStringRef(b[pos]) && RefTarget(b, pos) == r < |b|
    requires 1 <= b[r] < 0xC0 && r + 1 + b[r] <= |b|
    ensures Decode(b, pos, budget) ==
      match Decode(b, r, budget) case None => None case Some(d) => Some(d.(end := pos + 2))
  {
    hide NextSubstring;
    LiteralSubstring(b, r);
    RefSubstring(b, pos, r);
  }

  lemma LiteralDecode(b: bytes, pos: nat, x: Label, budget: nat)
    requires TextLabel(x) && pos + 1 + |x| <= |b| && b[pos] == |x| && b[pos + 1..pos + 1 + |x|] == x && budget > 0
    ensures Decode(b, pos, budget) == Resume([x], None, Decode(b, pos + 1 + |x|, budget - 1))
  {
    hide NextSubstring;
    LiteralSubstring(b, pos);
  }

  lemma {:induction false} MatchedLiteral(b: bytes, o: nat, labels: Name)
    requires o < |b| && labels != [] && Matches(b, o, labels) && b[o] < 0xC0
    ensures 1 <= b[o] && o + 1 + b[o] <= |b|
  {}

  lemma {:induction false} ChainLiteral(b: bytes, o: nat, pos: nat, count: nat)
    requires Chain(b, o, pos, count) && count > 0
    ensures o < |b| && 1 <= b[o] < 0xC0 && o + 1 + b[o] <= |b|
  {}

  lemma {:induction false} SoundAt(b: bytes, pos: nat, labels: Name, t: Table, start: nat)
    requires t.Valid() && labels != [] && FindRef(t, b, labels, 0).Some?
    ensures var r := FindRef(t, b, labels, 0).value;
            SoundRefs(b, pos, labels, t, start) <==> r < start && EndsAfter(b, r, |labels|)
  {}

  /** The reference picked reads back as the labels sought exactly when it is sound. */
  lemma {:induction false} RefReads(b: bytes, known: set<nat>, own: map<nat, nat>, start: nat, pos: nat, t: Table, labels: Name,
                 budget: nat)
    requires Closed(b, known, start) && Own(b, own, start, pos) && start <= pos && pos + 2 <= |b| <= 0x4000
    requires t.Valid() && Remembers(t, known + own.Keys) && labels != [] && |labels| <= budget
    requires FindRef(t, b, labels, 0).Some?
    ensures var d := Decode(Splice(b, pos, RefBytes(FindRef(t, b, labels, 0).value)), pos, budget);
      && (d.Some? && d.value.labels == labels <==> SoundRefs(b, pos, labels, t, start))
      && (d.Some? ==> d.value.end == pos + 2)
  {
    hide FindRef, EndsAfter, Splice, RefBytes, Decode, Chain, Matches, SoundRefs;
    FoundRef(t, b, labels, 0);
    var r := FindRef(t, b, labels, 0).value;
    assert r in known + own.Keys;
    SoundAt(b, pos, labels, t, start);
    var b2 := Splice(b, pos, RefBytes(r));
    RefReadsBack(b, pos, r);
    if r in own {
      ChainFrame(b, r, pos, own[r], b2);
      ChainLiteral(b2, r, pos, own[r]);
      CycleNeverEnds(b2, pos, r, own[r], budget);
    } else {
      MatchedLiteral(b, r, labels);
      DecodeFrame(b, known, r, start, b2, budget);
      RefDecode(b2, pos, r, budget);
      DecodesTo(b, r, labels, budget);
    }
  }

  lemma TerminatorReads(b: bytes, pos: nat, budget: nat)
    requires pos < |b|
    ensures Decode(b[pos := 0], pos, budget) == Some(Decoded([], pos + 1))
  {}

  lemma SameLabel(b: bytes, b2: bytes, pos: nat, x: Label)
    requires pos + 1 + |x| <= |b| == |b2| && b2[..pos + 1 + |x|] == b[..pos + 1 + |x|]
    requires b[pos] == |x| && b[pos + 1..pos + 1 + |x|] == x
    ensures b2[pos] == |x| && b2[pos + 1..pos + 1 + |x|] == x
  {
    assert b2[pos] == b2[..pos + 1 + |x|][pos] == b[pos];
    assert b2[pos + 1..pos + 1 + |x|] == b2[..pos + 1 + |x|][pos + 1..] == b[..pos + 1 + |x|][pos + 1..] == x;
  }

  lemma ResumeLabel(x: Label, rest: Option<Decoded>, labels: Name)
    requires labels != [] && labels[0] == x
    ensures var d := Resume([x], None, rest);
      && (d.Some? && d.value.labels == labels <==> rest.Some? && rest.value.labels == labels[1..])
      && d.Some? == rest.Some? && (d.Some? ==> d.value.end == rest.value.end)
  {
    if rest.Some? { FirstAndRest(x, rest.value.labels, labels); }
  }

  lemma LabelCounts(own: map<nat, nat>, pos: nat, known: set<nat>, t: Table)
    requires t.Valid() && Remembers(t, known + own.Keys)
    ensures t.Add(pos).Valid() && Remembers(t.Add(pos), known + (map o | o in own :: own[o] + 1)[pos := 1].Keys)
  {
    RemembersMore(t, known + own.Keys, pos);
    assert known + (map o | o in own :: own[o] + 1)[pos := 1].Keys == known + own.Keys + {pos};
  }

  /** What is read where labels were written, after any names at all. */
  lemma {:induction false} MakeReads(b: bytes, known: set<nat>, own: map<nat, nat>, start: nat, pos: nat, t: Table,
                                     labels: Name, budget: nat)
    requires Closed(b, known, start) && Own(b, own, start, pos) && start <= pos <= |b| <= 0x4000
    requires t.Valid() && Remembers(t, known + own.Keys) && TextName(labels) && |labels| <= budget
    requires MakeName(b, pos, labels, Some(t)).end.Some?
    ensures
      var m := MakeName(b, pos, labels, Some(t));
      var d := Decode(m.buf, pos, budget);
      && (d.Some? && d.value.labels == labels <==> SoundRefs(b, pos, labels, t, start))
      && (d.Some? ==> d.value.end == m.end.value)
    decreases labels
  {
    hide *;
    if labels == [] {
      NothingSound(b, pos, t, start);
      MakeNameEnd(b, pos, Some(t));
      TerminatorReads(b, pos, budget);
    } else {
      MakeNameStep(b, pos, labels, Some(t));
      LookupSome(t, b, labels);
      if FindRef(t, b, labels, 0).Some? {
        RefReads(b, known, own, start, pos, t, labels, budget);
      } else {
        var x := labels[0];
        LabelStep(b, pos, labels, t, start);
        TextIsShort(x);
        LabelThere(b, pos, x);
        OwnStep(b, own, start, pos, x);
        LabelCounts(own, pos, known, t);
        var own2 := (map o | o in own :: own[o] + 1)[pos := 1];
        var b2, p2 := Splice(b, pos, [|x| % 256] + x), pos + 1 + |x|;
        ClosedBefore(b, known, start, pos, b2);
        MakeReads(b2, known, own2, start, p2, t.Add(pos), labels[1..], budget - 1);
        MakeNameFrame(b2, p2, labels[1..], Some(t.Add(pos)));
        var m := MakeName(b2, p2, labels[1..], Some(t.Add(pos)));
        SameLabel(b2, m.buf, pos, x);
        LiteralDecode(m.buf, pos, x, budget);
        ResumeLabel(x, Decode(m.buf, p2, budget - 1), labels);
      }
    }
  }

  lemma TextIsShort(x: Label)
    requires TextLabel(x)
    ensures 0 < |x| < 0xC0
  {}

  lemma ClosedBefore(b: bytes, known: set<nat>, start: nat, pos: nat, b2: bytes)
    requires Closed(b, known, start) && start <= pos && SameBefore(b, b2, pos)
    ensures Closed(b2, known, start)
  {}

  /** No label is taken for a reference; empty ones may occur. */
  predicate Short(labels: Name) {
    forall i :: 0 <= i < |labels| ==> |labels[i]| < 0xC0
  }

  lemma UnfinishedStep(b: bytes, known: set<nat>, pos: nat, x: Label)
    requires Unfinished(b, known, pos) && |x| < 0xC0 && pos + |x| + 1 < |b|
    ensures Unfinished(Splice(b, pos, [|x| % 256] + x), known + {pos}, pos + 1 + |x|)
  {
    hide Splice;
    LabelThere(b, pos, x);
  }

  lemma Finished(b: bytes, known: set<nat>, pos: nat, b2: bytes, end: nat)
    requires Unfinished(b, known, pos) && SameBefore(b, b2, pos) && pos < end <= |b2| && Leads(b2, known, pos, end)
    ensures Closed(b2, known, end)
  {}

  lemma {:induction false} RefLeads(b: bytes, known: set<nat>, pos: nat, t: Table, labels: Name)
    requires Unfinished(b, known, pos) && t.Valid() && Remembers(t, known) && FindRef(t, b, labels, 0).Some?
    requires pos + 2 <= |b| <= 0x4000
    ensures var b2 := Splice(b, pos, RefBytes(FindRef(t, b, labels, 0).value));
      Closed(b2, known, pos + 2) && Leads(b2, known, pos, pos + 2)
  {
    hide FindRef, Splice, RefBytes, Matches;
    FoundRef(t, b, labels, 0);
    var r := FindRef(t, b, labels, 0).value;
    RefReadsBack(b, pos, r);
    Finished(b, known, pos, Splice(b, pos, RefBytes(r)), pos + 2);
  }

  /** A name written soundly or not leaves a message in which walks from the ring stay before its end. */
  lemma {:induction false} MakeClosed(b: bytes, known: set<nat>, pos: nat, t: Table, labels: Name)
    returns (known2: set<nat>)
    requires Unfinished(b, known, pos) && |b| <= 0x4000 && t.Valid() && Remembers(t, known) && Short(labels)
    requires pos <= |b| && MakeName(b, pos, labels, Some(t)).end.Some?
    ensures
      var m := MakeName(b, pos, labels, Some(t));
      && m.table.Some? && known <= known2 && m.end.value <= |m.buf|
      && Closed(m.buf, known2, m.end.value) && Leads(m.buf, known2, pos, m.end.value) && Remembers(m.table.value, known2)
    decreases labels
  {
    hide *;
    known2 := known;
    if labels == [] {
      MakeNameEnd(b, pos, Some(t));
      TerminatorLeads(b, known, pos);
    } else {
      MakeNameStep(b, pos, labels, Some(t));
      LookupSome(t, b, labels);
      if FindRef(t, b, labels, 0).Some? {
        RefLeads(b, known, pos, t, labels);
      } else {
        var x := labels[0];
        ShortFirst(labels);
        UnfinishedStep(b, known, pos, x);
        RemembersMore(t, known, pos);
        RememberSome(t, pos);
        known2 := MakeClosed(Splice(b, pos, [|x| % 256] + x), known + {pos}, pos + 1 + |x|, t.Add(pos), labels[1..]);
        LeadsKnown(MakeName(b, pos, labels, Some(t)), known2, pos);
      }
    }
  }

  lemma TerminatorLeads(b: bytes, known: set<nat>, pos: nat)
    requires Unfinished(b, known, pos) && pos < |b|
    ensures Closed(b[pos := 0], known, pos + 1) && Leads(b[pos := 0], known, pos, pos + 1)
  {
    Finished(b, known, pos, b[pos := 0], pos + 1);
  }

  lemma ShortFirst(labels: Name)
    requires Short(labels) && labels != []
    ensures |labels[0]| < 0xC0 && Short(labels[1..])
  {}

  lemma RememberSome(t: Table, pos: nat)
    requires t.Valid()
    ensures Remember(Some(t), pos) == Some(t.Add(pos))
  {}

  lemma LeadsKnown(m: Made, known: set<nat>, pos: nat)
    requires m.end.Some? && m.end.value <= |m.buf| && pos < m.end.value && pos in known
    ensures Leads(m.buf, known, pos, m.end.value)
  {}

  /**
   The round trip of section 4.1.4 for one call of mdns_string_make, whatever was written before: the
   name read at pos is the one written, and ends where the writer stopped, exactly when its labels
   have lengths that fit a length octet, there are at most 64 of them, and the reference that ends the
   writing, if there is one, is sound.
   */
  lemma {:induction false} RoundTripExactly(b: bytes, known: set<nat>, pos: nat, t: Table, labels: Name)
    requires Closed(b, known, pos) && pos <= |b| <= 0x4000 && t.Valid() && Remembers(t, known)
    requires MakeName(b, pos, labels, Some(t)).end.Some?
    ensures
      var m := MakeName(b, pos, labels, Some(t));
      NameAt(m.buf, pos) == Some(Decoded(labels, m.end.value))
      <==>
      TextName(labels) && |labels| <= MAX_SUBSTRINGS && SoundRefs(b, pos, labels, t, pos)
  {
    hide SoundRefs, MakeName, Decode, TextName;
    var m := MakeName(b, pos, labels, Some(t));
    if NameAt(m.buf, pos).Some? { DecodedText(m.buf, pos, MAX_SUBSTRINGS); }
    if TextName(labels) && |labels| <= MAX_SUBSTRINGS {
      var own: map<nat, nat> := map[];
      assert known + own.Keys == known;
      MakeReads(b, known, own, pos, pos, t, labels, MAX_SUBSTRINGS);
    }
  }

  lemma NotStoredYet(b: bytes, octets: set<nat>, pos: nat, t: Table, stored: map<nat, Name>)
    requires Ready(b, octets, pos, pos, t, stored, map[])
    ensures pos !in stored
  {}
}
