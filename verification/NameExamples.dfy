/**
 Two names that mdns_string_make does not write faithfully. Both are ruled out by SoundRefs, the
 exact condition of NameExact.RoundTripExactly.
 */
module NameExamples {
  import opened Bytes
  import opened NameWalk
  import opened NameMake
  import opened NameTrip
  import opened NameExact

  const EMPTY: Table := EmptyTable()
  const A: Label := [97]
  const B: Label := [98]

  lemma NothingFound(b: bytes, labels: Name)
    ensures Lookup(Some(EMPTY), b, labels) == None
  {}

  /** A one-octet label in the first slot of the ring is found for itself. */
  lemma FirstFound(b: bytes, t: Table, x: Label)
    requires t.Valid() && t.count > 0 && t.offset[0] == 0 && |x| == 1 && |b| > 2 && b[0] == 1 && b[1] == x[0]
    ensures Lookup(Some(t), b, [x]) == Some(0)
  {
    hide NextSubstring, Matches;
    LiteralSubstring(b, 0);
    assert b[1..2] == x;
    assert [x][1..] == [];
    MatchesAll(b, 2);
    MatchesFirst(b, 0, [x]);
    assert FindRef(t, b, [x], 0) == Some(0);
  }

  /** "a.a": the second label finds the first, unfinished one, and the name runs in a circle. */
  lemma RepeatedLabelIsLost()
    ensures var m := MakeName([0, 0, 0, 0, 0], 0, [A, A], Some(EMPTY));
            m.end == Some(4) && NameAt(m.buf, 0) == None
  {
    hide MakeName, Decode;
    RepeatedLabelWritten();
    var b: bytes := [1, 97, 0xC0, 0, 0];
    assert Chain(b, 0, 2, 1);
    CycleNeverEnds(b, 2, 0, 1, MAX_SUBSTRINGS - 1);
    if NameAt(b, 0).Some? { ChainDecode(b, 0, 2, 1, MAX_SUBSTRINGS); }
  }

  lemma RepeatedLabelWritten()
    ensures MakeName([0, 0, 0, 0, 0], 0, [A, A], Some(EMPTY)) ==
            Made([1, 97, 0xC0, 0, 0], Some(EMPTY.Add(0)), Some(4))
  {
    hide MakeName, Lookup, Splice, RefBytes;
    var b0: bytes, b1: bytes := [0, 0, 0, 0, 0], [1, 97, 0, 0, 0];
    NothingFound(b0, [A, A]);
    MakeNameStep(b0, 0, [A, A], Some(EMPTY));
    FirstWrite();
    assert [A, A][1..] == [A];
    FirstFound(b1, EMPTY.Add(0), A);
    MakeNameStep(b1, 2, [A], Some(EMPTY.Add(0)));
    SecondWrite();
  }

  lemma FirstWrite()
    ensures Splice([0, 0, 0, 0, 0], 0, [|A| % 256] + A) == [1, 97, 0, 0, 0]
  {}

  lemma SecondWrite()
    ensures Splice([1, 97, 0, 0, 0], 2, RefBytes(0)) == [1, 97, 0xC0, 0, 0]
  {}

  /** "b.a" and then "b": the search takes the longer name for the shorter one. */
  lemma PrefixIsTaken()
    ensures var m1 := MakeName([0, 0, 0, 0, 0, 0, 0], 0, [B, A], Some(EMPTY));
      && m1.end == Some(5) && m1.table.Some?
      && var m2 := MakeName(m1.buf, 5, [B], m1.table);
         m2.end == Some(7) && NameAt(m2.buf, 5) == Some(Decoded([B, A], 7))
  {
    hide MakeName, Lookup, NextSubstring, Decode, Compressed;
    LongerNameFirst();
    var t := EMPTY.Add(0).Add(2);
    var b: bytes, b2: bytes := [1, 98, 1, 97, 0, 0, 0], [1, 98, 1, 97, 0, 0xC0, 0];
    FirstFound(b, t, B);
    MakeNameStep(b, 5, [B], Some(t));
    assert Splice(b, 5, RefBytes(0)) == b2;
    LongerNameThere(b2);
    DecodeCompressed(b2, Span(0, 7), 5, [B, A], MAX_SUBSTRINGS);
  }

  lemma {:induction false} LongerNameThere(b: bytes)
    requires b == [1, 98, 1, 97, 0, 0xC0, 0]
    ensures Compressed(b, Span(0, 7), 5, [B, A]) && End(b, 5, [B, A]) == 7
  {
    assert Literal(b, Span(0, 7), 2, A) by { assert b[3..4] == A; }
    assert Literal(b, Span(0, 7), 0, B) by { assert b[1..2] == B; }
    assert Compressed(b, Span(0, 7), 4, []);
    assert [A][1..] == [] && [B, A][1..] == [A];
    assert Labels(b, Span(0, 7), 2, [A]);
    assert Compressed(b, Span(0, 7), 2, [A]);
    assert Labels(b, Span(0, 7), 0, [B, A]);
  }

  lemma LongerNameFirst()
    ensures MakeName([0, 0, 0, 0, 0, 0, 0], 0, [B, A], Some(EMPTY)) ==
            Made([1, 98, 1, 97, 0, 0, 0], Some(EMPTY.Add(0).Add(2)), Some(5))
  {
    hide MakeName, Lookup, FindRef;
    var b0: bytes, b1: bytes, b2: bytes := [0, 0, 0, 0, 0, 0, 0], [1, 98, 0, 0, 0, 0, 0], [1, 98, 1, 97, 0, 0, 0];
    NothingFound(b0, [B, A]);
    MakeNameStep(b0, 0, [B, A], Some(EMPTY));
    assert Splice(b0, 0, [1] + B) == b1 && [B, A][1..] == [A];
    OtherNotFound(b1);
    MakeNameStep(b1, 2, [A], Some(EMPTY.Add(0)));
    assert Splice(b1, 2, [1] + A) == b2 && [A][1..] == [];
    MakeNameEnd(b2, 4, Some(EMPTY.Add(0).Add(2)));
    assert b2[4 := 0] == b2;
  }

  lemma OtherNotFound(b: bytes)
    requires b == [1, 98, 0, 0, 0, 0, 0]
    ensures Lookup(Some(EMPTY.Add(0)), b, [A]) == None
  {
    hide NextSubstring, Matches;
    var t := EMPTY.Add(0);
    LiteralSubstring(b, 0);
    assert b[1..2] == B && B[0] != A[0];
    MatchesFirst(b, 0, [A]);
    assert t.count == 1 && t.offset[0] == 0;
    assert FindRef(t, b, [A], 1) == None;
    assert FindRef(t, b, [A], 0) == None;
  }
}
