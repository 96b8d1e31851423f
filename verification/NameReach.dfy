/** How far the readers of names go: how many references they follow, how many labels they pass. */
module NameReach {
  import opened Bytes
  import opened NameWalk
  import opened NameTrip

  /** The place a reference at o names: the low 14 bits of its two octets. */
  function Named(b: bytes, o: nat): nat
    requires o + 1 < |b|
  {
    var hi: int, lo: int := b[o], b[o + 1];
    (256 * hi + lo) % 0x4000
  }

  /** n references, one after the other, lead from o to `last`. */
  predicate HopsTo(b: bytes, o: nat, n: nat, last: nat)
    decreases n
  {
    if n == 0 then o == last
    else o + 1 < |b| && b[o] >= 0xC0 && HopsTo(b, Named(b, o), n - 1, last)
  }

  /** A label, or a terminator, lies at o in full. */
  predicate TextFits(b: bytes, o: nat) {
    o < |b| && b[o] < 0xC0 && o + 1 + b[o] <= |b|
  }

  lemma {:induction false} FollowExactly(b: bytes, o: nat, hops: nat, n: nat, last: nat)
    requires o < |b| && hops <= MAX_HOPS && HopsTo(b, o, n, last) && last < |b| && b[last] < 0xC0
    ensures Follow(b, o, hops) == if hops + n <= 16 then Some(last) else None
    decreases n
  {
    if n > 0 {
      HopsInside(b, Named(b, o), n - 1, last);
      if hops < 16 { FollowExactly(b, Named(b, o), hops + 1, n - 1, last); }
    }
  }

  lemma {:induction false} HopsInside(b: bytes, o: nat, n: nat, last: nat)
    requires HopsTo(b, o, n, last) && last < |b|
    ensures o < |b|
    decreases n
  {}

  lemma {:induction false} FollowedHops(b: bytes, o: nat, hops: nat) returns (n: nat)
    requires o < |b| && hops <= MAX_HOPS && Follow(b, o, hops).Some?
    ensures hops + n <= 16 && HopsTo(b, o, n, Follow(b, o, hops).value)
    decreases MAX_HOPS - hops
  {
    n := 0;
    if IsStringRef(b[o]) {
      n := FollowedHops(b, RefTarget(b, o), hops + 1);
      n := n + 1;
    }
  }

  /** At most 16 references lead from o to octets that lie in the packet in full. */
  predicate Reaches(b: bytes, o: nat, n: nat, last: nat) {
    n <= 16 && o < |b| && HopsTo(b, o, n, last) && TextFits(b, last)
  }

  lemma {:induction false} ReachedSubstring(b: bytes, o: nat, n: nat, last: nat)
    requires Reaches(b, o, n, last)
    ensures NextSubstring(b, o) == if n == 0 && b[o] == 0 then Sub(o, 0, false) else Sub(last + 1, b[last], n > 0)
  {
    HopsInside(b, o, n, last);
    FollowExactly(b, o, 0, n, last);
  }

  lemma {:induction false} SubstringReached(b: bytes, o: nat) returns (n: nat, last: nat)
    requires NextSubstring(b, o).Sub?
    ensures Reaches(b, o, n, last)
  {
    n, last := 0, o;
    if b[o] != 0 {
      n := FollowedHops(b, o, 0);
      last := Follow(b, o, 0).value;
    }
  }

  /** A substring is found exactly when it can be reached so, and where it is reached. */
  lemma {:induction false} SubstringExactly(b: bytes, o: nat)
    ensures NextSubstring(b, o).Sub? <==> exists n: nat, last: nat :: Reaches(b, o, n, last)
    ensures forall n: nat, last: nat :: Reaches(b, o, n, last) ==>
              NextSubstring(b, o) == if n == 0 && b[o] == 0 then Sub(o, 0, false) else Sub(last + 1, b[last], n > 0)
  {
    hide NextSubstring, HopsTo;
    forall n: nat, last: nat | Reaches(b, o, n, last)
      ensures NextSubstring(b, o) == if n == 0 && b[o] == 0 then Sub(o, 0, false) else Sub(last + 1, b[last], n > 0)
    {
      ReachedSubstring(b, o, n, last);
    }
    if NextSubstring(b, o).Sub? { var n, last := SubstringReached(b, o); }
  }

  /** Behind count labels that lie there from o on a name ends before e: with a terminator, or a reference to something. */
  predicate EndsBehind(b: bytes, o: nat, count: nat, p: nat, e: nat) {
    && Chain(b, o, p, count) && p < |b|
    && if b[p] >= 0xC0 then NextSubstring(b, p).Sub? && e == p + 2 else b[p] == 0 && e == p + 1
  }

  lemma {:induction false} SkipBehind(b: bytes, o: nat, count: nat, p: nat, e: nat, steps: nat)
    requires EndsBehind(b, o, count, p, e)
    ensures SkipFrom(b, o, steps) == if count < steps then Some(e) else None
    decreases count
  {
    if count > 0 {
      LiteralHere(b, o);
      if steps > 0 { SkipBehind(b, o + 1 + b[o], count - 1, p, e, steps - 1); }
    }
  }

  lemma LiteralHere(b: bytes, o: nat)
    requires o < |b| && 1 <= b[o] < 0xC0 && o + 1 + b[o] <= |b|
    ensures NextSubstring(b, o) == Sub(o + 1, b[o], false)
  {}

  lemma {:induction false} SkippedBehind(b: bytes, o: nat, steps: nat) returns (count: nat, p: nat)
    requires SkipFrom(b, o, steps).Some?
    ensures count < steps && EndsBehind(b, o, count, p, SkipFrom(b, o, steps).value)
    decreases steps
  {
    count, p := 0, o;
    var s := NextSubstring(b, o);
    if !s.ref && s.length > 0 {
      count, p := SkippedBehind(b, s.offset + s.length, steps - 1);
      count := count + 1;
    }
  }

  /** A name is skipped exactly when at most 64 labels lie at it before its terminator or first reference. */
  lemma {:induction false} SkipExactly(b: bytes, o: nat, e: nat)
    ensures SkipFrom(b, o, MAX_SUBSTRINGS + 1) == Some(e) <==>
            exists count: nat, p: nat :: count <= 64 && EndsBehind(b, o, count, p, e)
  {
    hide SkipFrom, EndsBehind;
    if SkipFrom(b, o, MAX_SUBSTRINGS + 1) == Some(e) {
      var count, p := SkippedBehind(b, o, MAX_SUBSTRINGS + 1);
    }
    if count: nat, p: nat :| count <= 64 && EndsBehind(b, o, count, p, e) {
      SkipBehind(b, o, count, p, e, MAX_SUBSTRINGS + 1);
    }
  }
}
