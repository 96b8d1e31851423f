/**
 Reading compressed domain names (section 4.1.4 of RFC 1035) from arbitrary bytes, after
 lib/dnssd/mdns.h. The functions say what a name in a packet denotes; the methods are the
 loops that walk it.
 */
module NameWalk {
  import opened Bytes

  const MAX_SUBSTRINGS: nat := 64
  const MAX_HOPS: nat := 16
  const DOT: byte := 0x2E

  type Label = bytes
  type Name = seq<Label>

  /** One step of a walk: where the text of a label lies, and whether a reference led there. */
  datatype Substring = Invalid | Sub(offset: nat, length: nat, ref: bool)

  /** A complete name: its labels and the position just behind its encoding. */
  datatype Decoded = Decoded(labels: Name, end: nat)

  /** The two top bits of the octet are set. */
  predicate IsStringRef(v: byte) {
    0xC0 <= v
  }

  function RefTarget(b: bytes, offset: nat): nat
    requires offset + 1 < |b|
  {
    U16(b[offset], b[offset + 1]) % 0x4000
  }

  /** The octet reached from offset after following at most MAX_HOPS references. */
  function Follow(b: bytes, offset: nat, hops: nat): (r: Option<nat>)
    requires offset < |b| && hops <= MAX_HOPS
    ensures r.Some? ==> r.value < |b| && !IsStringRef(b[r.value])
    decreases MAX_HOPS - hops
  {
    if !IsStringRef(b[offset]) then Some(offset)
    else if |b| < offset + 2 then None
    else if RefTarget(b, offset) >= |b| || hops + 1 > MAX_HOPS then None
    else Follow(b, RefTarget(b, offset), hops + 1)
  }

  function NextSubstring(b: bytes, offset: nat): (r: Substring)
    ensures r.Sub? ==> r.offset + r.length <= |b| && r.length < 0xC0
    ensures r.Sub? ==> offset < |b| && r.ref == IsStringRef(b[offset])
  {
    if offset >= |b| then Invalid
    else if b[offset] == 0 then Sub(offset, 0, false)
    else match Follow(b, offset, 0)
      case None => Invalid
      case Some(o) =>
        if |b| < o + 1 + b[o] then Invalid else Sub(o + 1, b[o], IsStringRef(b[offset]))
  }

  method GetNextSubstring(buffer: array<byte>, size: nat, start: nat) returns (pair: Substring)
    requires size <= buffer.Length
    ensures pair == NextSubstring(buffer[..size], start)
  {
    var offset: nat := start;
    if offset >= size { return Invalid; }
    if buffer[offset] == 0 { return Sub(offset, 0, false); }
    var ref, recursion := false, 0;
    while IsStringRef(buffer[offset])
      invariant 0 <= offset < size && recursion <= MAX_HOPS
      invariant ref ==> IsStringRef(buffer[start])
      invariant !ref ==> offset == start
      invariant Follow(buffer[..size], start, 0) == Follow(buffer[..size], offset, recursion)
      decreases MAX_HOPS - recursion
    {
      if size < offset + 2 { return Invalid; }
      offset := U16(buffer[offset], buffer[offset + 1]) % 0x4000;
      if offset >= size { return Invalid; }
      ref := true;
      recursion := recursion + 1;
      if recursion > MAX_HOPS { return Invalid; }
    }
    var length := buffer[offset];
    offset := offset + 1;
    if size < offset + length { return Invalid; }
    return Sub(offset, length, ref);
  }

  /**
   The name at cur, when at most budget labels precede its terminator. A name ends behind its
   first reference, or behind its terminator when it has none.
   */
  function Decode(b: bytes, cur: nat, budget: nat): Option<Decoded>
    decreases budget
  {
    match NextSubstring(b, cur)
    case Invalid => None
    case Sub(offset, length, ref) =>
      if length == 0 then Some(Decoded([], if ref then cur + 2 else offset + 1))
      else if budget == 0 then None
      else Resume([b[offset..offset + length]], if ref then Some(cur + 2) else None,
                  Decode(b, offset + length, budget - 1))
  }

  /** The name a walk has found that passed the labels done, noted the end at its first reference,
      and has the rest before it. */
  function Resume(done: Name, noted: Option<nat>, rest: Option<Decoded>): Option<Decoded> {
    match rest
    case None => None
    case Some(d) => Some(Decoded(done + d.labels, if noted.Some? then noted.value else d.end))
  }

  /** The name at offset as every walker sees it. */
  function NameAt(b: bytes, offset: nat): Option<Decoded> {
    Decode(b, offset, MAX_SUBSTRINGS)
  }

  /** The labels of a name, each followed by a dot. */
  function Dotted(labels: Name): bytes {
    if labels == [] then [] else labels[0] + [DOT] + Dotted(labels[1..])
  }

  lemma ResumeTwice(done: Name, noted: Option<nat>, more: Name, noted2: Option<nat>, rest: Option<Decoded>)
    ensures Resume(done, noted, Resume(more, noted2, rest)) ==
            Resume(done + more, if noted.Some? then noted else noted2, rest)
  {
    match rest
    case None =>
    case Some(d) => assert done + (more + d.labels) == done + more + d.labels;
  }

  /** A walk from start that has read counter labels stands at cur. */
  ghost predicate Reached(b: bytes, start: nat, done: Name, noted: Option<nat>, cur: nat, counter: nat) {
    && counter <= MAX_SUBSTRINGS + 1
    && NameAt(b, start) == if counter > MAX_SUBSTRINGS then None
                           else Resume(done, noted, Decode(b, cur, MAX_SUBSTRINGS - counter))
  }

  ghost function NoteEnd(noted: Option<nat>, s: Substring, cur: nat): Option<nat>
    requires s.Sub?
  {
    if noted.None? && s.ref then Some(cur + 2) else noted
  }

  lemma ReachedStart(b: bytes, start: nat)
    ensures Reached(b, start, [], None, start, 0)
  {
    match NameAt(b, start)
    case None =>
    case Some(d) => assert [] + d.labels == d.labels;
  }

  lemma ReachedStep(b: bytes, start: nat, done: Name, noted: Option<nat>, cur: nat, counter: nat)
    requires Reached(b, start, done, noted, cur, counter) && counter <= MAX_SUBSTRINGS
    requires var s := NextSubstring(b, cur); s.Sub? && s.length > 0
    ensures
      var s := NextSubstring(b, cur);
      Reached(b, start, done + [b[s.offset..s.offset + s.length]], NoteEnd(noted, s, cur),
              s.offset + s.length, counter + 1)
  {
    hide NextSubstring, Resume;
    var s := NextSubstring(b, cur);
    if counter < MAX_SUBSTRINGS {
      var rest := Decode(b, s.offset + s.length, MAX_SUBSTRINGS - counter - 1);
      ResumeTwice(done, noted, [b[s.offset..s.offset + s.length]], if s.ref then Some(cur + 2) else None, rest);
    } else {
      ResumeNone(done, noted);
    }
  }

  lemma ResumeNone(done: Name, noted: Option<nat>)
    ensures Resume(done, noted, None) == None
  {}

  lemma ReachedFailure(b: bytes, start: nat, done: Name, noted: Option<nat>, cur: nat, counter: nat)
    requires Reached(b, start, done, noted, cur, counter)
    requires NextSubstring(b, cur).Invalid? || counter > MAX_SUBSTRINGS
    ensures NameAt(b, start).None?
  {}

  lemma ReachedEnd(b: bytes, start: nat, done: Name, noted: Option<nat>, cur: nat, counter: nat)
    requires Reached(b, start, done, noted, cur, counter) && counter <= MAX_SUBSTRINGS
    requires var s := NextSubstring(b, cur); s.Sub? && s.length == 0
    ensures
      var s := NextSubstring(b, cur);
      var n := NoteEnd(noted, s, cur);
      NameAt(b, start) == Some(Decoded(done, if n.Some? then n.value else s.offset + 1))
  {
    hide NextSubstring, Dotted;
    assert done + [] == done;
  }

  lemma {:induction false} DottedAppend(labels: Name, last: Label)
    ensures Dotted(labels + [last]) == Dotted(labels) + last + [DOT]
  {
    if labels == [] {
      assert Dotted([last]) == last + [DOT] + Dotted([]);
    } else {
      assert (labels + [last])[1..] == labels[1..] + [last];
      DottedAppend(labels[1..], last);
    }
  }

  /** The position behind a name, found without leaving the bytes at cur: the first reference ends it. */
  function SkipFrom(b: bytes, cur: nat, steps: nat): Option<nat>
    decreases steps
  {
    match NextSubstring(b, cur)
    case Invalid => None
    case Sub(offset, length, ref) =>
      if steps == 0 then None
      else if ref then Some(cur + 2)
      else if length == 0 then Some(offset + 1)
      else SkipFrom(b, offset + length, steps - 1)
  }

  method Skip(buffer: array<byte>, size: nat, offset: nat) returns (ok: bool, end: nat)
    requires size <= buffer.Length
    ensures match SkipFrom(buffer[..size], offset, MAX_SUBSTRINGS + 1)
            case None => !ok && end == offset
            case Some(e) => ok && end == e
  {
    var cur: nat, counter: nat := offset, 0;
    while true
      invariant counter <= MAX_SUBSTRINGS + 1
      invariant SkipFrom(buffer[..size], offset, MAX_SUBSTRINGS + 1)
             == SkipFrom(buffer[..size], cur, MAX_SUBSTRINGS + 1 - counter)
      decreases MAX_SUBSTRINGS + 1 - counter
    {
      var substr := GetNextSubstring(buffer, size, cur);
      if substr.Invalid? || counter > MAX_SUBSTRINGS { return false, offset; }
      counter := counter + 1;
      if substr.ref { return true, cur + 2; }
      cur := substr.offset + substr.length;
      if substr.length == 0 { return true, cur + 1; }
    }
  }

  /** out holds as much of text as fits, and is unchanged behind it. */
  ghost predicate Written(out: bytes, before: bytes, used: nat, text: bytes) {
    && |out| == |before| && used == Min(|out|, |text|)
    && out[..used] == text[..used]
    && out[used..] == before[used..]
  }

  lemma WrittenIs(out: bytes, before: bytes, used: nat, text: bytes)
    requires Written(out, before, used, text)
    ensures |out| == |before| && used == if |text| < |out| then |text| else |out|
    ensures out[..used] == text[..used] && out[used..] == before[used..]
  {}

  lemma WrittenStart(out: bytes)
    ensures Written(out, out, 0, Dotted([]))
  {}

  /** Writes the dotted text of the name at offset to str, as much of it as fits. */
  method Extract(buffer: array<byte>, size: nat, offset: nat, str: array<byte>)
    returns (length: nat, end: nat)
    requires size <= buffer.Length && str != buffer
    modifies str
    ensures match NameAt(buffer[..size], offset)
            case None => length == 0 && end == offset
            case Some(d) => end == d.end && Written(str[..], old(str[..]), length, Dotted(d.labels))
    ensures NameAt(buffer[..size], offset).Some? ==>
      var text := Dotted(NameAt(buffer[..size], offset).value.labels);
      && length == (if |text| < str.Length then |text| else str.Length)
      && str[..length] == text[..length] && str[length..] == old(str[..])[length..]
  {
    hide Decode, Dotted, NextSubstring, Reached, Written;
    ghost var b, before := buffer[..size], str[..];
    ghost var done: Name := [];
    ReachedStart(b, offset);
    WrittenStart(before);
    var cur: nat, counter: nat, remain: nat := offset, 0, str.Length;
    var noted: Option<nat> := None;
    while true
      invariant buffer[..size] == b
      invariant Reached(b, offset, done, noted, cur, counter)
      invariant remain <= str.Length && Written(str[..], before, str.Length - remain, Dotted(done))
      decreases MAX_SUBSTRINGS + 1 - counter
    {
      var substr := GetNextSubstring(buffer, size, cur);
      if substr.Invalid? || counter > MAX_SUBSTRINGS {
        ReachedFailure(b, offset, done, noted, cur, counter);
        return 0, offset;
      }
      counter := counter + 1;
      ghost var from, wasNoted := cur, noted;
      if substr.ref && noted.None? { noted := Some(cur + 2); }
      cur := substr.offset + substr.length;
      if substr.length == 0 {
        ReachedEnd(b, offset, done, wasNoted, from, counter - 1);
        break;
      }
      ReachedStep(b, offset, done, wasNoted, from, counter - 1);
      ghost var text := b[substr.offset..substr.offset + substr.length];
      DottedAppend(done, text);
      remain := CopyLabel(buffer, size, substr.offset, substr.length, str, remain, Dotted(done), before);
      done := done + [text];
    }
    end := if noted.Some? then noted.value else cur + 1;
    length := str.Length - remain;
    WrittenIs(str[..], before, length, Dotted(done));
  }

  /** Appends a label and its dot to the text so far, cut off at the end of str. */
  method CopyLabel(buffer: array<byte>, size: nat, offset: nat, length: nat, str: array<byte>, remain: nat,
                   ghost text: bytes, ghost before: bytes) returns (left: nat)
    requires offset + length <= size <= buffer.Length && str != buffer
    requires remain <= str.Length && Written(str[..], before, str.Length - remain, text)
    modifies str
    ensures left <= str.Length
    ensures Written(str[..], before, str.Length - left, text + buffer[..size][offset..offset + length] + [DOT])
  {
    ghost var after := text + buffer[..size][offset..offset + length] + [DOT];
    var dst := str.Length - remain;
    var toCopy := if length < remain then length else remain;
    ghost var added := buffer[..size][offset..offset + length];
    assert forall k :: 0 <= k < length ==> added[k] == buffer[offset + k];
    for i := 0 to toCopy
      invariant forall k :: 0 <= k < length ==> added[k] == buffer[offset + k]
      invariant forall k :: 0 <= k < dst + i ==> str[k] == after[k]
      invariant forall k :: dst + i <= k < str.Length ==> str[k] == before[k]
    {
      str[dst + i] := buffer[offset + i];
    }
    left := remain - toCopy;
    if left > 0 {
      str[dst + toCopy] := DOT;
      left := left - 1;
    }
  }

  /**
   A name that can be extracted can be skipped, and both agree on where it ends: skipping stops at
   the first reference, extracting follows it.
   */
  lemma {:induction false} ExtractImpliesSkip(b: bytes, cur: nat, budget: nat)
    requires Decode(b, cur, budget).Some?
    ensures SkipFrom(b, cur, budget + 1) == Some(Decode(b, cur, budget).value.end)
    decreases budget
  {
    hide NextSubstring;
    var s := NextSubstring(b, cur);
    if s.length > 0 {
      ExtractImpliesSkip(b, s.offset + s.length, budget - 1);
    }
  }

  function Lower(c: byte): byte {
    if 0x41 <= c <= 0x5A then c + 0x20 else c
  }

  /** strncasecmp over the length of x: a zero octet in both ends the comparison. */
  predicate CaseEqual(x: Label, y: Label)
    requires |x| == |y|
  {
    x == [] || (Lower(x[0]) == Lower(y[0]) && (x[0] == 0 || CaseEqual(x[1..], y[1..])))
  }

  method StrNCaseEqual(lhs: array<byte>, lsize: nat, i: nat, rhs: array<byte>, rsize: nat, j: nat, n: nat)
    returns (eq: bool)
    requires i + n <= lsize <= lhs.Length && j + n <= rsize <= rhs.Length
    ensures eq == CaseEqual(rhs[..rsize][j..j + n], lhs[..lsize][i..i + n])
  {
    ghost var r, l := rhs[..rsize], lhs[..lsize];
    var k := 0;
    while k < n
      invariant k <= n
      invariant CaseEqual(r[j..j + n], l[i..i + n]) == CaseEqual(r[j + k..j + n], l[i + k..i + n])
    {
      assert r[j + k..j + n][1..] == r[j + k + 1..j + n];
      assert l[i + k..i + n][1..] == l[i + k + 1..i + n];
      if Lower(rhs[j + k]) != Lower(lhs[i + k]) { return false; }
      if rhs[j + k] == 0 { return true; }
      k := k + 1;
    }
    return true;
  }

  predicate NamesMatch(lhs: Name, rhs: Name) {
    |lhs| == |rhs| && forall i :: 0 <= i < |lhs| ==> |lhs[i]| == |rhs[i]| && CaseEqual(rhs[i], lhs[i])
  }

  /** The two names at lofs and rofs are the same, label for label. */
  predicate SameNames(l: bytes, lofs: nat, r: bytes, rofs: nat) {
    && NameAt(l, lofs).Some? && NameAt(r, rofs).Some?
    && NamesMatch(NameAt(l, lofs).value.labels, NameAt(r, rofs).value.labels)
  }

  lemma LabelsDiffer(l: bytes, lofs: nat, ldone: Name, r: bytes, rofs: nat, rdone: Name)
    requires |ldone| == |rdone| > 0
    requires NameAt(l, lofs).Some? ==> ldone <= NameAt(l, lofs).value.labels
    requires NameAt(r, rofs).Some? ==> rdone <= NameAt(r, rofs).value.labels
    requires |ldone[|ldone| - 1]| == |rdone[|rdone| - 1]| ==> !CaseEqual(rdone[|rdone| - 1], ldone[|ldone| - 1])
    ensures !SameNames(l, lofs, r, rofs)
  {}

  /** Equal when both walks succeed with matching labels; only then are the offsets moved. */
  method Equal(lhs: array<byte>, lsize: nat, lofs: nat, rhs: array<byte>, rsize: nat, rofs: nat)
    returns (eq: bool, lend: nat, rend: nat)
    requires lsize <= lhs.Length && rsize <= rhs.Length
    ensures eq == SameNames(lhs[..lsize], lofs, rhs[..rsize], rofs)
    ensures eq ==> lend == NameAt(lhs[..lsize], lofs).value.end && rend == NameAt(rhs[..rsize], rofs).value.end
    ensures !eq ==> lend == lofs && rend == rofs
  {
    hide Decode, NextSubstring, Reached, NameAt, CaseEqual;
    ghost var l, r := lhs[..lsize], rhs[..rsize];
    ghost var ldone: Name, rdone: Name := [], [];
    ReachedStart(l, lofs);
    ReachedStart(r, rofs);
    var lcur: nat, rcur: nat, counter: nat := lofs, rofs, 0;
    var lnoted: Option<nat>, rnoted: Option<nat> := None, None;
    while true
      invariant Reached(l, lofs, ldone, lnoted, lcur, counter)
      invariant Reached(r, rofs, rdone, rnoted, rcur, counter)
      invariant NamesMatch(ldone, rdone)
      decreases MAX_SUBSTRINGS + 1 - counter
    {
      var lsub := GetNextSubstring(lhs, lsize, lcur);
      var rsub := GetNextSubstring(rhs, rsize, rcur);
      if lsub.Invalid? || rsub.Invalid? || counter > MAX_SUBSTRINGS {
        if lsub.Invalid? || counter > MAX_SUBSTRINGS {
          ReachedFailure(l, lofs, ldone, lnoted, lcur, counter);
        } else {
          ReachedFailure(r, rofs, rdone, rnoted, rcur, counter);
        }
        return false, lofs, rofs;
      }
      ghost var ltext, rtext := l[lsub.offset..lsub.offset + lsub.length], r[rsub.offset..rsub.offset + rsub.length];
      ReachedBoth(l, lofs, ldone, lnoted, lcur, counter);
      ReachedBoth(r, rofs, rdone, rnoted, rcur, counter);
      counter := counter + 1;
      if lsub.length != rsub.length {
        if lsub.length > 0 && rsub.length > 0 {
          LabelsDiffer(l, lofs, ldone + [ltext], r, rofs, rdone + [rtext]);
        }
        return false, lofs, rofs;
      }
      var same := StrNCaseEqual(lhs, lsize, lsub.offset, rhs, rsize, rsub.offset, rsub.length);
      if !same {
        EmptyCaseEqual(rtext, ltext);
        LabelsDiffer(l, lofs, ldone + [ltext], r, rofs, rdone + [rtext]);
        return false, lofs, rofs;
      }
      if lsub.ref && lnoted.None? { lnoted := Some(lcur + 2); }
      if rsub.ref && rnoted.None? { rnoted := Some(rcur + 2); }
      lcur := lsub.offset + lsub.length;
      rcur := rsub.offset + rsub.length;
      if lsub.length == 0 { break; }
      ldone, rdone := ldone + [ltext], rdone + [rtext];
    }
    lend := if lnoted.Some? then lnoted.value else lcur + 1;
    rend := if rnoted.Some? then rnoted.value else rcur + 1;
    return true, lend, rend;
  }

  lemma {:induction false} EmptyCaseEqual(x: Label, y: Label)
    requires |x| == |y|
    ensures x == [] ==> CaseEqual(x, y)
  {}

  /** One more substring, whether it is a label or the terminator. */
  lemma ReachedBoth(b: bytes, start: nat, done: Name, noted: Option<nat>, cur: nat, counter: nat)
    requires Reached(b, start, done, noted, cur, counter) && counter <= MAX_SUBSTRINGS
    requires NextSubstring(b, cur).Sub?
    ensures
      var s := NextSubstring(b, cur);
      var n := NoteEnd(noted, s, cur);
      if s.length == 0 then
        NameAt(b, start) == Some(Decoded(done, if n.Some? then n.value else s.offset + 1))
      else
        var more := done + [b[s.offset..s.offset + s.length]];
        && Reached(b, start, more, n, s.offset + s.length, counter + 1)
        && (NameAt(b, start).Some? ==> more <= NameAt(b, start).value.labels)
  {
    hide Decode, NextSubstring;
    var s := NextSubstring(b, cur);
    if s.length == 0 {
      ReachedEnd(b, start, done, noted, cur, counter);
    } else {
      ReachedStep(b, start, done, noted, cur, counter);
    }
  }

  /** The same octet, or the two cases of one of the 26 letters. */
  predicate SameLetter(x: int, y: int) {
    x == y || (0x41 <= x <= 0x5A && y == x + 0x20) || (0x41 <= y <= 0x5A && x == y + 0x20)
  }

  lemma LowerSame(x: byte, y: byte)
    ensures Lower(x) == Lower(y) <==> SameLetter(x, y)
  {}

  /** The comparison looks at all octets up to the first zero. */
  lemma {:induction false} CaseEqualExactly(x: Label, y: Label)
    requires |x| == |y|
    ensures CaseEqual(x, y) <==>
            forall k :: 0 <= k < |x| && (forall j :: 0 <= j < k ==> x[j] != 0) ==> SameLetter(x[k], y[k])
  {
    hide SameLetter;
    if x != [] {
      LowerSame(x[0], y[0]);
      ZeroSame(y[0]);
      CaseEqualExactly(x[1..], y[1..]);
      if CaseEqual(x, y) {
        forall k | 0 <= k < |x| && (forall j :: 0 <= j < k ==> x[j] != 0) ensures SameLetter(x[k], y[k]) {
          if k > 0 {
            forall j | 0 <= j < k - 1 ensures x[1..][j] != 0 { assert x[1..][j] == x[j + 1]; }
            assert SameLetter(x[1..][k - 1], y[1..][k - 1]);
          }
        }
      } else if SameLetter(x[0], y[0]) && x[0] != 0 {
        var k :| 0 <= k < |x| - 1 && (forall j :: 0 <= j < k ==> x[1..][j] != 0) && !SameLetter(x[1..][k], y[1..][k]);
        forall j | 0 <= j < k + 1 ensures x[j] != 0 { if j > 0 { assert x[1..][j - 1] == x[j]; } }
        assert !SameLetter(x[k + 1], y[k + 1]);
      }
    }
  }

  lemma ZeroSame(y: byte)
    ensures Lower(0) == Lower(y) ==> y == 0
  {}

  /** The labels have the same lengths and octets, but for the case of letters. */
  predicate SameText(lhs: Name, rhs: Name) {
    |lhs| == |rhs| && forall i :: 0 <= i < |lhs| ==>
      |lhs[i]| == |rhs[i]| && forall k :: 0 <= k < |lhs[i]| ==> SameLetter(lhs[i][k], rhs[i][k])
  }

  lemma SameLetterBoth(x: int, y: int)
    ensures SameLetter(x, y) <==> SameLetter(y, x)
  {}

  /**
   Names without zero octets match exactly when they are equal up to ASCII case (section 16 of
   RFC 6762).
   */
  lemma {:induction false} NamesMatchIgnoresCase(lhs: Name, rhs: Name)
    requires forall i :: 0 <= i < |lhs| ==> 0 !in lhs[i]
    requires forall i :: 0 <= i < |rhs| ==> 0 !in rhs[i]
    ensures NamesMatch(lhs, rhs) <==> SameText(lhs, rhs)
  {
    hide SameLetter, CaseEqual;
    forall i | 0 <= i < |lhs| && |lhs| == |rhs| && |lhs[i]| == |rhs[i]|
      ensures CaseEqual(rhs[i], lhs[i]) <==> forall k :: 0 <= k < |lhs[i]| ==> SameLetter(lhs[i][k], rhs[i][k])
    {
      CaseEqualExactly(rhs[i], lhs[i]);
      forall k | 0 <= k < |lhs[i]| ensures SameLetter(lhs[i][k], rhs[i][k]) <==> SameLetter(rhs[i][k], lhs[i][k]) {
        SameLetterBoth(lhs[i][k], rhs[i][k]);
      }
      assert forall j :: 0 <= j < |rhs[i]| ==> rhs[i][j] != 0;
    }
  }
}
