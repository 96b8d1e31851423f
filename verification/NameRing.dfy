/**
 When a name is compressed: what the ring of remembered offsets holds, what the search of it finds, and
 which part of a name is written as a reference.
 */
module NameRing {
  import opened Bytes
  import opened NameWalk
  import opened NameMake

  /** Slot k holds an offset inside b whose labels begin with the sought ones. */
  predicate Hit(t: Table, b: bytes, labels: Name, k: nat)
    requires t.Valid() && k < t.count
  {
    t.offset[k] < |b| && Matches(b, t.offset[k], labels)
  }

  lemma {:induction false} FindFrom(t: Table, b: bytes, labels: Name, i: nat)
    requires t.Valid() && i <= t.count
    ensures match FindRef(t, b, labels, i)
      case None => forall k :: i <= k < t.count ==> !Hit(t, b, labels, k)
      case Some(r) =>
        exists k :: i <= k < t.count && Hit(t, b, labels, k) && t.offset[k] == r && forall j :: i <= j < k ==> !Hit(t, b, labels, j)
    decreases t.count - i
  {
    hide Matches;
    if i < t.count {
      if Hit(t, b, labels, i) {
        assert FindRef(t, b, labels, i) == Some(t.offset[i]);
      } else {
        FindFrom(t, b, labels, i + 1);
      }
    }
  }

  /** The search finds nothing exactly when no slot in use has the labels, and else what the least such slot holds. */
  lemma {:induction false} FindExactly(t: Table, b: bytes, labels: Name)
    requires t.Valid()
    ensures FindRef(t, b, labels, 0).None? <==> forall k :: 0 <= k < t.count ==> !Hit(t, b, labels, k)
    ensures forall k :: 0 <= k < t.count && Hit(t, b, labels, k) && (forall j :: 0 <= j < k ==> !Hit(t, b, labels, j)) ==>
              FindRef(t, b, labels, 0) == Some(t.offset[k])
  {
    hide Matches, FindRef, Hit;
    FindFrom(t, b, labels, 0);
  }

  /** The ring after some offsets were remembered, one after the other. */
  function Ring(offsets: seq<nat>): (t: Table)
    ensures t.Valid()
  {
    if offsets == [] then EmptyTable() else Ring(offsets[..|offsets| - 1]).Add(offsets[|offsets| - 1])
  }

  /** The ring holds the last 16 offsets, each in the slot that its number gives. */
  lemma {:induction false} RingHolds(offsets: seq<nat>)
    ensures var t, n := Ring(offsets), |offsets|;
      && t.count == (if n < 16 then n else 16) && t.next == n % 16
      && forall i :: 0 <= i < n && n - 16 <= i ==> i % 16 < t.count && t.offset[i % 16] == offsets[i]
  {
    var n := |offsets|;
    if n > 0 {
      var before, t := Ring(offsets[..n - 1]), Ring(offsets);
      RingHolds(offsets[..n - 1]);
      NextSlot(n - 1);
      forall i | 0 <= i < n && n - 16 <= i ensures i % 16 < t.count && t.offset[i % 16] == offsets[i] {
        if i < n - 1 {
          OtherSlot(i, n - 1);
          assert offsets[..n - 1][i] == offsets[i];
        } else {
          SlotInUse(i);
        }
      }
    }
  }

  lemma NextSlot(n: nat)
    ensures (n + 1) % 16 == if n % 16 + 1 >= 16 then 0 else n % 16 + 1
  {}

  lemma OtherSlot(i: nat, n: nat)
    requires i < n < i + 16
    ensures i % 16 != n % 16
  {
    assert i == 16 * (i / 16) + i % 16 && n == 16 * (n / 16) + n % 16;
  }

  lemma SlotInUse(i: nat)
    ensures i % 16 <= i && i % 16 < 16
  {}

  lemma SlotFilled(k: nat, n: nat) returns (i: nat)
    requires k < n && k < 16
    ensures i < n && n - 16 <= i && i % 16 == k
  {
    var d := (n - 1 - k) / 16;
    i := k + 16 * d;
    assert n - 1 - k == 16 * d + (n - 1 - k) % 16;
    assert i % 16 == k;
  }

  /** A label sequence is found exactly when one of the last 16 offsets remembered begins with it. */
  lemma {:induction false} RingFinds(offsets: seq<nat>, b: bytes, labels: Name)
    ensures FindRef(Ring(offsets), b, labels, 0).Some? <==>
      exists i :: 0 <= i < |offsets| && |offsets| - 16 <= i && offsets[i] < |b| && Matches(b, offsets[i], labels)
  {
    hide Matches, FindRef, Ring;
    var t, n := Ring(offsets), |offsets|;
    RingHolds(offsets);
    FindExactly(t, b, labels);
    if FindRef(t, b, labels, 0).Some? {
      var k :| 0 <= k < t.count && Hit(t, b, labels, k);
      var i := SlotFilled(k, n);
      assert t.offset[i % 16] == offsets[i];
    }
    if i :| 0 <= i < n && n - 16 <= i && offsets[i] < |b| && Matches(b, offsets[i], labels) {
      assert t.offset[i % 16] == offsets[i];
      assert Hit(t, b, labels, i % 16);
    }
  }

  /** Where the writing of a name stands. */
  datatype Progress = Progress(buf: bytes, pos: nat, table: Option<Table>)

  predicate Going(s: Progress) {
    s.pos <= |s.buf| && (s.table.Some? ==> s.table.value.Valid())
  }

  /** One label written out, which has to leave room for what ends the name. */
  function Spelled(s: Progress, x: Label): (r: Progress)
    requires Going(s) && s.pos + 1 + |x| < |s.buf|
    ensures Going(r) && |r.buf| == |s.buf| && r.pos == s.pos + 1 + |x|
  {
    Progress(Splice(s.buf, s.pos, [|x| % 256] + x), s.pos + 1 + |x|,
             if s.table.None? then None else Some(s.table.value.Add(s.pos)))
  }

  /** All labels of the list written out from s to e, with no tail of labels + rest found on the way. */
  ghost predicate SpelledOut(s: Progress, labels: Name, rest: Name, e: Progress)
    decreases labels
  {
    if labels == [] then e == s
    else
      && Going(s) && Lookup(s.table, s.buf, labels + rest).None? && s.pos + 1 + |labels[0]| < |s.buf|
      && SpelledOut(Spelled(s, labels[0]), labels[1..], rest, e)
  }

  /** How the writing of a name ends, behind the labels written out: nothing left, a reference, or no room. */
  predicate EndsAs(e: Progress, rest: Name, m: Made) {
    && Going(e) && m.table == e.table
    && var room := |e.buf| - e.pos;
       if rest == [] then
         if room < 1 then m.end == None && m.buf == e.buf else m.end == Some(e.pos + 1) && m.buf == e.buf[e.pos := 0]
       else match Lookup(e.table, e.buf, rest)
         case Some(target) =>
           if room < 2 then m.end == None && m.buf == e.buf
           else
             && m.end == Some(e.pos + 2)
             && m.buf == Splice(e.buf, e.pos, [0xC0 + target % 0x4000 / 256, target % 256])
         case None => room < |rest[0]| + 2 && m.end == None && m.buf == e.buf
  }

  lemma RefOctets(target: nat)
    ensures target % 0x4000 / 256 < 0x40 && RefBytes(target) == [0xC0 + target % 0x4000 / 256, target % 256]
  {
    var v := 0xC000 + target % 0x4000;
    assert v / 256 == 0xC0 + target % 0x4000 / 256;
    assert target % 256 == target % 0x4000 % 256;
    assert v % 256 == target % 0x4000 % 256;
  }

  /** The writing of a name that writes out no more labels. */
  lemma {:induction false} EndsHere(b: bytes, pos: nat, labels: Name, table: Option<Table>)
    requires pos <= |b| && (table.Some? ==> table.value.Valid())
    requires labels == [] || Lookup(table, b, labels).Some? || |b| - pos <= |labels[0]| + 1
    ensures EndsAs(Progress(b, pos, table), labels, MakeName(b, pos, labels, table))
  {
    hide Lookup, Splice, RefBytes, MakeName;
    if labels == [] {
      MakeNameEnd(b, pos, table);
    } else {
      MakeNameStep(b, pos, labels, table);
      if Lookup(table, b, labels).Some? { RefOctets(Lookup(table, b, labels).value); }
    }
  }

  lemma {:induction false} OneMoreLabel(s: Progress, labels: Name, rest: Name, e: Progress)
    requires labels != [] && Going(s) && Lookup(s.table, s.buf, labels + rest).None? && s.pos + 1 + |labels[0]| < |s.buf|
    requires SpelledOut(Spelled(s, labels[0]), labels[1..], rest, e)
    ensures SpelledOut(s, labels, rest, e)
  {}

  /**
   What a name is written as: labels are written out until a tail of the name is found, which becomes a
   reference, the longest one there is, or until the name ends. It fails exactly when one octet more than a
   label and its length, two for the reference, or one for the terminator, are not left.
   */
  lemma {:induction false} MakeExactly(b: bytes, pos: nat, labels: Name, table: Option<Table>)
    returns (k: nat, e: Progress)
    requires pos <= |b| && (table.Some? ==> table.value.Valid())
    ensures k <= |labels| && SpelledOut(Progress(b, pos, table), labels[..k], labels[k..], e)
    ensures EndsAs(e, labels[k..], MakeName(b, pos, labels, table))
    decreases labels
  {
    hide Lookup, Splice, RefBytes, MakeName, EndsAs;
    var s := Progress(b, pos, table);
    if labels == [] || Lookup(table, b, labels).Some? || |b| - pos <= |labels[0]| + 1 {
      k, e := 0, s;
      assert labels[..0] == [] && labels[0..] == labels;
      EndsHere(b, pos, labels, table);
    } else {
      hide SpelledOut;
      var x := labels[0];
      MakeNameStep(b, pos, labels, table);
      k, e := MakeExactly(Splice(b, pos, [|x| % 256] + x), pos + 1 + |x|, labels[1..], Remember(table, pos));
      k := k + 1;
      assert labels[..k][1..] == labels[1..][..k - 1] && labels[k..] == labels[1..][k - 1..];
      assert labels[..k] + labels[k..] == labels;
      OneMoreLabel(s, labels[..k], labels[k..], e);
    }
  }
}
