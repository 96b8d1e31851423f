/** What the strings of any TXT record mean to the reader (sections 6.3 and 6.4 of RFC 6763). */
module TextStrings {
  import opened Bytes
  import opened Receive

  /** A string: a key with a value, a key alone, or one without a key. */
  datatype Entry = Valued(key: bytes, value: bytes) | Alone(key: bytes) | Nameless(x: bytes)

  /** An octet of a key: printable ASCII but for '='. */
  predicate KeyOctet(c: byte) {
    0x20 <= c <= 0x7E && c != 0x3D
  }

  predicate Key(x: bytes) {
    x != [] && forall i :: 0 <= i < |x| ==> KeyOctet(x[i])
  }

  /** Nothing, a string that begins with '=', or one with an octet that is not printable before any '='. */
  predicate HasNoKey(x: bytes) {
    x == [] || x[0] == 0x3D ||
    exists k :: 0 <= k < |x| && !(0x20 <= x[k] <= 0x7E) && forall i :: 0 <= i < k ==> KeyOctet(x[i])
  }

  function Octets(e: Entry): bytes {
    match e
    case Valued(key, value) => key + [0x3D] + value
    case Alone(key) => key
    case Nameless(x) => x
  }

  predicate Proper(e: Entry) {
    && |Octets(e)| < 256
    && match e
       case Valued(key, _) => Key(key)
       case Alone(key) => Key(key)
       case Nameless(x) => HasNoKey(x)
  }

  /** Every string is of one of the three kinds. */
  lemma {:induction false} EveryString(x: bytes) returns (e: Entry)
    requires |x| < 256
    ensures Proper(e) && Octets(e) == x
  {
    var k := 0;
    while k < |x| && KeyOctet(x[k])
      invariant k <= |x| && forall i :: 0 <= i < k ==> KeyOctet(x[i])
    {
      k := k + 1;
    }
    if k == |x| && k > 0 {
      e := Alone(x);
    } else if k > 0 && x[k] == 0x3D {
      e := Valued(x[..k], x[k + 1..]);
      assert x == x[..k] + [0x3D] + x[k + 1..];
    } else {
      e := Nameless(x);
    }
  }

  lemma {:induction false} KeyReached(x: bytes, c: nat, k: nat)
    requires c <= k <= |x| && forall i :: c <= i < k ==> KeyOctet(x[i])
    ensures KeyEnd(x, c) == KeyEnd(x, k)
    decreases k - c
  {
    if c < k { KeyReached(x, c + 1, k); }
  }

  /** What the reader makes of one string. */
  function PairFor(e: Entry): seq<Pair> {
    match e
    case Valued(key, value) => [Pair(key, Some(value))]
    case Alone(key) => [Pair(key, None)]
    case Nameless(_) => []
  }

  lemma {:induction false} StringRead(e: Entry)
    requires Proper(e)
    ensures var x := Octets(e); PairFor(e) == if KeyEnd(x, 0) == 0 then [] else [PairOf(x)]
  {
    var x := Octets(e);
    match e
    case Valued(key, value) =>
      assert forall i :: 0 <= i < |key| ==> x[i] == key[i];
      KeyReached(x, 0, |key|);
      assert x[..|key|] == key && x[|key| + 1..] == value;
    case Alone(key) =>
      KeyReached(x, 0, |key|);
    case Nameless(_) =>
      if x != [] && x[0] != 0x3D {
        var k :| 0 <= k < |x| && !(0x20 <= x[k] <= 0x7E) && forall i :: 0 <= i < k ==> KeyOctet(x[i]);
        KeyReached(x, 0, k);
      }
  }

  /** The strings one behind the other, each with its length before it. */
  function Laid(entries: seq<Entry>): bytes
    requires forall i :: 0 <= i < |entries| ==> Proper(entries[i])
  {
    if entries == [] then []
    else
      assert Proper(entries[0]);
      [|Octets(entries[0])|] + Octets(entries[0]) + Laid(entries[1..])
  }

  function PairsFor(entries: seq<Entry>): seq<Pair> {
    if entries == [] then [] else PairFor(entries[0]) + PairsFor(entries[1..])
  }

  /** Nothing, or a string that is cut off. */
  predicate CutShort(cut: bytes) {
    cut == [] || |cut| - 1 < cut[0]
  }

  function FirstOf(pairs: seq<Pair>, capacity: nat): seq<Pair> {
    if |pairs| <= capacity then pairs else pairs[..capacity]
  }

  /** The reader at a string that lies in full, and at one that does not. */
  lemma {:induction false} StringStep(b: bytes, x: bytes, rest: bytes, capacity: nat)
    requires |x| < 256 && b == [|x|] + x + rest && capacity > 0
    ensures PairsIn(b, capacity) ==
      if KeyEnd(x, 0) == 0 then PairsIn(rest, capacity) else [PairOf(x)] + PairsIn(rest, capacity - 1)
  {
    hide KeyEnd, PairOf, PairsIn;
    assert b[0..] == b && b[1..1 + |x|] == x && b[1 + |x|..] == rest;
    PairsStep(b, 0, capacity);
  }

  lemma {:induction false} CutStep(cut: bytes, capacity: nat)
    requires CutShort(cut)
    ensures PairsIn(cut, capacity) == []
  {}

  lemma {:induction false} LaidFirst(entries: seq<Entry>, cut: bytes)
    requires entries != [] && forall i :: 0 <= i < |entries| ==> Proper(entries[i])
    ensures Proper(entries[0])
    ensures Laid(entries) + cut == [|Octets(entries[0])|] + Octets(entries[0]) + (Laid(entries[1..]) + cut)
  {
    hide Octets;
  }

  lemma {:induction false} PairsForFirst(entries: seq<Entry>)
    requires entries != []
    ensures PairsFor(entries) == PairFor(entries[0]) + PairsFor(entries[1..])
  {}

  /**
   On any data: the pairs read are those of the strings that have a key, in order, as many as there is room
   for; a last string that is cut off gives none.
   */
  lemma {:induction false} TextsExactly(entries: seq<Entry>, cut: bytes, capacity: nat)
    requires (forall i :: 0 <= i < |entries| ==> Proper(entries[i])) && CutShort(cut)
    ensures PairsIn(Laid(entries) + cut, capacity) == FirstOf(PairsFor(entries), capacity)
    decreases |entries|
  {
    hide KeyEnd, PairOf, PairsIn, Octets, Laid, PairsFor, PairFor, Proper, FirstOf;
    if capacity == 0 {
      PairsNone(Laid(entries) + cut, 0);
      NoRoom(PairsFor(entries));
    } else if entries == [] {
      NothingLaid(cut);
      CutStep(cut, capacity);
    } else {
      var p := PairFor(entries[0]);
      LaidFirst(entries, cut);
      ProperShort(entries[0]);
      StringStep(Laid(entries) + cut, Octets(entries[0]), Laid(entries[1..]) + cut, capacity);
      StringRead(entries[0]);
      PairsForFirst(entries);
      TextsExactly(entries[1..], cut, if p == [] then capacity else capacity - 1);
      FirstJoins(p, PairsFor(entries[1..]), capacity);
      assert [] + FirstOf(PairsFor(entries[1..]), capacity) == FirstOf(PairsFor(entries[1..]), capacity);
    }
  }

  lemma NoRoom(pairs: seq<Pair>)
    ensures FirstOf(pairs, 0) == []
  {}

  lemma NothingLaid(cut: bytes)
    ensures Laid([]) + cut == cut && forall n: nat :: FirstOf(PairsFor([]), n) == []
  {}

  lemma ProperShort(e: Entry)
    requires Proper(e)
    ensures |Octets(e)| < 256
  {}

  lemma FirstJoins(p: seq<Pair>, rest: seq<Pair>, capacity: nat)
    requires |p| <= 1 && capacity > 0
    ensures FirstOf(p + rest, capacity) == p + FirstOf(rest, capacity - |p|)
  {}

  /** All data can be cut up so. */
  lemma {:induction false} EveryText(b: bytes) returns (entries: seq<Entry>, cut: bytes)
    ensures (forall i :: 0 <= i < |entries| ==> Proper(entries[i])) && CutShort(cut) && b == Laid(entries) + cut
    decreases |b|
  {
    if CutShort(b) {
      entries, cut := [], b;
    } else {
      var n := b[0];
      var e := EveryString(b[1..1 + n]);
      entries, cut := EveryText(b[1 + n..]);
      assert b == [n] + b[1..1 + n] + b[1 + n..];
      var all := [e] + entries;
      assert all[1..] == entries;
      assert Laid(all) == [n] + b[1..1 + n] + Laid(entries);
      entries := all;
    }
  }
}
