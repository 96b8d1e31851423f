/** Octets, big-endian 16 and 32 bit fields, and small notions used throughout the project. */
module Bytes {

  type byte = b: int | 0 <= b < 256
  type bytes = seq<byte>

  type u16 = v: int | 0 <= v < 0x10000
  type u32 = v: int | 0 <= v < 0x1_0000_0000

  datatype Option<+T> = None | Some(value: T)

  function U16(hi: byte, lo: byte): u16 {
    256 * hi + lo
  }

  /** The two octets htons stores for the low 16 bits of v. */
  function Put16(v: nat): (r: bytes)
    ensures |r| == 2
  {
    [v / 256 % 256, v % 256]
  }

  /** The four octets htonl stores for the low 32 bits of v. */
  function Put32(v: nat): (r: bytes)
    ensures |r| == 4
  {
    Put16(v / 0x10000) + Put16(v)
  }

  function Min(a: nat, b: nat): nat {
    if a <= b then a else b
  }

  predicate Distinct<T(==)>(c: seq<T>) {
    forall i, j :: 0 <= i < j < |c| ==> c[i] != c[j]
  }

  /** The position of the first c in str at or behind from: memchr. */
  function Find(str: bytes, c: byte, from: nat): (r: Option<nat>)
    ensures r.Some? ==> from <= r.value < |str| && str[r.value] == c
    ensures var to := if r.Some? then r.value else |str|; forall k :: from <= k < to ==> str[k] != c
    decreases |str| - from
  {
    if from >= |str| then None
    else if str[from] == c then Some(from)
    else Find(str, c, from + 1)
  }

  /** Overwrites b from pos on. */
  function Splice(b: bytes, pos: nat, text: bytes): (r: bytes)
    requires pos + |text| <= |b|
    ensures |r| == |b| && r[pos..pos + |text|] == text
    ensures forall k :: 0 <= k < |b| && !(pos <= k < pos + |text|) ==> r[k] == b[k]
  {
    b[..pos] + text + b[pos + |text|..]
  }

  /** memcpy, and memmove of octets read before. */
  method Copy(buffer: array<byte>, at: nat, text: bytes)
    requires at + |text| <= buffer.Length
    modifies buffer
    ensures buffer[..] == Splice(old(buffer[..]), at, text)
  {
    ghost var goal := Splice(buffer[..], at, text);
    for i := 0 to |text|
      invariant forall k :: 0 <= k < buffer.Length && !(at + i <= k < at + |text|) ==> buffer[k] == goal[k]
      invariant forall k :: at <= k < at + |text| ==> goal[k] == text[k - at]
    {
      buffer[at + i] := text[i];
    }
  }

  lemma Slice(b: bytes, o: nat, e: nat, i: nat, j: nat)
    requires o <= e <= |b| && i <= j <= e - o
    ensures b[o..e][i..j] == b[o + i..o + j]
  {
    var l, r := b[o..e][i..j], b[o + i..o + j];
    assert |l| == |r| && forall k :: 0 <= k < |l| ==> l[k] == r[k];
  }

  lemma Put16ReadsBack(v: nat)
    requires v < 0x10000
    ensures U16(Put16(v)[0], Put16(v)[1]) == v
  {
    assert v == 256 * (v / 256) + v % 256;
  }
}
