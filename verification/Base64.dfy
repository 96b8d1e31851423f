/** TXT_util_decode_base64 against the encoding of section 4 of RFC 4648. */
module Base64 {
  import opened Bytes

  const PAD: byte := 0x3D

  type Sextet = v: int | 0 <= v < 64

  /** The alphabet: capitals, small letters, digits, plus and slash. */
  function Letter(v: Sextet): byte {
    if v < 26 then 0x41 + v else if v < 52 then 0x61 + v - 26 else if v < 62 then 0x30 + v - 52
    else if v == 62 then 0x2B else 0x2F
  }

  /** The place of an octet in the alphabet, 0 for any other octet. */
  function Place(c: byte): Sextet {
    if 0x41 <= c <= 0x5A then c - 0x41 else if 0x61 <= c <= 0x7A then c - 0x61 + 26
    else if 0x30 <= c <= 0x39 then c - 0x30 + 52 else if c == 0x2B then 62 else if c == 0x2F then 63 else 0
  }

  /** The decoding table: all zero but at the letters. */
  method InitTable(table: array<byte>)
    requires table.Length == 256 && forall c :: 0 <= c < 256 ==> table[c] == 0
    modifies table
    ensures IsTable(table[..])
  {
    for i := 0 to 64
      invariant forall c: byte :: table[c] == if Place(c) < i then Place(c) else 0
    {
      LetterOnly(i);
      table[Letter(i)] := i;
    }
  }

  lemma LetterOnly(v: Sextet)
    ensures Place(Letter(v)) == v
    ensures forall c: byte :: Place(c) == v && v != 0 ==> c == Letter(v)
  {}

  /** The encoding, with padding. */
  function Encoded(x: bytes): (e: bytes)
    ensures |e| % 4 == 0 && (x != [] ==> |e| >= 4)
  {
    if x == [] then []
    else if |x| == 1 then [Letter(x[0] / 4), Letter(x[0] % 4 * 16), PAD, PAD]
    else if |x| == 2 then [Letter(x[0] / 4), Letter(x[0] % 4 * 16 + x[1] / 16), Letter(x[1] % 16 * 4), PAD]
    else
      [Letter(x[0] / 4), Letter(x[0] % 4 * 16 + x[1] / 16), Letter(x[1] % 16 * 4 + x[2] / 64), Letter(x[2] % 64)]
      + Encoded(x[3..])
  }

  /** decode_base64_four. */
  function Four(a: byte, b: byte, c: byte, d: byte): (triple: nat)
    ensures triple < 0x100_0000
  {
    0x40000 * Place(a) + 0x1000 * Place(b) + 0x40 * Place(c) + Place(d)
  }

  function Three(triple: nat): (x: bytes)
    ensures |x| == 3
  {
    [triple / 0x10000 % 256, triple / 0x100 % 256, triple % 256]
  }

  /** All octets of all groups of four, before the padding is taken off. */
  function Groups(data: bytes): (x: bytes)
    requires |data| % 4 == 0
    ensures |x| == 3 * (|data| / 4)
  {
    if data == [] then [] else Three(Four(data[0], data[1], data[2], data[3])) + Groups(data[4..])
  }

  function Length(data: bytes): (n: nat)
    requires |data| % 4 == 0 && data != []
    ensures n <= 3 * (|data| / 4)
  {
    3 * (|data| / 4) - (if data[|data| - 1] == PAD then 1 else 0) - (if data[|data| - 2] == PAD then 1 else 0)
  }

  function Decoded(data: bytes): bytes
    requires |data| % 4 == 0 && data != []
  {
    Groups(data)[..Length(data)]
  }

  predicate IsTable(table: seq<byte>) {
    |table| == 256 && forall c: byte :: table[c] == Place(c)
  }

  /** TXT_util_decode_base64. */
  method Decode(data: bytes, table: seq<byte>) returns (decoded: Option<array<byte>>)
    requires data != [] && IsTable(table)
    ensures decoded.Some? <==> |data| % 4 == 0
    ensures decoded.Some? ==> fresh(decoded.value) && decoded.value[..] == Decoded(data)
    ensures decoded.Some? ==>
      var padding := (if data[|data| - 1] == 0x3D then 1 else 0) + if data[|data| - 2] == 0x3D then 1 else 0;
      decoded.value.Length == 3 * (|data| / 4) - padding
  {
    hide Groups, Place, Four, IsTable, Three;
    if |data| % 4 != 0 { return None; }
    var length := 3 * (|data| / 4);
    if data[|data| - 1] == PAD { length := length - 1; }
    if data[|data| - 2] == PAD { length := length - 1; }
    var out := new byte[length](_ => 0);
    ghost var goal, k: nat := Groups(data), 0;
    var i, j := 0, 0;
    while i < |data|
      invariant 0 <= i <= |data| && i == 4 * k && j == Min(length, 3 * k)
      invariant forall p :: 0 <= p < j ==> out[p] == goal[p]
    {
      GroupsAt(data, k);
      var triple := FourBy(data, i, table);
      i := i + 4;
      ghost var was, from := out[..], j;
      j := StoreGroup(out, j, triple);
      GroupStored(was, out[..], goal, k, from, j, Three(triple));
      k := k + 1;
    }
    return Some(out);
  }

  lemma GroupStored(was: bytes, now: bytes, goal: bytes, k: nat, j: nat, next: nat, group: bytes)
    requires |was| == |now| && j == Min(|was|, 3 * k) && next == Min(|was|, j + 3)
    requires |group| == 3 && 3 * k + 3 <= |goal| && goal[3 * k..3 * k + 3] == group
    requires forall p :: 0 <= p < j ==> was[p] == goal[p] && now[p] == was[p]
    requires forall p :: j <= p < next ==> now[p] == group[p - j]
    ensures next == Min(|was|, 3 * (k + 1)) && forall p :: 0 <= p < next ==> now[p] == goal[p]
  {
    forall p | j <= p < next ensures now[p] == goal[p] { assert goal[3 * k..3 * k + 3][p - j] == goal[p]; }
  }

  /** Stores an octet unless the padding cuts it off. */
  method Store(out: array<byte>, j: nat, v: byte) returns (next: nat)
    requires j <= out.Length
    modifies out
    ensures next == Min(out.Length, j + 1)
    ensures j < out.Length ==> out[j] == v
    ensures forall p :: 0 <= p < j ==> out[p] == old(out[p])
  {
    next := j;
    if j < out.Length { out[j], next := v, j + 1; }
  }

  /** The three octets of a group. */
  method StoreGroup(out: array<byte>, j: nat, triple: nat) returns (next: nat)
    requires j <= out.Length
    modifies out
    ensures next == Min(out.Length, j + 3)
    ensures forall p :: j <= p < next ==> out[p] == Three(triple)[p - j]
    ensures forall p :: 0 <= p < j ==> out[p] == old(out[p])
  {
    next := Store(out, j, triple / 0x10000 % 256);
    next := Store(out, next, triple / 0x100 % 256);
    next := Store(out, next, triple % 256);
  }

  method FourBy(data: bytes, i: nat, table: seq<byte>) returns (triple: nat)
    requires i + 4 <= |data| && IsTable(table)
    ensures triple == Four(data[i], data[i + 1], data[i + 2], data[i + 3])
  {
    hide Place, IsTable;
    triple := 0x40000 * One(data[i], table) + 0x1000 * One(data[i + 1], table) + 0x40 * One(data[i + 2], table)
              + One(data[i + 3], table);
  }

  /** decode_base64_one. */
  function One(c: byte, table: seq<byte>): (v: byte)
    requires IsTable(table)
    ensures v == Place(c)
  {
    assert Place(PAD) == 0;
    if c == PAD then 0 else table[c]
  }

  lemma {:induction false} GroupsAt(data: bytes, k: nat)
    requires |data| % 4 == 0 && 4 * k < |data|
    ensures 3 * k + 3 <= |Groups(data)| && 4 * k + 4 <= |data|
    ensures Groups(data)[3 * k..3 * k + 3] == Three(Four(data[4 * k], data[4 * k + 1], data[4 * k + 2], data[4 * k + 3]))
    decreases k
  {
    hide Place, Three;
    var head, rest := Three(Four(data[0], data[1], data[2], data[3])), Groups(data[4..]);
    assert Groups(data) == head + rest;
    if k > 0 {
      GroupsAt(data[4..], k - 1);
      assert (head + rest)[3 * k..3 * k + 3] == rest[3 * (k - 1)..3 * (k - 1) + 3];
    }
  }

  lemma FourOfThree(x: byte, y: byte, z: byte)
    ensures Three(Four(Letter(x / 4), Letter(x % 4 * 16 + y / 16), Letter(y % 16 * 4 + z / 64), Letter(z % 64))) == [x, y, z]
  {
    LetterOnly(x / 4);
    LetterOnly(x % 4 * 16 + y / 16);
    LetterOnly(y % 16 * 4 + z / 64);
    LetterOnly(z % 64);
    hide Letter, Place;
    Halves(x, 4);
    Halves(y, 16);
    Halves(z, 64);
    Apart(x, y, z);
  }

  lemma Halves(v: nat, d: nat)
    requires d > 0
    ensures v == d * (v / d) + v % d
  {}

  lemma Apart(x: byte, y: byte, z: byte)
    ensures Three(0x10000 * x + 0x100 * y + z) == [x, y, z]
  {
    Top(x, 0x100 * y + z);
    Middle(x, y, z);
    Low(0x100 * x + y, z);
  }

  lemma Top(x: byte, w: nat)
    requires w < 0x10000
    ensures (0x10000 * x + w) / 0x10000 % 256 == x
  {}

  lemma Middle(x: byte, y: byte, z: byte)
    ensures (0x10000 * x + 0x100 * y + z) / 0x100 % 256 == y
  {
    assert 0x10000 * x + 0x100 * y + z == 0x100 * (0x100 * x + y) + z;
  }

  lemma Low(w: nat, z: byte)
    ensures (0x100 * w + z) % 256 == z
  {}

  lemma LetterNotPad(v: Sextet)
    ensures Letter(v) != PAD
  {}

  /** Only the last group is padded. */
  lemma {:induction false} EncodedLength(x: bytes)
    requires x != []
    ensures Length(Encoded(x)) == |x|
    decreases |x|
  {
    if |x| > 3 {
      EncodedLength(x[3..]);
      var e, rest := Encoded(x), Encoded(x[3..]);
      assert e[|e| - 1] == rest[|rest| - 1] && e[|e| - 2] == rest[|rest| - 2];
    } else {
      LetterNotPad(x[0] % 4 * 16);
      if |x| == 3 {
        LetterNotPad(x[2] % 64);
        LetterNotPad(x[1] % 16 * 4 + x[2] / 64);
        assert Encoded(x[3..]) == [];
      } else if |x| == 2 {
        LetterNotPad(x[1] % 16 * 4);
      }
    }
  }

  lemma {:induction false} GroupsOfEncoded(x: bytes)
    ensures |x| <= |Groups(Encoded(x))| && Groups(Encoded(x))[..|x|] == x
    decreases |x|
  {
    hide Letter, Place, Four, Three;
    var e := Encoded(x);
    if |x| >= 3 {
      FourOfThree(x[0], x[1], x[2]);
      GroupsOfEncoded(x[3..]);
      assert e[4..] == Encoded(x[3..]);
      assert Groups(e) == [x[0], x[1], x[2]] + Groups(e[4..]);
      assert Groups(e)[..|x|] == [x[0], x[1], x[2]] + x[3..];
    } else if x != [] {
      ShortGroup(x);
    }
  }

  lemma {:induction false} ShortGroup(x: bytes)
    requires 1 <= |x| <= 2
    ensures Groups(Encoded(x))[..|x|] == x
  {
    hide Letter, Place, Groups, Three, Encoded, Four;
    EncodedShort(x);
    OneGroup(Encoded(x));
    if |x| == 1 { OneLeft(x[0]); } else { TwoLeft(x[0], x[1]); }
  }

  lemma {:induction false} EncodedShort(x: bytes)
    requires 1 <= |x| <= 2
    ensures Encoded(x) == if |x| == 1 then [Letter(x[0] / 4), Letter(x[0] % 4 * 16), PAD, PAD]
                          else [Letter(x[0] / 4), Letter(x[0] % 4 * 16 + x[1] / 16), Letter(x[1] % 16 * 4), PAD]
  {}

  lemma OneLeft(x: byte)
    ensures Three(Four(Letter(x / 4), Letter(x % 4 * 16), PAD, PAD)) == [x, 0, 0]
  {
    hide Letter, Place, Three;
    FourOfThree(x, 0, 0);
    PadIsZero();
    assert x % 4 * 16 + 0 / 16 == x % 4 * 16;
  }

  lemma TwoLeft(x: byte, y: byte)
    ensures Three(Four(Letter(x / 4), Letter(x % 4 * 16 + y / 16), Letter(y % 16 * 4), PAD)) == [x, y, 0]
  {
    hide Letter, Place, Three;
    FourOfThree(x, y, 0);
    PadIsZero();
    assert y % 16 * 4 + 0 / 64 == y % 16 * 4;
  }

  lemma PadIsZero()
    ensures Place(PAD) == Place(Letter(0)) == 0
  {}

  lemma {:induction false} OneGroup(e: bytes)
    requires |e| == 4
    ensures Groups(e) == Three(Four(e[0], e[1], e[2], e[3]))
  {
    assert e[4..] == [];
    assert Groups(e) == Three(Four(e[0], e[1], e[2], e[3])) + Groups(e[4..]);
  }

  /** Decoding inverts encoding: the same octets, and so the same number of them. */
  lemma {:induction false} RoundTrip(x: bytes)
    requires x != []
    ensures Decoded(Encoded(x)) == x
  {
    EncodedLength(x);
    GroupsOfEncoded(x);
  }
}
