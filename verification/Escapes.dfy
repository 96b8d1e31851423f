/** What each form of escape stands for in TXT_util_unescape. */
module Escapes {
  import opened Bytes
  import opened ScanNames

  /**
   A character as it is written: an octet by itself, an octet behind a backslash that stands for itself, a
   letter or a zero octet behind a backslash that stands for a control character, or octal digits behind a
   backslash.
   */
  datatype Form = Raw(x: byte) | Quoted(x: byte) | Named(letter: byte) | Digits(digits: seq<byte>)

  predicate IsDigit(c: byte) {
    0x30 <= c <= 0x37
  }

  /** b, f, n, r, t, and zero. */
  predicate IsName(c: byte) {
    c == 0 || c == 0x62 || c == 0x66 || c == 0x6E || c == 0x72 || c == 0x74
  }

  predicate Proper(f: Form) {
    match f
    case Raw(x) => x != 0x5C
    case Quoted(x) => !IsDigit(x) && !IsName(x)
    case Named(letter) => IsName(letter)
    case Digits(ds) => 1 <= |ds| <= 3 && forall k :: 0 <= k < |ds| ==> IsDigit(ds[k])
  }

  function Octets(f: Form): (r: bytes)
    ensures r != []
  {
    match f
    case Raw(x) => [x]
    case Quoted(x) => [0x5C, x]
    case Named(letter) => [0x5C, letter]
    case Digits(ds) => [0x5C] + ds
  }

  /** The number that octal digits write. */
  function Number(ds: seq<byte>): nat
    requires forall k :: 0 <= k < |ds| ==> IsDigit(ds[k])
  {
    if ds == [] then 0
    else
      var digit: int := ds[|ds| - 1];
      assert IsDigit(ds[|ds| - 1]);
      8 * Number(ds[..|ds| - 1]) + (digit - 0x30)
  }

  /** Backspace, form feed, newline, carriage return and tab have names; of a number the low eight bits count. */
  function Value(f: Form): byte
    requires Proper(f)
  {
    match f
    case Raw(x) => x
    case Quoted(x) => x
    case Named(letter) =>
      if letter == 0x62 then 8 else if letter == 0x66 then 12 else if letter == 0x6E then 10
      else if letter == 0x72 then 13 else if letter == 0x74 then 9 else 0
    case Digits(ds) => Number(ds) % 256
  }

  /** Octal and named characters are reported as escaped, a quoted one is not. */
  predicate IsMarked(f: Form) {
    f.Digits? || f.Named?
  }

  /** What may follow: behind digits something does, and behind fewer than three of them no further digit. */
  predicate CanFollow(f: Form, rest: bytes) {
    f.Digits? ==> rest != [] && (|f.digits| < 3 ==> !IsDigit(rest[0]))
  }

  lemma {:induction false} NumberRead(s: bytes, o: nat, ds: seq<byte>, k: nat, most: nat)
    requires (forall j :: 0 <= j < |ds| ==> IsDigit(ds[j])) && k <= |ds| && |ds| - k <= most
    requires o + most < |s| && o + |ds| - k < |s| && s[o..o + |ds| - k] == ds[k..]
    requires |ds| - k < most ==> !IsDigit(s[o + |ds| - k])
    ensures Octal(s, o, most, Number(ds[..k])) == (Number(ds), o + |ds| - k)
    decreases |ds| - k
  {
    if k == |ds| {
      assert ds[..k] == ds;
    } else {
      assert s[o] == s[o..o + |ds| - k][0] == ds[k];
      assert ds[..k + 1][..k] == ds[..k];
      assert s[o + 1..o + |ds| - k] == s[o..o + |ds| - k][1..] == ds[k + 1..];
      NumberRead(s, o + 1, ds, k + 1, most - 1);
    }
  }

  lemma {:induction false} FormReads(s: bytes, i: nat, f: Form, rest: bytes)
    requires Proper(f) && i <= |s| && s[i..] == Octets(f) + rest && CanFollow(f, rest)
    ensures PieceAt(s, i) == Some(Piece(Value(f), IsMarked(f), i + |Octets(f)|))
  {
    var x := Octets(f);
    assert s[i] == s[i..][0] == x[0];
    if |x| > 1 { assert s[i + 1] == s[i..][1] == x[1]; }
    match f
    case Digits(ds) =>
      var n := |ds|;
      assert s[i + 1..i + 1 + n] == s[i..][1..1 + n] == ds;
      assert s[i + 1 + n] == s[i..][1 + n] == rest[0];
      assert ds[0..] == ds && Number(ds[..0]) == 0;
      var most := Min(3, |s| - 1 - (i + 1));
      NumberRead(s, i + 1, ds, 0, most);
    case _ =>
  }

  function Source(forms: seq<Form>): bytes {
    if forms == [] then [] else Octets(forms[0]) + Source(forms[1..])
  }

  /** Characters that can be told apart in a text with nothing behind it, or one more backslash. */
  predicate Text(forms: seq<Form>, tail: bytes)
    decreases |forms|
  {
    if forms == [] then tail == [] || tail == [0x5C]
    else Proper(forms[0]) && CanFollow(forms[0], Source(forms[1..]) + tail) && Text(forms[1..], tail)
  }

  /** The callbacks: the value of each character, its number in the eight bits of the counter, and the mark. */
  function CallsOf(forms: seq<Form>, tail: bytes, from: nat): seq<Char>
    requires Text(forms, tail)
    decreases |forms|
  {
    if forms == [] then []
    else [Char(Value(forms[0]), from % 256, IsMarked(forms[0]))] + CallsOf(forms[1..], tail, from + 1)
  }

  /** Every text is taken apart so, whatever its length; a backslash at its very end is left out. */
  lemma {:induction false} UnescapedExactly(s: bytes, i: nat, forms: seq<Form>, tail: bytes, from: nat)
    requires i <= |s| && Text(forms, tail) && s[i..] == Source(forms) + tail
    ensures Unescaped(s, i, from % 256) == CallsOf(forms, tail, from)
    decreases |forms|
  {
    hide PieceAt, Octets, Value, CanFollow, Proper, IsMarked;
    if forms == [] {
      assert s[i..] == tail;
      TailReads(s, i, tail);
    } else {
      var x, rest := Octets(forms[0]), Source(forms[1..]) + tail;
      assert s[i..] == x + rest;
      FormReads(s, i, forms[0], rest);
      assert s[i + |x|..] == s[i..][|x|..] == rest;
      UnescapedExactly(s, i + |x|, forms[1..], tail, from + 1);
      Counter(from);
    }
  }

  lemma Counter(from: nat)
    ensures (from % 256 + 1) % 256 == (from + 1) % 256
  {}

  lemma {:induction false} TailReads(s: bytes, i: nat, tail: bytes)
    requires i <= |s| && s[i..] == tail && (tail == [] || tail == [0x5C])
    ensures forall ctr: byte :: Unescaped(s, i, ctr) == []
  {
    if tail != [] { assert s[i] == s[i..][0]; }
  }
}
