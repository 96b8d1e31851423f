/** Splitting an escaped service name into its last labels: TXT_util_unescape and mdns_scan_names. */
module ScanNames {
  import opened Bytes
  import opened NameWalk

  const BACKSLASH: byte := 0x5C

  /** A call of the callback of TXT_util_unescape; its counter is an unsigned char. */
  datatype Char = Char(value: byte, index: byte, escaped: bool)

  predicate IsOctal(c: byte) {
    0x30 <= c <= 0x37
  }

  /** txt_util_calc_octal: up to most digits from o on, with the value so far; the value and where it ends. */
  function Octal(s: bytes, o: nat, most: nat, value: nat): (r: (nat, nat))
    requires o + most <= |s|
    ensures o <= r.1 <= o + most
    decreases most
  {
    if most == 0 || !IsOctal(s[o]) then (value, o) else Octal(s, o + 1, most - 1, 8 * value + s[o] - 0x30)
  }

  /** The last octet of the source is never taken for a digit. */
  function OctalAt(s: bytes, o: nat): (r: (nat, nat))
    requires o < |s|
    ensures o <= r.1 <= |s|
  {
    Octal(s, o, Min(3, |s| - 1 - o), 0)
  }

  /** The letters that stand for a control character. */
  function Control(c: byte): Option<byte> {
    if c == 0 then Some(0) else if c == 0x62 then Some(8) else if c == 0x66 then Some(12) else if c == 0x6E then Some(10)
    else if c == 0x72 then Some(13) else if c == 0x74 then Some(9) else None
  }

  /** One character of the source: its value, whether it was escaped, and where the next one begins. */
  datatype Piece = Piece(value: byte, escaped: bool, next: nat)

  /** The character at i, unless the source ends in a backslash there. */
  function PieceAt(s: bytes, i: nat): (p: Option<Piece>)
    requires i < |s|
    ensures p.Some? ==> i < p.value.next <= |s|
  {
    if s[i] != BACKSLASH then Some(Piece(s[i], false, i + 1))
    else if i + 1 >= |s| then None
    else if IsOctal(s[i + 1]) then Some(Piece(OctalAt(s, i + 1).0 % 256, true, OctalAt(s, i + 1).1))
    else if Control(s[i + 1]).Some? then Some(Piece(Control(s[i + 1]).value, true, i + 2))
    else Some(Piece(s[i + 1], false, i + 2))
  }

  /** The callbacks from position i on, the next of them with counter ctr. */
  function Unescaped(s: bytes, i: nat, ctr: byte): seq<Char>
    decreases |s| - i
  {
    if i >= |s| then []
    else match PieceAt(s, i)
      case None => []
      case Some(p) => [Char(p.value, ctr, p.escaped)] + Unescaped(s, p.next, (ctr + 1) % 256)
  }

  method CalcOctal(s: bytes, start: nat) returns (value: nat, end: nat)
    requires start < |s|
    ensures (value, end) == OctalAt(s, start)
  {
    var length := |s| - 1 - start;
    var check := if length < 3 then length else 3;
    value, end := 0, start;
    for i := 0 to check
      invariant end == start + i
      invariant Octal(s, start, check, 0) == Octal(s, end, check - i, value)
    {
      if !IsOctal(s[end]) { break; }
      value, end := 8 * value + s[end] - 0x30, end + 1;
    }
  }

  /** The body of the loop of TXT_util_unescape. */
  method ReadPiece(s: bytes, start: nat) returns (p: Option<Piece>)
    requires start < |s|
    ensures p == PieceAt(s, start)
  {
    hide OctalAt, Control;
    var schar, step, escaped := start, 1, true;
    var c := s[schar];
    if c == BACKSLASH {
      if schar + 1 >= |s| { return None; }
      schar := schar + 1;
      c := s[schar];
      if IsOctal(c) {
        var value, end := CalcOctal(s, schar);
        c, schar, step := value % 256, end, 0;
      } else if Control(c).Some? {
        c := Control(c).value;
      } else {
        escaped := false;
      }
    } else {
      escaped := false;
    }
    return Some(Piece(c, escaped, schar + step));
  }

  /** TXT_util_unescape. */
  method Unescape(s: bytes) returns (calls: seq<Char>)
    ensures calls == Unescaped(s, 0, 0)
  {
    hide PieceAt;
    var schar: nat, ctr: byte := 0, 0;
    calls := [];
    while schar < |s|
      invariant calls + Unescaped(s, schar, ctr) == Unescaped(s, 0, 0)
      decreases |s| - schar
    {
      var p := ReadPiece(s, schar);
      if p.None? { break; }
      var c := Char(p.value.value, ctr, p.value.escaped);
      ghost var was, rest := calls, Unescaped(s, p.value.next, (ctr + 1) % 256);
      assert was + ([c] + rest) == was + [c] + rest;
      calls := calls + [c];
      schar, ctr := p.value.next, (ctr + 1) % 256;
    }
  }

  /** On any input every counter stays below the length of the source. */
  lemma {:induction false} CountersInside(s: bytes, i: nat, ctr: byte, k: nat)
    requires ctr <= i && k < |Unescaped(s, i, ctr)|
    ensures Unescaped(s, i, ctr)[k].index < |s|
    decreases |s| - i
  {
    hide PieceAt;
    if k > 0 { CountersInside(s, PieceAt(s, i).value.next, (ctr + 1) % 256, k - 1); }
  }

  /** A name found: where its text begins and how long it is. */
  datatype Slice = Slice(pos: nat, length: nat)

  /** mdns_find_dot_reverse: the last unescaped dot up to index. */
  function DotBefore(d: bytes, escaped: seq<bool>, index: nat): (p: Option<nat>)
    requires index < |d| == |escaped|
    ensures p.Some? ==> p.value <= index
  {
    if d[index] == DOT && !escaped[index] then Some(index)
    else if index == 0 then None
    else DotBefore(d, escaped, index - 1)
  }

  method FindDotReverse(d: array<byte>, escaped: array<bool>, start: nat) returns (p: Option<nat>)
    requires start < d.Length == escaped.Length
    ensures p == DotBefore(d[..], escaped[..], start)
  {
    var index := start;
    while d[index] != DOT || escaped[index]
      invariant 0 <= index < d.Length && DotBefore(d[..], escaped[..], start) == DotBefore(d[..], escaped[..], index)
      decreases index
    {
      if index == 0 { return None; }
      index := index - 1;
    }
    return Some(index);
  }

  /** strlen, at most to the end of the data. */
  function StrLen(d: bytes, pos: nat): nat
    requires pos <= |d|
  {
    match Find(d, 0, pos) case Some(p) => p - pos case None => |d| - pos
  }

  datatype Scanned = Scanned(data: bytes, names: Option<seq<Slice>>)

  /** The walk back from index with ctr more names to find after the next one. */
  function ScanBack(d: bytes, escaped: seq<bool>, index: nat, ctr: nat): (r: Scanned)
    requires index < |d| == |escaped|
    ensures |r.data| == |d| && forall k :: index < k < |d| ==> r.data[k] == d[k]
    decreases ctr
  {
    match DotBefore(d, escaped, index)
    case None => Scanned(d, if ctr > 0 then None else Some([Slice(0, StrLen(d, 0))]))
    case Some(p) =>
      var name, d2 := Slice(p + 1, StrLen(d, p + 1)), d[p := 0];
      if ctr == 0 || p == 0 then Scanned(d2, Some([name]))
      else
        var rest := ScanBack(d2, escaped, p - 1, ctr - 1);
        rest.(names := if rest.names.None? then None else Some(rest.names.value + [name]))
  }

  /** What the callbacks leave in a zeroed buffer of the given length. */
  function Stored(chars: seq<Char>, buffer: bytes, escaped: seq<bool>): (r: (bytes, seq<bool>))
    requires |buffer| == |escaped| && forall k :: 0 <= k < |chars| ==> chars[k].index < |buffer|
    ensures |r.0| == |r.1| == |buffer|
  {
    if chars == [] then (buffer, escaped)
    else Stored(chars[1..], buffer[chars[0].index := chars[0].value], escaped[chars[0].index := chars[0].escaped])
  }

  function Zeros(n: nat): (bytes, seq<bool>) {
    (seq(n, _ => 0), seq(n, _ => false))
  }

  /** The whole scan: what becomes of the data, and the last count names, or fewer, or none. */
  function ScannedNames(d: bytes, count: nat): (r: Scanned)
    ensures |r.data| == |d|
  {
    var chars := Unescaped(d, 0, 0);
    if count == 0 || chars == [] || chars[|chars| - 1].index < 7 then Scanned(d, None)
    else
      assert forall k :: 0 <= k < |chars| ==> chars[k].index < |d| by {
        forall k | 0 <= k < |chars| ensures chars[k].index < |d| { CountersInside(d, 0, 0, k); }
      }
      var (text, escaped) := Stored(chars, Zeros(|d|).0, Zeros(|d|).1);
      var index := chars[|chars| - 1].index;
      if text[index] != DOT || escaped[index] then Scanned(text, None)
      else ScanBack(text[index := 0], escaped, index - 1, count - 1)
  }

  /** The callbacks of mdns_scan_names: the text, the escape marks, and the last counter. */
  method StoreAll(chars: seq<Char>, buffer: array<byte>, escaped: array<bool>) returns (last: nat)
    requires buffer.Length == escaped.Length && forall k :: 0 <= k < |chars| ==> chars[k].index < buffer.Length
    modifies buffer, escaped
    ensures (buffer[..], escaped[..]) == Stored(chars, old(buffer[..]), old(escaped[..]))
    ensures last == if chars == [] then 0 else chars[|chars| - 1].index
  {
    hide Stored;
    ghost var goal := Stored(chars, buffer[..], escaped[..]);
    last := 0;
    assert chars[0..] == chars;
    for i := 0 to |chars|
      invariant Stored(chars[i..], buffer[..], escaped[..]) == goal
      invariant last == if i == 0 then 0 else chars[i - 1].index
    {
      StoredStep(chars, i, buffer[..], escaped[..]);
      var c := chars[i];
      buffer[c.index] := c.value;
      escaped[c.index] := c.escaped;
      last := c.index;
    }
    StoredEnd(chars[|chars|..], buffer[..], escaped[..]);
  }

  /** The loop that walks back over the dots. */
  method WalkBack(data: array<byte>, escaped: array<bool>, start: nat, more: nat) returns (names: Option<seq<Slice>>)
    requires start < data.Length == escaped.Length
    modifies data
    ensures Scanned(data[..], names) == ScanBack(old(data[..]), escaped[..], start, more)
  {
    hide ScanBack, DotBefore, StrLen;
    ghost var result := ScanBack(data[..], escaped[..], start, more);
    var index: nat, ctr: nat := start, more;
    var found: seq<Slice> := [];
    NothingFound(result.names);
    while true
      invariant index < data.Length
      invariant var rest := ScanBack(data[..], escaped[..], index, ctr);
                result == rest.(names := if rest.names.None? then None else Some(rest.names.value + found))
      decreases ctr
    {
      ghost var now := data[..];
      ScanBackStep(now, escaped[..], index, ctr);
      var p := FindDotReverse(data, escaped, index);
      if p.None? {
        if ctr > 0 { return None; }
        return Some([Slice(0, StrLen(data[..], 0))] + found);
      }
      var name := Slice(p.value + 1, StrLen(data[..], p.value + 1));
      data[p.value] := 0;
      assert data[..] == now[p.value := 0];
      if ctr == 0 || p.value == 0 { return Some([name] + found); }
      Associates(ScanBack(data[..], escaped[..], p.value - 1, ctr - 1).names, name, found);
      found := [name] + found;
      index, ctr := p.value - 1, ctr - 1;
    }
  }

  /** mdns_scan_names; no names stands for its result 0. */
  method ScanNamesIn(data: array<byte>, count: nat) returns (names: Option<seq<Slice>>)
    modifies data
    ensures Scanned(data[..], names) == ScannedNames(old(data[..]), count)
  {
    hide Unescaped, ScanBack, Stored;
    if count == 0 { return None; }
    var length := data.Length;
    var buffer := new byte[length](_ => 0);
    var escaped := new bool[length](_ => false);
    ghost var d := data[..];
    assert buffer[..] == Zeros(length).0 && escaped[..] == Zeros(length).1;
    var chars := Unescape(data[..]);
    forall k | 0 <= k < |chars| ensures chars[k].index < length { CountersInside(d, 0, 0, k); }
    var last := StoreAll(chars, buffer, escaped);
    if last < 7 { return None; }
    ghost var text, marks := buffer[..], escaped[..];
    assert Stored(chars, Zeros(length).0, Zeros(length).1) == (text, marks);
    for i := 0 to length
      invariant data[..i] == text[..i] && buffer[..] == text && escaped[..] == marks
    {
      data[i] := buffer[i];
    }
    assert data[..] == text && data[last] == text[last] && escaped[last] == marks[last];
    if data[last] != DOT || escaped[last] { return None; }
    data[last] := 0;
    assert data[..] == text[last := 0];
    names := WalkBack(data, escaped, last - 1, count - 1);
  }

  lemma NothingFound(names: Option<seq<Slice>>)
    ensures names.Some? ==> names.value + [] == names.value
  {}

  lemma Associates(names: Option<seq<Slice>>, name: Slice, found: seq<Slice>)
    ensures names.Some? ==> names.value + [name] + found == names.value + ([name] + found)
  {}

  lemma ScanBackStep(d: bytes, escaped: seq<bool>, index: nat, ctr: nat)
    requires index < |d| == |escaped|
    ensures
      var p := DotBefore(d, escaped, index);
      ScanBack(d, escaped, index, ctr) ==
        if p.None? then Scanned(d, if ctr > 0 then None else Some([Slice(0, StrLen(d, 0))]))
        else
          var name, d2 := Slice(p.value + 1, StrLen(d, p.value + 1)), d[p.value := 0];
          if ctr == 0 || p.value == 0 then Scanned(d2, Some([name]))
          else
            var rest := ScanBack(d2, escaped, p.value - 1, ctr - 1);
            rest.(names := if rest.names.None? then None else Some(rest.names.value + [name]))
  {}

  lemma {:induction false} StoredStep(chars: seq<Char>, i: nat, buffer: bytes, escaped: seq<bool>)
    requires i < |chars| && |buffer| == |escaped| && forall k :: 0 <= k < |chars| ==> chars[k].index < |buffer|
    ensures Stored(chars[i..], buffer, escaped) ==
            Stored(chars[i + 1..], buffer[chars[i].index := chars[i].value], escaped[chars[i].index := chars[i].escaped])
  {
    assert chars[i..][1..] == chars[i + 1..];
  }

  lemma {:induction false} StoredEnd(chars: seq<Char>, buffer: bytes, escaped: seq<bool>)
    requires chars == [] && |buffer| == |escaped|
    ensures Stored(chars, buffer, escaped) == (buffer, escaped)
  {}

  /** A label as text: octets of any value but zero. */
  predicate Text(x: Label) {
    x != [] && 0 !in x
  }

  predicate TextsOnly(labels: Name) {
    forall i :: 0 <= i < |labels| ==> Text(labels[i])
  }

  /** What a dotted name is made of: octets of labels, and the dots behind them. */
  datatype Unit = Octet(x: byte) | Separator

  function UnitsOf(x: Label): (r: seq<Unit>)
    ensures |r| == |x|
  {
    seq(|x|, k requires 0 <= k < |x| => Octet(x[k]))
  }

  function Units(labels: Name): seq<Unit> {
    if labels == [] then [] else UnitsOf(labels[0]) + [Separator] + Units(labels[1..])
  }

  function ValueOf(u: Unit): byte {
    match u case Octet(x) => x case Separator => DOT
  }

  /** A backslash in a label is doubled; a dot in it is written in octal, or else behind a backslash. */
  function Code(u: Unit, octal: bool): (r: bytes)
    ensures r != []
  {
    match u
    case Separator => [DOT]
    case Octet(x) =>
      if x == BACKSLASH then [BACKSLASH, BACKSLASH]
      else if x != DOT then [x]
      else if octal then [BACKSLASH, 0x30, 0x35, 0x36]
      else [BACKSLASH, DOT]
  }

  function Encoded(units: seq<Unit>, octal: bool): bytes {
    if units == [] then [] else Code(units[0], octal) + Encoded(units[1..], octal)
  }

  /** The source of a name. */
  function EscapedName(labels: Name, octal: bool): bytes {
    Encoded(Units(labels), octal)
  }

  /** The unit comes out as a dot that does not separate. */
  predicate MarkOf(u: Unit, octal: bool) {
    octal && u == Octet(DOT)
  }

  /** The callback for the unit at position k. */
  predicate CallFor(c: Char, u: Unit, octal: bool, k: nat) {
    c.value == ValueOf(u) && c.index == k && c.escaped == MarkOf(u, octal)
  }

  predicate CallsFor(chars: seq<Char>, units: seq<Unit>, octal: bool, from: nat) {
    |chars| == |units| && forall k :: 0 <= k < |chars| ==> CallFor(chars[k], units[k], octal, from + k)
  }

  lemma CodeReads(s: bytes, i: nat, u: Unit, octal: bool)
    requires i + |Code(u, octal)| <= |s| && s[i..i + |Code(u, octal)|] == Code(u, octal)
    requires u.Octet? ==> i + |Code(u, octal)| < |s|
    ensures PieceAt(s, i) == Some(Piece(ValueOf(u), MarkOf(u, octal), i + |Code(u, octal)|))
  {
    var code, n := Code(u, octal), |Code(u, octal)|;
    assert s[i] == s[i..i + n][0] && (n > 1 ==> s[i + 1] == s[i..i + n][1]);
    if u == Octet(DOT) && octal {
      assert s[i + 2] == s[i..i + n][2] && s[i + 3] == s[i..i + n][3];
      assert Octal(s, i + 4, 0, 46) == (46, i + 4);
      assert Octal(s, i + 3, 1, 5) == (46, i + 4);
      assert Octal(s, i + 2, 2, 0) == (46, i + 4);
      assert OctalAt(s, i + 1) == (46, i + 4);
    }
  }

  /** Unescaping undoes the escaping: text, positions, and marks on dots in octal. */
  lemma {:induction false} UnescapedUnits(s: bytes, i: nat, units: seq<Unit>, octal: bool, from: nat)
    requires i <= |s| && s[i..] == Encoded(units, octal) && from + |units| <= 256
    requires units != [] ==> units[|units| - 1].Separator?
    ensures CallsFor(Unescaped(s, i, from % 256), units, octal, from)
    decreases |units|
  {
    hide PieceAt, Code;
    if units != [] {
      var code, rest := Code(units[0], octal), Encoded(units[1..], octal);
      var e := i + |code|;
      assert s[i..] == code + rest;
      assert s[i..e] == s[i..][..|code|] == code;
      assert s[e..] == s[i..][|code|..] == rest;
      if |units| > 1 { EncodedNotEmpty(units[1..], octal); }
      CodeReads(s, i, units[0], octal);
      UnescapedUnits(s, e, units[1..], octal, from + 1);
      NextCounter(from);
    }
  }

  lemma NextCounter(from: nat)
    requires from < 256
    ensures from % 256 == from && (from % 256 + 1) % 256 == (from + 1) % 256
  {}

  lemma {:induction false} EncodedNotEmpty(units: seq<Unit>, octal: bool)
    requires units != []
    ensures Encoded(units, octal) != []
  {}

  /** The units are those of the dotted text. */
  lemma {:induction false} UnitsAreDotted(labels: Name)
    ensures |Units(labels)| == |Dotted(labels)|
    ensures forall k :: 0 <= k < |Units(labels)| ==> ValueOf(Units(labels)[k]) == Dotted(labels)[k]
    ensures labels != [] ==> Units(labels) != [] && Units(labels)[|Units(labels)| - 1].Separator?
    decreases labels
  {
    if labels != [] { UnitsAreDotted(labels[1..]); }
  }

  /** Text and marks begin with those of the units. */
  predicate Holds(text: bytes, marks: seq<bool>, units: seq<Unit>, octal: bool) {
    && |units| <= |text| == |marks|
    && forall k :: 0 <= k < |units| ==> text[k] == ValueOf(units[k]) && marks[k] == MarkOf(units[k], octal)
  }

  lemma {:induction false} StoredUnits(chars: seq<Char>, i: nat, buffer: bytes, escaped: seq<bool>, units: seq<Unit>, octal: bool)
    requires i <= |units| <= |buffer| == |escaped| && CallsFor(chars, units, octal, 0) && Holds(buffer, escaped, units[..i], octal)
    ensures var r := Stored(chars[i..], buffer, escaped); Holds(r.0, r.1, units, octal)
    decreases |units| - i
  {
    hide MarkOf, ValueOf;
    if i == |units| {
      StoredEnd(chars[i..], buffer, escaped);
      assert units[..i] == units;
    } else {
      assert CallFor(chars[i], units[i], octal, 0 + i);
      StoredStep(chars, i, buffer, escaped);
      var b2, e2 := buffer[i := chars[i].value], escaped[i := chars[i].escaped];
      assert Holds(b2, e2, units[..i + 1], octal) by {
        forall k | 0 <= k < i + 1 ensures b2[k] == ValueOf(units[k]) && e2[k] == MarkOf(units[k], octal) {
          if k < i { assert units[..i][k] == units[k]; }
        }
      }
      StoredUnits(chars, i + 1, b2, e2, units, octal);
    }
  }

  lemma {:induction false} EncodedSize(units: seq<Unit>, octal: bool)
    ensures |Encoded(units, octal)| >= |units|
  {
    if units != [] { EncodedSize(units[1..], octal); }
  }

  lemma {:induction false} DotBeforeAt(d: bytes, escaped: seq<bool>, index: nat, p: nat)
    requires p <= index < |d| == |escaped| && d[p] == DOT && !escaped[p]
    requires forall k :: p < k <= index ==> d[k] != DOT || escaped[k]
    ensures DotBefore(d, escaped, index) == Some(p)
    decreases index
  {
    if index > p { DotBeforeAt(d, escaped, index - 1, p); }
  }

  lemma {:induction false} NoDotBefore(d: bytes, escaped: seq<bool>, index: nat)
    requires index < |d| == |escaped| && forall k :: 0 <= k <= index ==> d[k] != DOT || escaped[k]
    ensures DotBefore(d, escaped, index).None?
  {
    if index > 0 { NoDotBefore(d, escaped, index - 1); }
  }

  lemma StrLenAt(d: bytes, pos: nat, length: nat)
    requires pos + length < |d| && d[pos + length] == 0 && forall k :: pos <= k < pos + length ==> d[k] != 0
    ensures StrLen(d, pos) == length
  {}

  lemma {:induction false} DottedLast(labels: Name)
    requires labels != []
    ensures var x := labels[|labels| - 1];
            Dotted(labels) == Dotted(labels[..|labels| - 1]) + x + [DOT]
  {
    assert labels == labels[..|labels| - 1] + [labels[|labels| - 1]];
    DottedAppend(labels[..|labels| - 1], labels[|labels| - 1]);
  }

  lemma {:induction false} UnitsLast(labels: Name)
    requires labels != []
    ensures var x := labels[|labels| - 1];
            Units(labels) == Units(labels[..|labels| - 1]) + UnitsOf(x) + [Separator]
    decreases labels
  {
    var x, t := labels[|labels| - 1], labels[..|labels| - 1];
    if t == [] {
      assert Units(labels[1..]) == [];
    } else {
      UnitsLast(labels[1..]);
      assert labels[1..][..|labels| - 2] == t[1..];
    }
  }

  /** d begins with the dotted labels, but with a zero octet for the last dot. */
  ghost predicate Begins(d: bytes, labels: Name) {
    var t := Dotted(labels);
    0 < |t| <= |d| && d[..|t| - 1] == t[..|t| - 1] && d[|t| - 1] == 0
  }

  /** Of its dots those that came from octal are marked. */
  ghost predicate Marked(escaped: seq<bool>, labels: Name, octal: bool) {
    var u := Units(labels);
    |u| <= |escaped| && forall k :: 0 <= k < |u| ==> escaped[k] == MarkOf(u[k], octal)
  }

  /** The texts found. */
  predicate Spells(d: bytes, names: seq<Slice>, labels: Name) {
    |names| == |labels| && forall k :: 0 <= k < |names| ==>
      names[k].pos + names[k].length <= |d| && d[names[k].pos..names[k].pos + names[k].length] == labels[k]
  }

  /** No dot of the label separates. */
  predicate Whole(x: Label, octal: bool) {
    octal || DOT !in x
  }

  /** The last count labels, or all there are, come out whole. */
  predicate LastWhole(labels: Name, octal: bool, count: nat) {
    forall j :: 0 <= j < |labels| && |labels| - count <= j ==> Whole(labels[j], octal)
  }

  /** Where the last label lies in the text of a name. */
  lemma {:induction false} LastInText(labels: Name)
    requires TextsOnly(labels) && labels != []
    ensures
      var x, text, t := labels[|labels| - 1], Dotted(labels), Dotted(labels[..|labels| - 1]);
      && |text| == |t| + |x| + 1 >= 2 && text[|t|..|t| + |x|] == x && text[..|t|] == t && Text(x)
      && (labels[..|labels| - 1] == [] ==> t == []) && (labels[..|labels| - 1] != [] ==> |t| >= 2 && t[|t| - 1] == DOT)
  {
    hide Dotted;
    DottedLast(labels);
    var x, t := labels[|labels| - 1], labels[..|labels| - 1];
    assert Text(x);
    DottedSize(t);
    if t != [] { DottedLast(t); }
  }

  /** The marks of the last label, and of what is before it. */
  lemma LastMarks(escaped: seq<bool>, labels: Name, octal: bool)
    requires labels != [] && Marked(escaped, labels, octal)
    ensures
      var x, t := labels[|labels| - 1], labels[..|labels| - 1];
      var o := |Dotted(t)|;
      && Marked(escaped, t, octal) && o + |x| + 1 == |Dotted(labels)| <= |escaped|
      && (forall k :: o <= k < o + |x| ==> escaped[k] == (octal && x[k - o] == DOT))
      && (t != [] ==> o > 0 && !escaped[o - 1])
  {
    hide Dotted, Units;
    var x, t := labels[|labels| - 1], labels[..|labels| - 1];
    UnitsLast(labels);
    UnitsAreDotted(labels);
    UnitsAreDotted(t);
    DottedLast(labels);
    var u, o := Units(labels), |Dotted(t)|;
    assert forall k :: 0 <= k < o ==> u[k] == Units(t)[k];
    assert forall k :: o <= k < o + |x| ==> u[k] == UnitsOf(x)[k - o];
  }

  /** The last label: where it lies, and what is left when its dot is overwritten. */
  lemma LastLabel(d: bytes, escaped: seq<bool>, labels: Name, octal: bool)
    requires TextsOnly(labels) && labels != [] && Begins(d, labels) && |escaped| == |d|
    requires Marked(escaped, labels, octal) && Whole(labels[|labels| - 1], octal)
    ensures
      var x, n, t := labels[|labels| - 1], |Dotted(labels)|, labels[..|labels| - 1];
      var o := |Dotted(t)|;
      && o + |x| + 1 == n && 2 <= n <= |d| && d[o..o + |x|] == x && StrLen(d, o) == |x|
      && DotBefore(d, escaped, n - 2) == (if t == [] then None else Some(o - 1))
      && (t == [] ==> o == 0) && (t != [] ==> o >= 2 && Begins(d[o - 1 := 0], t)) && Marked(escaped, t, octal)
  {
    hide DotBefore, StrLen, Dotted, TextsOnly, Marked;
    var x, n, t := labels[|labels| - 1], |Dotted(labels)|, labels[..|labels| - 1];
    LastInText(labels);
    LastMarks(escaped, labels, octal);
    var o := |Dotted(t)|;
    SamePart(d, Dotted(labels), n - 1, o, o + |x|);
    assert forall k :: 0 <= k < |x| ==> d[o..o + |x|][k] == x[k];
    assert d[n - 1] == 0 && forall k :: o <= k < n - 1 ==> d[k] == x[k - o];
    StrLenAt(d, o, |x|);
    if t == [] {
      NoDotBefore(d, escaped, n - 2);
    } else {
      SamePart(d, Dotted(labels), n - 1, 0, o);
      assert d[..o] == Dotted(t);
      assert d[o - 1] == d[..o][o - 1] == DOT;
      DotBeforeAt(d, escaped, n - 2, o - 1);
      assert d[o - 1 := 0][..o - 1] == d[..o][..o - 1];
    }
  }

  lemma SamePart(a: bytes, b: bytes, n: nat, i: nat, j: nat)
    requires n <= |a| && n <= |b| && a[..n] == b[..n] && i <= j <= n
    ensures a[i..j] == b[i..j]
  {
    assert a[i..j] == a[..n][i..j] && b[i..j] == b[..n][i..j];
  }

  lemma {:induction false} DottedSize(labels: Name)
    requires TextsOnly(labels)
    ensures |Dotted(labels)| >= 2 * |labels| && (labels == [] ==> Dotted(labels) == [])
  {
    if labels != [] {
      assert Text(labels[0]);
      DottedSize(labels[1..]);
    }
  }

  lemma WholeTail(labels: Name, octal: bool, count: nat)
    requires TextsOnly(labels) && labels != [] && count > 0 && LastWhole(labels, octal, count)
    ensures Whole(labels[|labels| - 1], octal)
    ensures TextsOnly(labels[..|labels| - 1]) && LastWhole(labels[..|labels| - 1], octal, count - 1)
  {}

  /** Walking back finds the last ctr + 1 labels, or that there are fewer. */
  lemma {:induction false} ScanBackFinds(d: bytes, escaped: seq<bool>, labels: Name, octal: bool, ctr: nat)
    requires TextsOnly(labels) && labels != [] && Begins(d, labels) && |escaped| == |d|
    requires Marked(escaped, labels, octal) && LastWhole(labels, octal, ctr + 1)
    ensures 2 <= |Dotted(labels)| <= |d|
    ensures
      var r := ScanBack(d, escaped, |Dotted(labels)| - 2, ctr);
      if ctr < |labels| then r.names.Some? && Spells(r.data, r.names.value, labels[|labels| - 1 - ctr..]) else r.names.None?
    decreases ctr
  {
    hide DotBefore, StrLen, Dotted, TextsOnly, Begins, Spells, ScanBack, Marked, LastWhole, Whole;
    WholeTail(labels, octal, ctr + 1);
    LastLabel(d, escaped, labels, octal);
    var x, n, t := labels[|labels| - 1], |Dotted(labels)|, labels[..|labels| - 1];
    var o := |Dotted(t)|;
    ScanBackStep(d, escaped, n - 2, ctr);
    if t == [] {
      assert labels == [x];
      SpellsOne(d, Slice(o, |x|), x);
      assert labels[0..] == [x];
    } else {
      var d2 := d[o - 1 := 0];
      assert d2[o..o + |x|] == x;
      if ctr == 0 {
        SpellsOne(d2, Slice(o, |x|), x);
        assert labels[|labels| - 1..] == [x];
      } else {
        ScanBackFinds(d2, escaped, t, octal, ctr - 1);
        var rest := ScanBack(d2, escaped, o - 2, ctr - 1);
        assert rest.data[o..o + |x|] == d2[o..o + |x|];
        if ctr < |labels| {
          SpellsMore(rest.data, rest.names.value, t[|t| - 1 - (ctr - 1)..], Slice(o, |x|), x);
          assert labels[|labels| - 1 - ctr..] == t[|t| - 1 - (ctr - 1)..] + [x];
        }
      }
    }
  }

  lemma SpellsOne(d: bytes, name: Slice, x: Label)
    requires name.pos + name.length <= |d| && d[name.pos..name.pos + name.length] == x
    ensures Spells(d, [name], [x])
  {}

  lemma SpellsMore(d: bytes, names: seq<Slice>, labels: Name, name: Slice, x: Label)
    requires Spells(d, names, labels) && name.pos + name.length <= |d| && d[name.pos..name.pos + name.length] == x
    ensures Spells(d, names + [name], labels + [x])
  {}

  lemma {:induction false} NotEmpty(labels: Name)
    ensures Dotted(labels) != [] ==> labels != []
  {}

  /** What the scan walks back over, for a name written with escapes. */
  lemma ScanStarts(labels: Name, octal: bool, count: nat) returns (d: bytes, escaped: seq<bool>)
    requires TextsOnly(labels) && count > 0 && 8 <= |Dotted(labels)| <= 256
    ensures labels != [] && Begins(d, labels) && |escaped| == |d| && Marked(escaped, labels, octal)
    ensures ScannedNames(EscapedName(labels, octal), count) == ScanBack(d, escaped, |Dotted(labels)| - 2, count - 1)
  {
    hide Unescaped, ScanBack, Dotted, Units, Encoded, MarkOf, Stored;
    var s, u := EscapedName(labels, octal), Units(labels);
    NotEmpty(labels);
    UnitsAreDotted(labels);
    assert s[0..] == s;
    UnescapedUnits(s, 0, u, octal, 0);
    EncodedSize(u, octal);
    var chars := Unescaped(s, 0, 0);
    var (zeros, none) := Zeros(|s|);
    assert Holds(zeros, none, u[..0], octal);
    StoredUnits(chars, 0, zeros, none, u, octal);
    assert chars[0..] == chars;
    forall k | 0 <= k < |chars| ensures chars[k].index < |s| { assert CallFor(chars[k], u[k], octal, 0 + k); }
    var n := |u|;
    assert CallFor(chars[n - 1], u[n - 1], octal, 0 + (n - 1));
    var (text, marks) := Stored(chars, zeros, none);
    NoMark(u[n - 1], octal);
    d, escaped := text[n - 1 := 0], marks;
    assert d[..n - 1] == Dotted(labels)[..n - 1];
  }

  lemma NoMark(u: Unit, octal: bool)
    requires u.Separator?
    ensures !MarkOf(u, octal)
  {}

  /** The last count labels are found, in order, when they come out whole; when there are fewer, none are. */
  lemma {:induction false} WholeNamesFound(labels: Name, octal: bool, count: nat)
    requires TextsOnly(labels) && count > 0 && 8 <= |Dotted(labels)| <= 256 && LastWhole(labels, octal, count)
    ensures
      var r := ScannedNames(EscapedName(labels, octal), count);
      if count <= |labels| then r.names.Some? && Spells(r.data, r.names.value, labels[|labels| - count..]) else r.names.None?
  {
    hide *;
    var d, escaped := ScanStarts(labels, octal, count);
    ScanBackFinds(d, escaped, labels, octal, count - 1);
  }

  /** With dots in octal the labels of any name of 8 to 256 octets are recovered. */
  lemma {:induction false} OctalNamesFound(labels: Name, count: nat)
    requires TextsOnly(labels) && count > 0 && 8 <= |Dotted(labels)| <= 256
    ensures
      var r := ScannedNames(EscapedName(labels, true), count);
      if count <= |labels| then r.names.Some? && Spells(r.data, r.names.value, labels[|labels| - count..]) else r.names.None?
  {
    hide ScannedNames, Spells, Dotted, EscapedName;
    WholeNamesFound(labels, true, count);
  }

  /** The texts found, when no dot is marked, have none. */
  predicate NoDots(d: bytes, names: seq<Slice>) {
    forall k, n :: 0 <= k < |names| && names[k].pos <= n < names[k].pos + names[k].length && n < |d| ==> d[n] != DOT
  }

  lemma {:induction false} UnmarkedDots(d: bytes, escaped: seq<bool>, index: nat)
    requires index < |d| == |escaped| && forall k :: 0 <= k <= index ==> !escaped[k]
    ensures var p := DotBefore(d, escaped, index);
      forall k :: (if p.Some? then p.value < k else 0 <= k) && k <= index ==> d[k] != DOT
  {
    if d[index] != DOT && index > 0 { UnmarkedDots(d, escaped, index - 1); }
  }

  lemma StrLenStops(d: bytes, pos: nat, zero: nat)
    requires pos <= zero < |d| && d[zero] == 0
    ensures pos + StrLen(d, pos) <= zero
  {}

  /** Whatever is found by a walk back from a zero octet over unmarked dots has no dot. */
  lemma {:induction false} ScanBackNoDots(d: bytes, escaped: seq<bool>, index: nat, ctr: nat)
    requires index + 1 < |d| == |escaped| && d[index + 1] == 0 && forall k :: 0 <= k <= index ==> !escaped[k]
    ensures var r := ScanBack(d, escaped, index, ctr); r.names.Some? ==> NoDots(r.data, r.names.value)
    decreases ctr
  {
    hide DotBefore, StrLen, ScanBack;
    ScanBackStep(d, escaped, index, ctr);
    UnmarkedDots(d, escaped, index);
    var p := DotBefore(d, escaped, index);
    var from := if p.Some? then p.value + 1 else 0;
    StrLenStops(d, from, index + 1);
    if p.Some? && ctr > 0 && p.value > 0 {
      ScanBackNoDots(d[p.value := 0], escaped, p.value - 1, ctr - 1);
    }
  }

  lemma SpelledNoDots(d: bytes, names: seq<Slice>, labels: Name, k: nat)
    requires Spells(d, names, labels) && NoDots(d, names) && k < |labels|
    ensures DOT !in labels[k]
  {
    var s := d[names[k].pos..names[k].pos + names[k].length];
    forall n | 0 <= n < |s| ensures s[n] != DOT { assert s[n] == d[names[k].pos + n]; }
  }

  lemma {:induction false} NothingMarked(escaped: seq<bool>, labels: Name)
    requires Marked(escaped, labels, false)
    ensures |Dotted(labels)| <= |escaped| && forall k :: 0 <= k < |Dotted(labels)| ==> !escaped[k]
  {
    UnitsAreDotted(labels);
  }

  /**
   With a backslash before each dot of a label, names of 8 to 256 octets after unescaping: the last count labels are
   found if and only if none of them contains a dot.
   */
  lemma {:induction false} BackslashNamesExactly(labels: Name, count: nat)
    requires TextsOnly(labels) && 0 < count <= |labels| && 8 <= |Dotted(labels)| <= 256
    ensures
      var r := ScannedNames(EscapedName(labels, false), count);
      (r.names.Some? && Spells(r.data, r.names.value, labels[|labels| - count..]))
      <==> forall j :: |labels| - count <= j < |labels| ==> DOT !in labels[j]
  {
    hide *;
    var r := ScannedNames(EscapedName(labels, false), count);
    var last := labels[|labels| - count..];
    var d, escaped := ScanStarts(labels, false, count);
    NothingMarked(escaped, labels);
    BeginsBeforeZero(d, labels);
    ScanBackNoDots(d, escaped, |Dotted(labels)| - 2, count - 1);
    if r.names.Some? && Spells(r.data, r.names.value, last) {
      forall j | |labels| - count <= j < |labels| ensures DOT !in labels[j] {
        SpelledNoDots(r.data, r.names.value, last, j - (|labels| - count));
      }
    }
    if forall j :: |labels| - count <= j < |labels| ==> DOT !in labels[j] {
      DotlessWhole(labels, count);
      WholeNamesFound(labels, false, count);
    }
  }

  lemma {:induction false} BeginsBeforeZero(d: bytes, labels: Name)
    requires Begins(d, labels)
    ensures 0 < |Dotted(labels)| <= |d| && d[|Dotted(labels)| - 1] == 0
  {}

  lemma DotlessWhole(labels: Name, count: nat)
    requires forall j :: |labels| - count <= j < |labels| && 0 <= j ==> DOT !in labels[j]
    ensures LastWhole(labels, false, count)
  {}

  /** A label that reads as it is written. */
  predicate PlainLabel(x: Label) {
    Text(x) && DOT !in x && BACKSLASH !in x
  }

  predicate PlainName(labels: Name) {
    forall i :: 0 <= i < |labels| ==> PlainLabel(labels[i])
  }

  lemma {:induction false} EncodedPlain(units: seq<Unit>)
    requires forall k :: 0 <= k < |units| ==> units[k].Octet? ==> units[k].x != DOT && units[k].x != BACKSLASH
    ensures |Encoded(units, false)| == |units| && forall k :: 0 <= k < |units| ==> Encoded(units, false)[k] == ValueOf(units[k])
  {
    if units != [] { EncodedPlain(units[1..]); }
  }

  lemma {:induction false} PlainUnits(labels: Name, k: nat)
    requires PlainName(labels) && k < |Units(labels)|
    ensures Units(labels)[k].Octet? ==> Units(labels)[k].x != DOT && Units(labels)[k].x != BACKSLASH
    decreases labels
  {
    assert PlainLabel(labels[0]);
    if k > |labels[0]| { PlainUnits(labels[1..], k - |labels[0]| - 1); }
  }

  /** Plain labels need no escapes. */
  lemma {:induction false} PlainAsWritten(labels: Name)
    requires PlainName(labels)
    ensures EscapedName(labels, false) == Dotted(labels)
  {
    hide Units, Dotted, Encoded;
    var u := Units(labels);
    forall k | 0 <= k < |u| ensures u[k].Octet? ==> u[k].x != DOT && u[k].x != BACKSLASH { PlainUnits(labels, k); }
    EncodedPlain(u);
    UnitsAreDotted(labels);
  }

  /**
   A dotted name of 8 to 256 octets with plain labels: when it has at least count labels, the last count of them
   are found, in order; when it has fewer, none are.
   */
  lemma {:induction false} PlainNamesFound(labels: Name, count: nat)
    requires PlainName(labels) && count > 0 && 8 <= |Dotted(labels)| <= 256
    ensures
      var r := ScannedNames(Dotted(labels), count);
      if count <= |labels| then r.names.Some? && Spells(r.data, r.names.value, labels[|labels| - count..]) else r.names.None?
  {
    hide ScannedNames, Spells, Dotted, EscapedName;
    PlainAsWritten(labels);
    assert TextsOnly(labels) && LastWhole(labels, false, count) by {
      forall i | 0 <= i < |labels| ensures Text(labels[i]) && DOT !in labels[i] { assert PlainLabel(labels[i]); }
    }
    WholeNamesFound(labels, false, count);
  }

  /** A dot at the very beginning ends the walk: whatever was found by then is the result, even if it is too few. */
  lemma {:induction false} LeadingDotEnds(d: bytes, escaped: seq<bool>, index: nat, ctr: nat)
    requires index < |d| == |escaped| && d[0] == 0x2E && !escaped[0]
    ensures var r := ScanBack(d, escaped, index, ctr); r.names.Some? && 0 < |r.names.value| <= ctr + 1
    ensures (forall k :: 0 < k <= index ==> d[k] != 0x2E || escaped[k]) ==>
              |ScanBack(d, escaped, index, ctr).names.value| == 1
    decreases ctr
  {
    hide StrLen, ScanBack;
    ScanBackStep(d, escaped, index, ctr);
    DotFound(d, escaped, index);
    var p := DotBefore(d, escaped, index).value;
    if ctr > 0 && p > 0 { LeadingDotEnds(d[p := 0], escaped, p - 1, ctr - 1); }
  }

  lemma {:induction false} DotFound(d: bytes, escaped: seq<bool>, index: nat)
    requires index < |d| == |escaped| && d[0] == 0x2E && !escaped[0]
    ensures DotBefore(d, escaped, index).Some?
    ensures var p := DotBefore(d, escaped, index).value; d[p] == 0x2E && !escaped[p]
  {
    if index > 0 && (d[index] != DOT || escaped[index]) { DotFound(d, escaped, index - 1); }
  }

  lemma {:induction false} IndexCounts(s: bytes, i: nat, ctr: byte, k: nat)
    requires k < |Unescaped(s, i, ctr)|
    ensures Unescaped(s, i, ctr)[k].index == (ctr + k) % 256
    decreases |s| - i
  {
    hide PieceAt;
    if k > 0 {
      IndexCounts(s, PieceAt(s, i).value.next, (ctr + 1) % 256, k - 1);
      CounterOn(ctr, k);
    }
  }

  lemma CounterOn(ctr: int, k: nat)
    ensures ((ctr + 1) % 256 + (k - 1)) % 256 == (ctr + k) % 256
  {}

  /** Callback k stores its character at k, when there are no more than 256. */
  lemma {:induction false} StoredInPlace(chars: seq<Char>, buffer: bytes, escaped: seq<bool>, from: nat, k: nat)
    requires k < |chars| && |buffer| == |escaped| && from + |chars| <= |buffer|
    requires forall j :: 0 <= j < |chars| ==> chars[j].index == from + j
    ensures var r := Stored(chars, buffer, escaped); r.0[from + k] == chars[k].value && r.1[from + k] == chars[k].escaped
    decreases |chars|
  {
    var b2, e2 := buffer[chars[0].index := chars[0].value], escaped[chars[0].index := chars[0].escaped];
    forall j | 0 <= j < |chars| - 1 ensures chars[1..][j].index == from + 1 + j {}
    if k > 0 {
      StoredInPlace(chars[1..], b2, e2, from + 1, k - 1);
    } else {
      StoredBelow(chars[1..], b2, e2, from + 1, from);
    }
  }

  lemma {:induction false} StoredBelow(chars: seq<Char>, buffer: bytes, escaped: seq<bool>, from: nat, k: nat)
    requires k < from && |buffer| == |escaped| && from + |chars| <= |buffer|
    requires forall j :: 0 <= j < |chars| ==> chars[j].index == from + j
    ensures var r := Stored(chars, buffer, escaped); r.0[k] == buffer[k] && r.1[k] == escaped[k]
    decreases |chars|
  {
    if chars != [] {
      forall j | 0 <= j < |chars| - 1 ensures chars[1..][j].index == from + 1 + j {}
      StoredBelow(chars[1..], buffer[chars[0].index := chars[0].value], escaped[chars[0].index := chars[0].escaped], from + 1, k);
    }
  }

  lemma {:induction false} UnescapedShorter(s: bytes, i: nat, ctr: byte)
    requires i <= |s|
    ensures |Unescaped(s, i, ctr)| <= |s| - i
    decreases |s| - i
  {
    hide PieceAt;
    if i < |s| && PieceAt(s, i).Some? { UnescapedShorter(s, PieceAt(s, i).value.next, (ctr + 1) % 256); }
  }

  /** Nothing is found in fewer than 8 characters, and nothing without a dot at the end that is not marked. */
  lemma {:induction false} ScanNeeds(d: bytes, count: nat)
    requires |Unescaped(d, 0, 0)| <= 256
    ensures var chars := Unescaped(d, 0, 0);
      ScannedNames(d, count).names.Some? ==>
        count > 0 && |chars| >= 8 && chars[|chars| - 1].value == 0x2E && !chars[|chars| - 1].escaped
  {
    hide Unescaped, ScanBack, Stored;
    var chars := Unescaped(d, 0, 0);
    forall k | 0 <= k < |chars| ensures chars[k].index == k { IndexCounts(d, 0, 0, k); }
    UnescapedShorter(d, 0, 0);
    if |chars| >= 8 { StoredInPlace(chars, Zeros(|d|).0, Zeros(|d|).1, 0, |chars| - 1); }
  }
}
