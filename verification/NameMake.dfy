/**
 Writing names with message compression (section 4.1.4 of RFC 1035): mdns_string_make and its ring
 of remembered offsets in lib/dnssd/mdns.h. The methods work in place on the message buffer and on
 the ring; the functions give their effect on values.
 */
module NameMake {
  import opened Bytes
  import opened NameWalk

  const TABLE_CAPACITY: nat := 16

  /** The value of a string table: the ring, how many of its slots are in use, and the next one to
      fill. The ring is full before a slot is used twice. */
  datatype Table = Table(offset: seq<nat>, count: nat, next: nat) {
    predicate Valid() {
      && |offset| == TABLE_CAPACITY && count <= TABLE_CAPACITY && next < TABLE_CAPACITY
      && (count < TABLE_CAPACITY ==> next == count)
    }

    function Add(o: nat): Table
      requires Valid()
    {
      Table(offset[next := o], Min(count + 1, TABLE_CAPACITY), if next + 1 >= TABLE_CAPACITY then 0 else next + 1)
    }
  }

  function EmptyTable(): (t: Table)
    ensures t.Valid() && t.count == 0
  {
    Table(seq(TABLE_CAPACITY, _ => 0), 0, 0)
  }

  /** mdns_string_make reads the last octet of its argument, so there has to be one. */
  type NonEmpty = s: bytes | |s| > 0 witness [DOT]

  class StringTable {
    const offset: array<nat>
    var count: nat
    var next: nat

    ghost predicate Valid()
      reads this
    {
      && offset.Length == TABLE_CAPACITY && count <= TABLE_CAPACITY && next < TABLE_CAPACITY
      && (count < TABLE_CAPACITY ==> next == count)
    }

    ghost function Value(): (t: Table)
      requires Valid()
      reads this, offset
      ensures t.Valid()
    {
      Table(offset[..], count, next)
    }

    constructor ()
      ensures Valid() && fresh(offset)
      ensures Value() == EmptyTable()
    {
      offset := new nat[TABLE_CAPACITY](_ => 0);
      count, next := 0, 0;
    }
  }

  ghost function View(table: StringTable?): (t: Option<Table>)
    requires table != null ==> table.Valid()
    reads table, if table == null then {} else {table.offset}
    ensures t.Some? ==> t.value.Valid()
  {
    if table == null then None else Some(table.Value())
  }

  function Remember(table: Option<Table>, o: nat): Option<Table>
    requires table.Some? ==> table.value.Valid()
  {
    if table.None? then None else Some(table.value.Add(o))
  }

  /** Remembers o in the next slot of the ring, over whatever was there. */
  method TableAdd(table: StringTable?, o: nat)
    requires table != null ==> table.Valid()
    modifies table, if table == null then {} else {table.offset}
    ensures table != null ==> table.Valid()
    ensures View(table) == Remember(old(View(table)), o)
  {
    if table == null { return; }
    table.offset[table.next] := o;
    table.count := table.count + 1;
    if table.count > TABLE_CAPACITY { table.count := TABLE_CAPACITY; }
    table.next := table.next + 1;
    if table.next >= TABLE_CAPACITY { table.next := 0; }
  }

  function LabelEnd(str: bytes, from: nat): (r: nat)
    requires from < |str|
    ensures from <= r <= |str|
  {
    match Find(str, DOT, from) case Some(p) => p case None => |str|
  }

  /** The labels of dotted text; a dot at its very end opens no further label. */
  function Split(str: bytes, from: nat): Name
    decreases |str| - from
  {
    if from >= |str| then [] else [str[from..LabelEnd(str, from)]] + Split(str, LabelEnd(str, from) + 1)
  }

  function Trimmed(name: NonEmpty): bytes {
    if name[|name| - 1] == DOT then name[..|name| - 1] else name
  }

  function LabelsOf(name: NonEmpty): Name {
    Split(Trimmed(name), 0)
  }

  /** The labels at o begin with the given ones. */
  predicate Matches(b: bytes, o: nat, labels: Name)
    decreases labels
  {
    labels == [] ||
    var s := NextSubstring(b, o);
    && s.Sub? && s.length > 0 && s.length == |labels[0]|
    && b[s.offset..s.offset + s.length] == labels[0]
    && Matches(b, s.offset + s.length, labels[1..])
  }

  /** The first remembered offset, from slot i on, whose labels begin with the given ones. */
  function FindRef(t: Table, b: bytes, labels: Name, i: nat): Option<nat>
    requires t.Valid()
    decreases t.count - i
  {
    if i >= t.count then None
    else if t.offset[i] < |b| && Matches(b, t.offset[i], labels) then Some(t.offset[i])
    else FindRef(t, b, labels, i + 1)
  }

  function Lookup(table: Option<Table>, b: bytes, labels: Name): Option<nat>
    requires table.Some? ==> table.value.Valid()
  {
    if table.None? then None else FindRef(table.value, b, labels, 0)
  }

  method TableFind(table: StringTable?, buffer: array<byte>, str: bytes, from: nat, firstLength: nat)
    returns (r: Option<nat>)
    requires table != null ==> table.Valid()
    requires from < |str| && firstLength == LabelEnd(str, from) - from
    ensures r == Lookup(View(table), buffer[..], Split(str, from))
  {
    hide Matches, NextSubstring;
    if table == null { return None; }
    ghost var b, t, labels := buffer[..], table.Value(), Split(str, from);
    assert buffer[..buffer.Length] == b;
    for istr := 0 to table.count
      invariant FindRef(t, b, labels, 0) == FindRef(t, b, labels, istr)
    {
      var o := table.offset[istr];
      if o >= buffer.Length { continue; }
      var sub := GetNextSubstring(buffer, buffer.Length, o);
      MatchesFirst(b, o, labels);
      if sub.Invalid? || sub.length == 0 || sub.length != firstLength { continue; }
      if str[from..from + firstLength] != buffer[sub.offset..sub.offset + sub.length] { continue; }
      var found := RestMatches(buffer, sub.offset + sub.length, str, from + firstLength + 1);
      if found { return Some(o); }
    }
    return None;
  }

  lemma MatchesFirst(b: bytes, o: nat, labels: Name)
    requires labels != []
    ensures
      var s := NextSubstring(b, o);
      Matches(b, o, labels) <==>
        && s.Sub? && s.length > 0 && s.length == |labels[0]|
        && b[s.offset..s.offset + s.length] == labels[0]
        && Matches(b, s.offset + s.length, labels[1..])
  {}

  lemma {:induction false} MatchesAll(b: bytes, o: nat)
    ensures Matches(b, o, [])
  {}

  /** The inner loop of the search: the labels of str from position from on against those at start. */
  method RestMatches(buffer: array<byte>, start: nat, str: bytes, from: nat) returns (found: bool)
    ensures found == Matches(buffer[..], start, Split(str, from))
  {
    hide Matches, NextSubstring;
    ghost var b := buffer[..];
    assert buffer[..buffer.Length] == b;
    var cur, offset := start, from;
    while offset < |str|
      invariant cur >= 0 && offset >= 0
      invariant Matches(b, start, Split(str, from)) == Matches(b, cur, Split(str, offset))
      decreases |str| - offset
    {
      var dot := LabelEnd(str, offset);
      var sub := GetNextSubstring(buffer, buffer.Length, cur);
      MatchesFirst(b, cur, Split(str, offset));
      if sub.Invalid? || sub.length == 0 || sub.length != dot - offset { return false; }
      if str[offset..dot] != buffer[sub.offset..sub.offset + sub.length] { return false; }
      cur, offset := sub.offset + sub.length, dot + 1;
    }
    MatchesAll(b, cur);
    return true;
  }

  /** The state a name leaves behind: buffer, table, and the position behind it unless it did not fit. */
  datatype Made = Made(buf: bytes, table: Option<Table>, end: Option<nat>)

  /** The reference octets: 0xC000 or'ed with the low 16 bits of the target. */
  function RefBytes(target: nat): (r: bytes)
    ensures |r| == 2
  {
    Put16(0xC000 + target % 0x4000)
  }

  /** What mdns_string_make does with the labels of a name at pos. */
  function MakeName(b: bytes, pos: nat, labels: Name, table: Option<Table>): (m: Made)
    requires pos <= |b| && (table.Some? ==> table.value.Valid())
    ensures |m.buf| == |b| && (m.table.Some? <==> table.Some?) && (m.table.Some? ==> m.table.value.Valid())
    ensures m.end.Some? ==> pos < m.end.value <= |b|
    decreases labels
  {
    if labels == [] then
      if pos == |b| then Made(b, table, None) else Made(b[pos := 0], table, Some(pos + 1))
    else match Lookup(table, b, labels)
      case Some(target) =>
        if |b| - pos < 2 then Made(b, table, None)
        else Made(Splice(b, pos, RefBytes(target)), table, Some(pos + 2))
      case None =>
        var text := labels[0];
        if |b| - pos <= |text| + 1 then Made(b, table, None)
        else
          MakeName(Splice(b, pos, [|text| % 256] + text), pos + 1 + |text|, labels[1..], Remember(table, pos))
  }

  lemma FrameJoins(b: bytes, b2: bytes, b3: bytes, pos: nat, pos2: nat)
    requires pos <= pos2 <= |b| == |b2| == |b3| && b3[..pos2] == b2[..pos2]
    requires forall k :: 0 <= k < pos ==> b2[k] == b[k]
    ensures b3[..pos] == b[..pos]
  {
    assert b3[..pos] == b3[..pos2][..pos] && b2[..pos] == b2[..pos2][..pos];
  }

  /** Nothing in front of the name changes. */
  lemma {:induction false} MakeNameFrame(b: bytes, pos: nat, labels: Name, table: Option<Table>)
    requires pos <= |b| && (table.Some? ==> table.value.Valid())
    ensures MakeName(b, pos, labels, table).buf[..pos] == b[..pos]
    decreases labels
  {
    hide Lookup, Splice, RefBytes;
    if labels != [] && Lookup(table, b, labels) == None && pos + |labels[0]| + 1 < |b| {
      var x := labels[0];
      var b2 := Splice(b, pos, [|x| % 256] + x);
      MakeNameFrame(b2, pos + 1 + |x|, labels[1..], Remember(table, pos));
      FrameJoins(b, b2, MakeName(b, pos, labels, table).buf, pos, pos + 1 + |x|);
    }
  }

  method MakeRef(buffer: array<byte>, data: nat, target: nat) returns (end: Option<nat>)
    requires data <= buffer.Length
    modifies buffer
    ensures if buffer.Length - data < 2 then end == None && buffer[..] == old(buffer[..])
            else end == Some(data + 2) && buffer[..] == Splice(old(buffer[..]), data, RefBytes(target))
  {
    if buffer.Length - data < 2 { return None; }
    var value := 0xC000 + target % 0x4000;
    buffer[data], buffer[data + 1] := value / 256 % 256, value % 256;
    return Some(data + 2);
  }

  lemma SplitStep(str: bytes, from: nat)
    requires from < |str|
    ensures var pos := LabelEnd(str, from);
            Split(str, from) == [str[from..pos]] + Split(str, if pos < |str| then pos + 1 else |str|)
  {}

  lemma {:induction false} SplitEnd(str: bytes)
    ensures Split(str, |str|) == []
  {}

  /** One turn of the loop: a reference, no room, or a label and the rest of the name. */
  lemma MakeNameStep(b: bytes, pos: nat, labels: Name, table: Option<Table>)
    requires pos <= |b| && labels != [] && (table.Some? ==> table.value.Valid())
    ensures MakeName(b, pos, labels, table) ==
      match Lookup(table, b, labels)
      case Some(target) =>
        if |b| - pos < 2 then Made(b, table, None)
        else Made(Splice(b, pos, RefBytes(target)), table, Some(pos + 2))
      case None =>
        if |b| - pos <= |labels[0]| + 1 then Made(b, table, None)
        else MakeName(Splice(b, pos, [|labels[0]| % 256] + labels[0]), pos + 1 + |labels[0]|, labels[1..],
                      Remember(table, pos))
  {}

  lemma {:induction false} MakeNameEnd(b: bytes, pos: nat, table: Option<Table>)
    requires pos <= |b| && (table.Some? ==> table.value.Valid())
    ensures MakeName(b, pos, [], table) ==
      if pos == |b| then Made(b, table, None) else Made(b[pos := 0], table, Some(pos + 1))
  {}

  /** Appends name at data, through the ring of remembered labels; None when it does not fit. */
  method Make(buffer: array<byte>, start: nat, name: NonEmpty, table: StringTable?) returns (end: Option<nat>)
    requires start <= buffer.Length
    requires table != null ==> table.Valid() && table.offset as object != buffer
    modifies buffer, table, if table == null then {} else {table.offset}
    ensures table != null ==> table.Valid()
    ensures MakeName(old(buffer[..]), start, LabelsOf(name), old(View(table))) == Made(buffer[..], View(table), end)
  {
    hide Lookup, Remember, View, Splice, Split, RefBytes, MakeName, StringTable.Valid, Find, LabelEnd;
    ghost var goal := MakeName(buffer[..], start, LabelsOf(name), View(table));
    var length := if name[|name| - 1] == DOT then |name| - 1 else |name|;
    var str := name[..length];
    assert str == Trimmed(name);
    SplitEnd(str);
    var data, lastPos: nat := start, 0;
    while lastPos < length
      invariant start <= data <= buffer.Length && lastPos <= length
      invariant table != null ==> table.Valid()
      invariant goal == MakeName(buffer[..], data, Split(str, lastPos), View(table))
      decreases length - lastPos
    {
      var pos := LabelEnd(str, lastPos);
      var subLength := pos - lastPos;
      SplitStep(str, lastPos);
      ghost var b, t := buffer[..], View(table);
      MakeNameStep(b, data, Split(str, lastPos), t);
      var target := TableFind(table, buffer, str, lastPos, subLength);
      if target.Some? {
        end := MakeRef(buffer, data, target.value);
        return;
      }
      if buffer.Length - data <= subLength + 1 { return None; }
      AppendLabel(buffer, data, str[lastPos..pos], table);
      data := data + subLength + 1;
      lastPos := if pos < length then pos + 1 else length;
    }
    MakeNameEnd(buffer[..], data, View(table));
    if data == buffer.Length { return None; }
    ghost var before := buffer[..];
    buffer[data] := 0;
    assert buffer[..] == before[data := 0];
    return Some(data + 1);
  }

  /** Writes a label behind its length octet, truncated as the source's cast does, and remembers where it is. */
  method AppendLabel(buffer: array<byte>, data: nat, text: bytes, table: StringTable?)
    requires data + 1 + |text| <= buffer.Length
    requires table != null ==> table.Valid() && table.offset as object != buffer
    modifies buffer, table, if table == null then {} else {table.offset}
    ensures table != null ==> table.Valid()
    ensures buffer[..] == Splice(old(buffer[..]), data, [|text| % 256] + text)
    ensures View(table) == Remember(old(View(table)), data)
  {
    hide Splice, Remember;
    Copy(buffer, data, [|text| % 256] + text);
    TableAdd(table, data);
  }
}
