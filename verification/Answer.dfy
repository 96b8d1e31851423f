/**
 Building an answer: mdns_answer_multicast_rclass_ttl and the functions it calls, in place on the
 message buffer. The functions give the effect of the methods on values.
 */
module Answer {
  import opened Bytes
  import opened NameWalk
  import opened NameMake

  const TYPE_A: u16 := 1
  const TYPE_PTR: u16 := 12
  const TYPE_TXT: u16 := 16
  const TYPE_AAAA: u16 := 28
  const TYPE_SRV: u16 := 33
  const CACHE_FLUSH: u16 := 0x8000
  const EQUALS: byte := 0x3D
  const HEADER_SIZE: nat := 12

  type Octets4 = x: bytes | |x| == 4 witness [0, 0, 0, 0]
  type Octets16 = x: bytes | |x| == 16 witness seq(16, _ => 0)

  /** Any other record type: its records carry no data. */
  type OtherCode = c: u16 | c != TYPE_A && c != TYPE_PTR && c != TYPE_TXT && c != TYPE_AAAA && c != TYPE_SRV

  datatype Data =
    | Address4(octets: Octets4)
    | Pointer(target: NonEmpty)
    | Text(key: bytes, value: bytes)
    | Address6(octets6: Octets16)
    | Service(priority: u16, weight: u16, port: u16, host: NonEmpty)
    | Other(code: OtherCode)

  datatype Record = Record(name: NonEmpty, data: Data, rclass: u16, ttl: u32)

  function TypeOf(d: Data): u16 {
    match d
    case Address4(_) => TYPE_A
    case Pointer(_) => TYPE_PTR
    case Text(_, _) => TYPE_TXT
    case Address6(_) => TYPE_AAAA
    case Service(_, _, _, _) => TYPE_SRV
    case Other(code) => code
  }

  /** mdns_record_update_rclass_ttl: only the IN and cache-flush bits stay, the latter never in a PTR record. */
  function Updated(r: Record, rclass: u16, ttl: u32): Record {
    var c := if r.rclass == 0 then rclass else r.rclass;
    var flush := if c >= CACHE_FLUSH && !r.data.Pointer? then CACHE_FLUSH else 0;
    r.(rclass := flush + c % 2, ttl := if r.ttl == 0 || ttl == 0 then ttl else r.ttl)
  }

  /** The fields between the name and the data of a record. */
  function Fixed(rtype: u16, rclass: u16, ttl: u32, length: nat): (f: bytes)
    ensures |f| == 10
  {
    Put16(rtype) + Put16(rclass) + Put32(ttl) + Put16(length)
  }

  predicate Usable(b: bytes, pos: nat, t: Option<Table>) {
    pos <= |b| && (t.Some? ==> t.value.Valid())
  }

  /** A state that can be built on. */
  predicate Sane(m: Made, b: bytes, pos: nat, t: Option<Table>) {
    && |m.buf| == |b| && (m.table.Some? <==> t.Some?) && (m.table.Some? ==> m.table.value.Valid())
    && (m.end.Some? ==> pos <= m.end.value <= |b|)
  }

  function AddHeader(b: bytes, pos: nat, r: Record, t: Option<Table>): (h: Made)
    requires Usable(b, pos, t)
    ensures Sane(h, b, pos, t) && (h.end.Some? ==> pos + 10 < h.end.value)
  {
    var m := MakeName(b, pos, LabelsOf(r.name), t);
    if m.end.None? then m
    else if |b| - m.end.value < 10 then m.(end := None)
    else m.(buf := Splice(m.buf, m.end.value, Fixed(TypeOf(r.data), r.rclass, r.ttl, 0)), end := Some(m.end.value + 10))
  }

  function AddOctets(b: bytes, pos: nat, x: bytes, t: Option<Table>): (m: Made)
    requires Usable(b, pos, t)
    ensures Sane(m, b, pos, t)
  {
    if |b| - pos < |x| then Made(b, t, None) else Made(Splice(b, pos, x), t, Some(pos + |x|))
  }

  function AddData(b: bytes, pos: nat, d: Data, t: Option<Table>): (m: Made)
    requires Usable(b, pos, t) && !d.Text?
    ensures Sane(m, b, pos, t)
  {
    match d
    case Address4(x) => AddOctets(b, pos, x, t)
    case Pointer(target) => MakeName(b, pos, LabelsOf(target), t)
    case Address6(x) => AddOctets(b, pos, x, t)
    case Service(priority, weight, port, host) =>
      if |b| - pos <= 6 then Made(b, t, None)
      else MakeName(Splice(b, pos, Put16(priority) + Put16(weight) + Put16(port)), pos + 6, LabelsOf(host), t)
    case Other(_) => Made(b, t, Some(pos))
  }

  /** Stores how far the data that began at start has come in the length field before it. */
  function Patch(b: bytes, start: nat, end: nat): (r: bytes)
    requires 2 <= start <= end <= |b|
    ensures |r| == |b|
  {
    Splice(b, start - 2, Put16(end - start))
  }

  /** mdns_answer_add_record: TXT records are left for later. */
  function AddRecord(b: bytes, pos: nat, r: Record, t: Option<Table>): (m: Made)
    requires Usable(b, pos, t)
    ensures Sane(m, b, pos, t)
  {
    if r.data.Text? then Made(b, t, Some(pos))
    else
      var h := AddHeader(b, pos, r, t);
      if h.end.None? then h
      else
        var m := AddData(h.buf, h.end.value, r.data, h.table);
        if m.end.None? then m else m.(buf := Patch(m.buf, h.end.value, m.end.value))
  }

  function TextString(key: bytes, value: bytes): (s: bytes)
    ensures |s| == |key| + |value| + 2
  {
    [(|key| + |value| + 1) % 256] + key + [EQUALS] + value
  }

  predicate TextFits(b: bytes, pos: nat, key: bytes, value: bytes) {
    pos + |key| + |value| + 1 < |b| && |key| + |value| + 1 <= 0x3FFF
  }

  /** mdns_answer_add_txt_record: the strings of all TXT records in one, begun at start if any were written yet. */
  function AddTexts(b: bytes, pos: nat, records: seq<Record>, rclass: u16, ttl: u32, t: Option<Table>,
                    start: Option<nat>): (m: Made)
    requires Usable(b, pos, t) && (start.Some? ==> 2 <= start.value <= pos)
    ensures Sane(m, b, pos, t)
    decreases |records|
  {
    if records == [] then
      Made(if start.Some? then Patch(b, start.value, pos) else b, t, Some(pos))
    else if !records[0].data.Text? then
      AddTexts(b, pos, records[1..], rclass, ttl, t, start)
    else
      var Text(key, value) := records[0].data;
      var h := if start.Some? then Made(b, t, Some(pos)) else AddHeader(b, pos, Updated(records[0], rclass, ttl), t);
      if h.end.None? then h
      else if !TextFits(h.buf, h.end.value, key, value) then h.(end := None)
      else
        AddTexts(Splice(h.buf, h.end.value, TextString(key, value)), h.end.value + |key| + |value| + 2, records[1..],
                 rclass, ttl, h.table, Some(if start.Some? then start.value else h.end.value))
  }

  function AddRecords(b: bytes, pos: nat, records: seq<Record>, rclass: u16, ttl: u32, t: Option<Table>): (m: Made)
    requires Usable(b, pos, t)
    ensures Sane(m, b, pos, t)
    decreases |records|
  {
    if records == [] then Made(b, t, Some(pos))
    else
      var m := AddRecord(b, pos, Updated(records[0], rclass, ttl), t);
      if m.end.None? then m else AddRecords(m.buf, m.end.value, records[1..], rclass, ttl, m.table)
  }

  /** The authority or the additional section. */
  function AddSection(b: bytes, pos: nat, records: seq<Record>, rclass: u16, ttl: u32, t: Option<Table>): (m: Made)
    requires Usable(b, pos, t)
    ensures Sane(m, b, pos, t)
  {
    var m := AddRecords(b, pos, records, rclass, ttl, t);
    if m.end.None? then m else AddTexts(m.buf, m.end.value, records, rclass, ttl, m.table, None)
  }

  /** How many records a section counts: its TXT records are one. */
  function RecordCount(records: seq<Record>): nat {
    |NonTexts(records)| + if Texts(records) == [] then 0 else 1
  }

  function NonTexts(records: seq<Record>): (s: seq<Record>)
    ensures |s| <= |records|
  {
    if records == [] then [] else (if records[0].data.Text? then [] else [records[0]]) + NonTexts(records[1..])
  }

  function Texts(records: seq<Record>): (s: seq<Record>)
    ensures forall i :: 0 <= i < |s| ==> s[i].data.Text?
    ensures |NonTexts(records)| + |s| == |records|
  {
    if records == [] then [] else (if records[0].data.Text? then [records[0]] else []) + Texts(records[1..])
  }

  function MessageHeader(authority: nat, additional: nat): (h: bytes)
    ensures |h| == HEADER_SIZE
  {
    Put16(0) + Put16(0x8400) + Put16(0) + Put16(1) + Put16(authority) + Put16(additional)
  }

  /** mdns_answer_multicast_rclass_ttl: the buffer it leaves, and the size of what it sends unless it fails. */
  function AnswerMessage(b: bytes, answer: Record, authority: seq<Record>, additional: seq<Record>,
                         rclass: u16, ttl: u32): (m: Made)
    ensures |m.buf| == |b| && (m.end.Some? ==> HEADER_SIZE <= m.end.value <= |b|)
  {
    if |b| < HEADER_SIZE + 32 + 4 then Made(b, None, None)
    else
      var b0 := Splice(b, 0, MessageHeader(RecordCount(authority), RecordCount(additional)));
      var m := AddRecord(b0, HEADER_SIZE, Updated(answer, rclass, ttl), Some(EmptyTable()));
      if m.end.None? then m
      else
        var n := AddSection(m.buf, m.end.value, authority, rclass, ttl, m.table);
        if n.end.None? then n else AddSection(n.buf, n.end.value, additional, rclass, ttl, n.table)
  }

  ghost predicate Separate(buffer: array<byte>, table: StringTable)
    reads table
  {
    table.Valid() && table.offset as object != buffer
  }

  method WriteHeader(buffer: array<byte>, data: nat, r: Record, table: StringTable) returns (end: Option<nat>)
    requires data <= buffer.Length && Separate(buffer, table)
    modifies buffer, table, table.offset
    ensures Separate(buffer, table)
    ensures AddHeader(old(buffer[..]), data, r, old(View(table))) == Made(buffer[..], View(table), end)
  {
    hide MakeName, Fixed, Splice, View, StringTable.Valid;
    end := Make(buffer, data, r.name, table);
    if end.None? { return; }
    if buffer.Length - end.value < 10 { return None; }
    Copy(buffer, end.value, Fixed(TypeOf(r.data), r.rclass, r.ttl, 0));
    end := Some(end.value + 10);
  }

  method WriteData(buffer: array<byte>, data: nat, d: Data, table: StringTable) returns (end: Option<nat>)
    requires data <= buffer.Length && Separate(buffer, table) && !d.Text?
    modifies buffer, table, table.offset
    ensures Separate(buffer, table)
    ensures AddData(old(buffer[..]), data, d, old(View(table))) == Made(buffer[..], View(table), end)
  {
    hide MakeName, Splice, View, StringTable.Valid;
    var remain := buffer.Length - data;
    match d
    case Pointer(target) =>
      end := Make(buffer, data, target, table);
    case Service(priority, weight, port, host) =>
      if remain <= 6 { return None; }
      Copy(buffer, data, Put16(priority) + Put16(weight) + Put16(port));
      end := Make(buffer, data + 6, host, table);
    case Address4(x) =>
      if remain < 4 { return None; }
      Copy(buffer, data, x);
      end := Some(data + 4);
    case Address6(x) =>
      if remain < 16 { return None; }
      Copy(buffer, data, x);
      end := Some(data + 16);
    case Other(_) =>
      end := Some(data);
  }

  method WriteRecord(buffer: array<byte>, data: Option<nat>, r: Record, table: StringTable) returns (end: Option<nat>)
    requires (data.Some? ==> data.value <= buffer.Length) && Separate(buffer, table)
    modifies buffer, table, table.offset
    ensures Separate(buffer, table)
    ensures if data.None? then end == None && buffer[..] == old(buffer[..])
            else AddRecord(old(buffer[..]), data.value, r, old(View(table))) == Made(buffer[..], View(table), end)
  {
    hide AddHeader, AddData, Splice, View, StringTable.Valid;
    if data.None? || r.data.Text? { return data; }
    end := WriteHeader(buffer, data.value, r, table);
    if end.None? { return; }
    var start := end.value;
    end := WriteData(buffer, start, r.data, table);
    if end.None? { return; }
    Copy(buffer, start - 2, Put16(end.value - start));
  }

  method WriteTexts(buffer: array<byte>, data: nat, records: seq<Record>, rclass: u16, ttl: u32, table: StringTable)
    returns (end: Option<nat>)
    requires data <= buffer.Length && Separate(buffer, table)
    modifies buffer, table, table.offset
    ensures Separate(buffer, table)
    ensures AddTexts(old(buffer[..]), data, records, rclass, ttl, old(View(table)), None) == Made(buffer[..], View(table), end)
  {
    hide AddHeader, Splice, View, StringTable.Valid, AddTexts, TextString;
    ghost var goal := AddTexts(buffer[..], data, records, rclass, ttl, View(table), None);
    var start: Option<nat> := None;
    var cur := data;
    for i := 0 to |records|
      invariant data <= cur <= buffer.Length && Separate(buffer, table) && (start.Some? ==> 2 <= start.value <= cur)
      invariant goal == AddTexts(buffer[..], cur, records[i..], rclass, ttl, View(table), start)
    {
      AddTextsStep(buffer[..], cur, records, i, rclass, ttl, View(table), start);
      if !records[i].data.Text? { continue; }
      var Text(key, value) := records[i].data;
      if start.None? {
        var h := WriteHeader(buffer, cur, Updated(records[i], rclass, ttl), table);
        if h.None? { return None; }
        start, cur := h, h.value;
      }
      var remain := buffer.Length - cur;
      if remain <= |key| + |value| + 1 || |key| + |value| + 1 > 0x3FFF { return None; }
      Copy(buffer, cur, TextString(key, value));
      cur := cur + |key| + |value| + 2;
    }
    AddTextsEnd(buffer[..], cur, records[|records|..], rclass, ttl, View(table), start);
    if start.Some? { Copy(buffer, start.value - 2, Put16(cur - start.value)); }
    return Some(cur);
  }

  lemma {:induction false} AddTextsEnd(b: bytes, pos: nat, records: seq<Record>, rclass: u16, ttl: u32,
                                       t: Option<Table>, start: Option<nat>)
    requires Usable(b, pos, t) && (start.Some? ==> 2 <= start.value <= pos) && records == []
    ensures AddTexts(b, pos, records, rclass, ttl, t, start) ==
            Made(if start.Some? then Patch(b, start.value, pos) else b, t, Some(pos))
  {}

  /** One turn of the loop. */
  lemma AddTextsStep(b: bytes, pos: nat, records: seq<Record>, i: nat, rclass: u16, ttl: u32, t: Option<Table>,
                     start: Option<nat>)
    requires Usable(b, pos, t) && (start.Some? ==> 2 <= start.value <= pos) && i < |records|
    ensures AddTexts(b, pos, records[i..], rclass, ttl, t, start) ==
      if !records[i].data.Text? then AddTexts(b, pos, records[i + 1..], rclass, ttl, t, start)
      else
        var Text(key, value) := records[i].data;
        var h := if start.Some? then Made(b, t, Some(pos)) else AddHeader(b, pos, Updated(records[i], rclass, ttl), t);
        if h.end.None? then h
        else if !TextFits(h.buf, h.end.value, key, value) then h.(end := None)
        else
          AddTexts(Splice(h.buf, h.end.value, TextString(key, value)), h.end.value + |key| + |value| + 2, records[i + 1..],
                   rclass, ttl, h.table, Some(if start.Some? then start.value else h.end.value))
  {
    hide AddHeader, Splice, TextString;
    assert records[i..][1..] == records[i + 1..];
  }

  /** The loop over the records of a section and the call for its TXT records. */
  method WriteSection(buffer: array<byte>, data: Option<nat>, records: seq<Record>, rclass: u16, ttl: u32,
                      table: StringTable) returns (end: Option<nat>)
    requires (data.Some? ==> data.value <= buffer.Length) && Separate(buffer, table)
    modifies buffer, table, table.offset
    ensures Separate(buffer, table)
    ensures if data.None? then end == None && buffer[..] == old(buffer[..])
            else AddSection(old(buffer[..]), data.value, records, rclass, ttl, old(View(table))) ==
                 Made(buffer[..], View(table), end)
  {
    hide AddRecord, AddTexts, View, StringTable.Valid, AddRecords;
    if data.None? { return None; }
    ghost var goal := AddRecords(buffer[..], data.value, records, rclass, ttl, View(table));
    end := data;
    var irec := 0;
    while end.Some? && irec < |records|
      invariant irec <= |records| && Separate(buffer, table) && (end.Some? ==> end.value <= buffer.Length)
      invariant goal == if end.None? then Made(buffer[..], View(table), None)
                        else AddRecords(buffer[..], end.value, records[irec..], rclass, ttl, View(table))
    {
      AddRecordsStep(buffer[..], end.value, records, irec, rclass, ttl, View(table));
      end := WriteRecord(buffer, end, Updated(records[irec], rclass, ttl), table);
      irec := irec + 1;
    }
    if end.None? { return; }
    AddRecordsEnd(buffer[..], end.value, records[irec..], rclass, ttl, View(table));
    end := WriteTexts(buffer, end.value, records, rclass, ttl, table);
  }

  lemma {:induction false} AddRecordsStep(b: bytes, pos: nat, records: seq<Record>, i: nat, rclass: u16, ttl: u32, t: Option<Table>)
    requires Usable(b, pos, t) && i < |records|
    ensures AddRecords(b, pos, records[i..], rclass, ttl, t) ==
      var m := AddRecord(b, pos, Updated(records[i], rclass, ttl), t);
      if m.end.None? then m else AddRecords(m.buf, m.end.value, records[i + 1..], rclass, ttl, m.table)
  {
    hide AddRecord;
    assert records[i..][1..] == records[i + 1..];
  }

  lemma {:induction false} AddRecordsEnd(b: bytes, pos: nat, records: seq<Record>, rclass: u16, ttl: u32, t: Option<Table>)
    requires Usable(b, pos, t) && records == []
    ensures AddRecords(b, pos, records, rclass, ttl, t) == Made(b, t, Some(pos))
  {}

  /** mdns_answer_get_record_count, before its result is cut to 16 bits. */
  method CountRecords(records: seq<Record>) returns (count: nat)
    ensures count == RecordCount(records)
  {
    var total, text := 0, 0;
    for i := 0 to |records|
      invariant total + |NonTexts(records[i..])| == |NonTexts(records)|
      invariant text == 1 || Texts(records[i..]) == Texts(records)
      invariant text == 0 || (text == 1 && Texts(records) != [])
    {
      CountStep(records, i);
      if records[i].data.Text? { text := 1; } else { total := total + 1; }
    }
    count := total + text;
  }

  lemma CountStep(records: seq<Record>, i: nat)
    requires i < |records|
    ensures records[i].data.Text? ==> NonTexts(records[i..]) == NonTexts(records[i + 1..]) && Texts(records[i..]) != []
    ensures !records[i].data.Text? ==> |NonTexts(records[i..])| == 1 + |NonTexts(records[i + 1..])|
                                       && Texts(records[i..]) == Texts(records[i + 1..])
  {
    assert records[i..][1..] == records[i + 1..];
  }

  method AnswerMulticast(buffer: array<byte>, answer: Record, authority: seq<Record>, additional: seq<Record>,
                         rclass: u16, ttl: u32) returns (size: Option<nat>)
    modifies buffer
    ensures var m := AnswerMessage(old(buffer[..]), answer, authority, additional, rclass, ttl);
            buffer[..] == m.buf && size == m.end
    ensures buffer.Length < 48 ==> size == None && buffer[..] == old(buffer[..])
  {
    hide AddRecord, AddSection, StringTable.Valid, RecordCount, Splice;
    if buffer.Length < HEADER_SIZE + 32 + 4 { return None; }
    var authorities := CountRecords(authority);
    var additionals := CountRecords(additional);
    Copy(buffer, 0, MessageHeader(authorities, additionals));
    var table := new StringTable();
    size := WriteRecord(buffer, Some(HEADER_SIZE), Updated(answer, rclass, ttl), table);
    size := WriteSection(buffer, size, authority, rclass, ttl, table);
    size := WriteSection(buffer, size, additional, rclass, ttl, table);
  }
}
