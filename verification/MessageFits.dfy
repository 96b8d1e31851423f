/** How much room a message needs: a size that can be told from the records alone is enough. */
module MessageFits {
  import opened Bytes
  import opened NameWalk
  import opened NameMake
  import opened NameRun
  import opened Answer
  import opened Receive
  import opened MessageTrip

  /** The size of a name without any compression. */
  function NameSize(labels: Name): nat {
    if labels == [] then 1 else 1 + |labels[0]| + NameSize(labels[1..])
  }

  function DataSize(d: Data): nat {
    match d
    case Address4(_) => 4
    case Pointer(target) => NameSize(LabelsOf(target))
    case Text(_, _) => 0
    case Address6(_) => 16
    case Service(_, _, _, host) => 6 + NameSize(LabelsOf(host))
    case Other(_) => 0
  }

  function HeaderSize(r: Record): nat {
    NameSize(LabelsOf(r.name)) + 10
  }

  function RecordSize(r: Record): nat {
    if r.data.Text? then 0 else HeaderSize(r) + DataSize(r.data)
  }

  function RecordsSize(records: seq<Record>): nat {
    if records == [] then 0 else RecordSize(records[0]) + RecordsSize(records[1..])
  }

  /** The strings of all TXT records, and the header in front of the first unless it is there already. */
  function TextsSize(records: seq<Record>, begun: bool): nat
    decreases |records|
  {
    if records == [] then 0
    else if !records[0].data.Text? then TextsSize(records[1..], begun)
    else (if begun then 0 else HeaderSize(records[0])) + |records[0].data.key| + |records[0].data.value| + 2
         + TextsSize(records[1..], true)
  }

  function SectionSize(records: seq<Record>): nat {
    RecordsSize(records) + TextsSize(records, false)
  }

  /** A string that is not too long for any record. */
  predicate ShortText(r: Record) {
    r.data.Text? ==> |r.data.key| + |r.data.value| + 1 <= 0x3FFF
  }

  predicate AllShort(records: seq<Record>) {
    forall i :: 0 <= i < |records| ==> ShortText(records[i])
  }

  /** The state is usable, and nothing took more room than allowed. */
  predicate Within(m: Made, pos: nat, size: nat) {
    m.end.Some? && m.end.value <= pos + size && (m.table.Some? ==> m.table.value.Valid())
  }

  /** Compression only ever saves room. */
  lemma {:induction false} NameFits(b: bytes, pos: nat, labels: Name, t: Option<Table>)
    requires Usable(b, pos, t) && pos + NameSize(labels) <= |b|
    ensures Within(MakeName(b, pos, labels, t), pos, NameSize(labels))
    decreases labels
  {
    hide Lookup, Splice, RefBytes, Remember;
    if labels == [] {
      MakeNameEnd(b, pos, t);
    } else {
      MakeNameStep(b, pos, labels, t);
      NameSizeFirst(labels);
      if Lookup(t, b, labels).None? {
        RememberValid(t, pos);
        NameFits(Splice(b, pos, [|labels[0]| % 256] + labels[0]), pos + 1 + |labels[0]|, labels[1..], Remember(t, pos));
      }
    }
  }

  lemma RememberValid(t: Option<Table>, o: nat)
    requires t.Some? ==> t.value.Valid()
    ensures Remember(t, o).Some? ==> Remember(t, o).value.Valid()
  {}

  lemma {:induction false} NameSizeFirst(labels: Name)
    requires labels != []
    ensures NameSize(labels) == 1 + |labels[0]| + NameSize(labels[1..]) && NameSize(labels[1..]) >= 1
  {}

  lemma HeaderFits(b: bytes, pos: nat, r: Record, t: Option<Table>)
    requires Usable(b, pos, t) && pos + HeaderSize(r) <= |b|
    ensures Within(AddHeader(b, pos, r, t), pos, HeaderSize(r))
  {
    NameFits(b, pos, LabelsOf(r.name), t);
    hide MakeName, NameSize, LabelsOf, Splice, Fixed;
  }

  lemma DataFits(b: bytes, pos: nat, d: Data, t: Option<Table>)
    requires Usable(b, pos, t) && !d.Text? && pos + DataSize(d) <= |b|
    ensures Within(AddData(b, pos, d, t), pos, DataSize(d))
  {
    hide MakeName, LabelsOf, Splice;
    match d
    case Pointer(target) => NameFits(b, pos, LabelsOf(target), t);
    case Service(priority, weight, port, host) =>
      NameFits(Splice(b, pos, Put16(priority) + Put16(weight) + Put16(port)), pos + 6, LabelsOf(host), t);
    case _ =>
  }

  lemma RecordFits(b: bytes, pos: nat, r: Record, t: Option<Table>)
    requires Usable(b, pos, t) && pos + RecordSize(r) <= |b|
    ensures Within(AddRecord(b, pos, r, t), pos, RecordSize(r))
  {
    hide AddHeader, AddData, Patch, HeaderSize, DataSize;
    if !r.data.Text? {
      HeaderFits(b, pos, r, t);
      var h := AddHeader(b, pos, r, t);
      DataFits(h.buf, h.end.value, r.data, h.table);
    }
  }

  lemma {:induction false} RecordsFit(b: bytes, pos: nat, records: seq<Record>, rclass: u16, ttl: u32, t: Option<Table>)
    requires Usable(b, pos, t) && pos + RecordsSize(records) <= |b|
    ensures Within(AddRecords(b, pos, records, rclass, ttl, t), pos, RecordsSize(records))
    decreases |records|
  {
    hide AddRecord, RecordSize, Updated;
    if records != [] {
      var r := Updated(records[0], rclass, ttl);
      UpdatedSize(records[0], rclass, ttl);
      RecordFits(b, pos, r, t);
      var m := AddRecord(b, pos, r, t);
      RecordsFit(m.buf, m.end.value, records[1..], rclass, ttl, m.table);
    }
  }

  lemma UpdatedSize(r: Record, rclass: u16, ttl: u32)
    ensures RecordSize(Updated(r, rclass, ttl)) == RecordSize(r) && HeaderSize(Updated(r, rclass, ttl)) == HeaderSize(r)
  {
    TextUpdated(r, rclass, ttl);
  }

  lemma {:induction false} TextsFit(b: bytes, pos: nat, records: seq<Record>, rclass: u16, ttl: u32, t: Option<Table>,
                                    start: Option<nat>)
    requires Usable(b, pos, t) && (start.Some? ==> 2 <= start.value <= pos) && AllShort(records)
    requires pos + TextsSize(records, start.Some?) <= |b|
    ensures Within(AddTexts(b, pos, records, rclass, ttl, t, start), pos, TextsSize(records, start.Some?))
    decreases |records|
  {
    hide AddHeader, AddTexts, Updated, Splice, TextString, HeaderSize, Patch;
    if records == [] {
      AddTextsEnd(b, pos, records, rclass, ttl, t, start);
    } else {
      AddTextsFirst(b, pos, records, rclass, ttl, t, start);
      assert ShortText(records[0]);
      if !records[0].data.Text? {
        TextsFit(b, pos, records[1..], rclass, ttl, t, start);
      } else {
        var Text(key, value) := records[0].data;
        var r := Updated(records[0], rclass, ttl);
        UpdatedSize(records[0], rclass, ttl);
        if start.None? { HeaderFits(b, pos, r, t); }
        var h := if start.Some? then Made(b, t, Some(pos)) else AddHeader(b, pos, r, t);
        TextsFit(Splice(h.buf, h.end.value, TextString(key, value)), h.end.value + |key| + |value| + 2, records[1..], rclass,
                 ttl, h.table, Some(if start.Some? then start.value else h.end.value));
      }
    }
  }

  lemma SectionFits(b: bytes, pos: nat, records: seq<Record>, rclass: u16, ttl: u32, t: Option<Table>)
    requires Usable(b, pos, t) && AllShort(records) && pos + SectionSize(records) <= |b|
    ensures Within(AddSection(b, pos, records, rclass, ttl, t), pos, SectionSize(records))
  {
    hide AddRecords, AddTexts, RecordsSize, TextsSize, AllShort;
    RecordsFit(b, pos, records, rclass, ttl, t);
    var m := AddRecords(b, pos, records, rclass, ttl, t);
    TextsFit(m.buf, m.end.value, records, rclass, ttl, m.table, None);
  }

  function MessageSize(answer: Record, authority: seq<Record>, additional: seq<Record>): nat {
    HEADER_SIZE + RecordSize(answer) + SectionSize(authority) + SectionSize(additional)
  }

  /** A message is sent whenever the buffer has room for its records uncompressed, and at least 48 octets. */
  lemma MessageFitsIn(b: bytes, answer: Record, authority: seq<Record>, additional: seq<Record>, rclass: u16, ttl: u32)
    requires |b| >= HEADER_SIZE + 32 + 4 && MessageSize(answer, authority, additional) <= |b|
    requires AllShort(authority) && AllShort(additional)
    ensures AnswerMessage(b, answer, authority, additional, rclass, ttl).end.Some?
  {
    hide AddRecord, AddSection, RecordSize, SectionSize, AllShort, RecordCount, Updated, Splice;
    var b0 := Splice(b, 0, MessageHeader(RecordCount(authority), RecordCount(additional)));
    var r := Updated(answer, rclass, ttl);
    UpdatedSize(answer, rclass, ttl);
    RecordFits(b0, HEADER_SIZE, r, Some(EmptyTable()));
    var m := AddRecord(b0, HEADER_SIZE, r, Some(EmptyTable()));
    SectionFits(m.buf, m.end.value, authority, rclass, ttl, m.table);
    var n := AddSection(m.buf, m.end.value, authority, rclass, ttl, m.table);
    SectionFits(n.buf, n.end.value, additional, rclass, ttl, n.table);
  }

  /**
   The round trip by what a caller can check beforehand: regular records, an answer that is not a TXT record,
   and a buffer with room for everything uncompressed.
   */
  lemma MessageDelivered(b: bytes, answer: Record, authority: seq<Record>, additional: seq<Record>, rclass: u16, ttl: u32,
                         final: Label, callback: Seen -> bool)
    requires !answer.data.Text? && RegularRecord(answer, final) && AllRegular(authority, final) && AllRegular(additional, final)
    requires AllShort(authority) && AllShort(additional) && GoesOn(callback)
    requires HEADER_SIZE + 32 + 4 <= |b| <= 0x4000 && MessageSize(answer, authority, additional) <= |b|
    ensures
      var m := AnswerMessage(b, answer, authority, additional, rclass, ttl);
      var wires := Expected(answer, authority, additional, rclass, ttl);
      && m.end.Some?
      && var seen := Received(m.buf, m.end.value, callback, 0);
         |seen| == |wires| && forall i :: 0 <= i < |seen| ==> ReadBack(m.buf[..m.end.value], seen[i], wires[i])
  {
    hide AnswerMessage, MessageSize, Received, Expected, ReadBack, AllRegular, RegularRecord, AllShort;
    MessageFitsIn(b, answer, authority, additional, rclass, ttl);
    MessageRoundTrip(b, answer, authority, additional, rclass, ttl, final, callback, 0);
  }
}
