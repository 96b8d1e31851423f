/**
 The whole-message round trip: what mdns_answer_multicast_rclass_ttl builds, mdns_query_recv and the
 readers of record data give back.
 */
module MessageTrip {
  import opened Bytes
  import opened NameWalk
  import opened NameMake
  import opened NameTrip
  import opened NameRun
  import opened Answer
  import opened Receive

  /** The data of a record in a message: that of one record, or the pairs of all TXT records of its section. */
  datatype Content = Single(data: Data) | Strings(pairs: seq<(bytes, bytes)>)

  datatype Wire = Wire(entry: nat, name: Name, rtype: u16, rclass: u16, ttl: u32, content: Content)

  function WireOf(entry: nat, r: Record): Wire {
    Wire(entry, LabelsOf(r.name), TypeOf(r.data), r.rclass, r.ttl, Single(r.data))
  }

  function WiresOf(entry: nat, records: seq<Record>, rclass: u16, ttl: u32): (w: seq<Wire>)
    ensures |w| == |records|
  {
    seq(|records|, i requires 0 <= i < |records| => WireOf(entry, Updated(records[i], rclass, ttl)))
  }

  function PairsOf(texts: seq<Record>): (p: seq<(bytes, bytes)>)
    requires forall i :: 0 <= i < |texts| ==> texts[i].data.Text?
  {
    seq(|texts|, i requires 0 <= i < |texts| => (texts[i].data.key, texts[i].data.value))
  }

  /** The one TXT record of a section, named as the first of its TXT records. */
  function TextWires(entry: nat, texts: seq<Record>, rclass: u16, ttl: u32): seq<Wire>
    requires forall i :: 0 <= i < |texts| ==> texts[i].data.Text?
  {
    if texts == [] then []
    else [WireOf(entry, Updated(texts[0], rclass, ttl)).(content := Strings(PairsOf(texts)))]
  }

  function SectionWires(entry: nat, records: seq<Record>, rclass: u16, ttl: u32): seq<Wire> {
    WiresOf(entry, NonTexts(records), rclass, ttl) + TextWires(entry, Texts(records), rclass, ttl)
  }

  /** The records a message is meant to carry, in order. */
  function Expected(answer: Record, authority: seq<Record>, additional: seq<Record>, rclass: u16, ttl: u32): seq<Wire> {
    [WireOf(ANSWER, Updated(answer, rclass, ttl))] + SectionWires(AUTHORITY, authority, rclass, ttl)
    + SectionWires(ADDITIONAL, additional, rclass, ttl)
  }

  predicate RegularData(d: Data, final: Label) {
    && (d.Pointer? ==> Regular(LabelsOf(d.target), final))
    && (d.Service? ==> Regular(LabelsOf(d.host), final))
  }

  predicate RegularRecord(r: Record, final: Label) {
    Regular(LabelsOf(r.name), final) && RegularData(r.data, final)
  }

  predicate AllRegular(records: seq<Record>, final: Label) {
    forall i :: 0 <= i < |records| ==> RegularRecord(records[i], final)
  }

  // What lies in the buffer

  /** A name from o to e, encoded within the given octets. */
  predicate NameHeld(b: bytes, octets: set<nat>, o: nat, e: nat, name: Name) {
    o + 2 <= e && |name| <= MAX_SUBSTRINGS && Compressed(b, octets, o, name) && End(b, o, name) == e
  }

  predicate ContentHeld(b: bytes, octets: set<nat>, o: nat, e: nat, c: Content)
    requires o <= e <= |b|
  {
    match c
    case Single(Pointer(target)) => NameHeld(b, octets, o, e, LabelsOf(target))
    case Single(Service(priority, weight, port, host)) =>
      && o + 6 <= e && b[o..o + 6] == Put16(priority) + Put16(weight) + Put16(port)
      && NameHeld(b, octets, o + 6, e, LabelsOf(host))
    case Single(Address4(x)) => b[o..e] == x
    case Single(Address6(x)) => b[o..e] == x
    case Single(Other(_)) => o == e
    case Single(Text(_, _)) => false
    case Strings(pairs) => b[o..e] == TextOctets(pairs)
  }

  /** The record w lies in b before n, at the places s tells. */
  predicate Held(b: bytes, n: nat, s: Seen, w: Wire) {
    && s == Seen(w.entry, 0, w.rtype, w.rclass, w.ttl, s.nameOffset, s.nameLength,
                 s.nameOffset + s.nameLength + 10, s.dataLength)
    && DataEnd(s) <= n <= |b|
    && NameHeld(b, Span(0, n), s.nameOffset, s.nameOffset + s.nameLength, w.name)
    && b[s.dataOffset - 10..s.dataOffset] == Fixed(w.rtype, w.rclass, w.ttl, s.dataLength)
    && ContentHeld(b, Span(0, n), s.dataOffset, DataEnd(s), w.content)
  }

  lemma NameHeldFrame(b: bytes, octets: set<nat>, o: nat, e: nat, name: Name, b2: bytes, octets2: set<nat>)
    requires NameHeld(b, octets, o, e, name) && Keeps(b, octets, b2) && octets <= octets2
    ensures NameHeld(b2, octets2, o, e, name)
  {
    CompressedFrame(b, octets, o, name, b2, octets2);
  }

  lemma ContentFrame(b: bytes, octets: set<nat>, o: nat, e: nat, c: Content, b2: bytes, octets2: set<nat>)
    requires o <= e <= |b| && e <= |b2|
    requires ContentHeld(b, octets, o, e, c) && Keeps(b, octets, b2) && octets <= octets2 && b2[o..e] == b[o..e]
    ensures ContentHeld(b2, octets2, o, e, c)
  {
    hide NameHeld, Keeps;
    match c
    case Single(Pointer(target)) => NameHeldFrame(b, octets, o, e, LabelsOf(target), b2, octets2);
    case Single(Service(_, _, _, host)) =>
      assert b2[o..o + 6] == b2[o..e][..6] && b[o..o + 6] == b[o..e][..6];
      NameHeldFrame(b, octets, o + 6, e, LabelsOf(host), b2, octets2);
    case _ =>
  }

  lemma {:induction false} PrefixKept(b: bytes, n: nat, b2: bytes, lo: nat, hi: nat)
    requires n <= |b| && n <= |b2| && b2[..n] == b[..n] && lo <= hi <= n
    ensures b2[lo..hi] == b[lo..hi] && Keeps(b, Span(0, n), b2)
  {
    assert b2[lo..hi] == b2[..n][lo..hi] && b[lo..hi] == b[..n][lo..hi];
    KeptPrefix(b, b2, n, Span(0, n));
  }

  lemma HeldFrame(b: bytes, n: nat, s: Seen, w: Wire, b2: bytes, n2: nat)
    requires Held(b, n, s, w) && n <= n2 <= |b2| && b2[..n] == b[..n]
    ensures Held(b2, n2, s, w)
  {
    hide NameHeld, ContentHeld;
    PrefixKept(b, n, b2, s.dataOffset - 10, s.dataOffset);
    PrefixKept(b, n, b2, s.dataOffset, DataEnd(s));
    NameHeldFrame(b, Span(0, n), s.nameOffset, s.nameOffset + s.nameLength, w.name, b2, Span(0, n2));
    ContentFrame(b, Span(0, n), s.dataOffset, DataEnd(s), w.content, b2, Span(0, n2));
  }

  /** The records w lie in b before n, at the places seen tells, one behind the other from o on. */
  predicate AllHeld(b: bytes, n: nat, o: nat, seen: seq<Seen>, w: seq<Wire>)
    decreases |seen|
  {
    if seen == [] then w == []
    else w != [] && seen[0].nameOffset == o && Held(b, n, seen[0], w[0])
         && AllHeld(b, n, DataEnd(seen[0]), seen[1..], w[1..])
  }

  function EndOf(o: nat, seen: seq<Seen>): nat
    decreases |seen|
  {
    if seen == [] then o else EndOf(DataEnd(seen[0]), seen[1..])
  }

  lemma {:induction false} AllHeldFrame(b: bytes, n: nat, o: nat, seen: seq<Seen>, w: seq<Wire>, b2: bytes, n2: nat)
    requires AllHeld(b, n, o, seen, w) && n <= n2 <= |b2| && n <= |b| && b2[..n] == b[..n]
    ensures AllHeld(b2, n2, o, seen, w)
    decreases |seen|
  {
    hide Held;
    if seen != [] {
      HeldFrame(b, n, seen[0], w[0], b2, n2);
      AllHeldFrame(b, n, DataEnd(seen[0]), seen[1..], w[1..], b2, n2);
    }
  }

  lemma {:induction false} AllHeldJoin(b: bytes, n: nat, o: nat, seen: seq<Seen>, w: seq<Wire>, seen2: seq<Seen>, w2: seq<Wire>)
    requires AllHeld(b, n, o, seen, w) && AllHeld(b, n, EndOf(o, seen), seen2, w2)
    ensures AllHeld(b, n, o, seen + seen2, w + w2) && EndOf(o, seen + seen2) == EndOf(EndOf(o, seen), seen2)
    decreases |seen|
  {
    hide Held;
    if seen == [] {
      assert seen + seen2 == seen2 && w + w2 == w2;
    } else {
      AllHeldJoin(b, n, DataEnd(seen[0]), seen[1..], w[1..], seen2, w2);
      assert (seen + seen2)[1..] == seen[1..] + seen2 && (w + w2)[1..] == w[1..] + w2;
    }
  }

  // Building

  /** A message that ends at pos: everything before it is settled. */
  ghost predicate Msg(b: bytes, pos: nat, t: Table, stored: map<nat, Name>, final: Label) {
    t.Valid() && pos <= |b| && Sound(b, Span(0, pos), pos, t, stored, final)
  }

  lemma Settle(b: bytes, octets: set<nat>, pos: nat, t: Table, stored: map<nat, Name>, final: Label)
    requires Sound(b, octets, pos, t, stored, final)
    ensures Msg(b, pos, t, stored, final)
  {
    hide Labels, Remembers, Chain;
    StoredFrame(b, octets, pos, stored, b, Span(0, pos), pos);
  }

  lemma NameAdded(b: bytes, octets: set<nat>, pos: nat, t: Table, stored: map<nat, Name>, final: Label, name: Name)
    returns (stored2: map<nat, Name>)
    requires Sound(b, octets, pos, t, stored, final) && t.Valid() && pos <= |b| && Regular(name, final)
    requires MakeName(b, pos, name, Some(t)).end.Some?
    ensures
      var m := MakeName(b, pos, name, Some(t));
      var octets2 := octets + Span(pos, m.end.value);
      && m.table.Some?
      && Sound(m.buf, octets2, m.end.value, m.table.value, stored2, final)
      && NameHeld(m.buf, octets2, pos, m.end.value, name) && m.buf[..pos] == b[..pos]
  {
    stored2 := NameAppended(b, octets, pos, t, stored, final, name);
    hide Sound, MakeName, Compressed, TextName, Distinct;
    var m := MakeName(b, pos, name, Some(t));
    NameTakesTwo(m.buf, octets + Span(pos, m.end.value), pos, name);
  }

  lemma {:induction false} NameTakesTwo(b: bytes, octets: set<nat>, o: nat, name: Name)
    requires Compressed(b, octets, o, name) && name != []
    ensures o + 2 <= End(b, o, name)
    decreases |name|
  {
    if !IsStringRef(b[o]) && |name| > 1 { NameTakesTwo(b, octets, o + 1 + |name[0]|, name[1..]); }
  }

  /** The name and the fixed fields, the length still open. */
  lemma HeaderAdded(b: bytes, pos: nat, t: Table, stored: map<nat, Name>, final: Label, r: Record)
    returns (stored2: map<nat, Name>)
    requires Msg(b, pos, t, stored, final) && Regular(LabelsOf(r.name), final)
    requires AddHeader(b, pos, r, Some(t)).end.Some?
    ensures
      var h := AddHeader(b, pos, r, Some(t));
      var d := h.end.value;
      && h.table.Some? && h.table.value.Valid()
      && Sound(h.buf, Span(0, d - 10), d, h.table.value, stored2, final)
      && NameHeld(h.buf, Span(0, d - 10), pos, d - 10, LabelsOf(r.name))
      && h.buf[..pos] == b[..pos] && h.buf[d - 10..d] == Fixed(TypeOf(r.data), r.rclass, r.ttl, 0)
  {
    hide Sound, MakeName, NameHeld, Regular, Fixed, Splice, Keeps, LabelsOf, Span, Put16, Put32;
    stored2 := NameAdded(b, Span(0, pos), pos, t, stored, final, LabelsOf(r.name));
    var m, h := MakeName(b, pos, LabelsOf(r.name), Some(t)), AddHeader(b, pos, r, Some(t));
    var e := m.end.value;
    assert Span(0, pos) + Span(pos, e) == Span(0, e);
    OctetsAdded(m.buf, Span(0, e), e, m.table.value, stored2, final, Fixed(TypeOf(r.data), r.rclass, r.ttl, 0));
    NameHeldFrame(m.buf, Span(0, e), pos, e, LabelsOf(r.name), h.buf, Span(0, e));
    PrefixKept(m.buf, e, h.buf, 0, pos);
  }

  lemma OctetsAdded(b: bytes, octets: set<nat>, pos: nat, t: Table, stored: map<nat, Name>, final: Label, x: bytes)
    requires Sound(b, octets, pos, t, stored, final) && pos + |x| <= |b|
    ensures var b2 := Splice(b, pos, x);
      && Sound(b2, octets, pos + |x|, t, stored, final) && b2[..pos] == b[..pos] && b2[pos..pos + |x|] == x
      && Keeps(b, octets, b2)
  {
    var b2 := Splice(b, pos, x);
    OctetsBefore(b, octets, pos, t, stored, final);
    hide Sound;
    assert Keeps(b, octets, b2);
    OtherOctetsWritten(b, octets, pos, t, stored, final, b2, pos + |x|);
  }

  /** The data behind a header, which leaves everything before it alone. */
  lemma DataAdded(b: bytes, octets: set<nat>, pos: nat, t: Table, stored: map<nat, Name>, final: Label, d: Data)
    returns (octets2: set<nat>, stored2: map<nat, Name>)
    requires Sound(b, octets, pos, t, stored, final) && t.Valid() && pos <= |b| && RegularData(d, final) && !d.Text?
    requires AddData(b, pos, d, Some(t)).end.Some?
    ensures
      var m := AddData(b, pos, d, Some(t));
      && m.table.Some? && m.table.value.Valid()
      && Sound(m.buf, octets2, m.end.value, m.table.value, stored2, final)
      && octets <= octets2 && (forall k :: k in octets2 && k !in octets ==> pos <= k)
      && ContentHeld(m.buf, octets2, pos, m.end.value, Single(d)) && m.buf[..pos] == b[..pos]
  {
    hide Sound, MakeName, NameHeld, Regular, LabelsOf, Splice, Keeps;
    octets2, stored2 := octets, stored;
    match d
    case Pointer(target) =>
      stored2 := NameAdded(b, octets, pos, t, stored, final, LabelsOf(target));
      octets2 := octets + Span(pos, MakeName(b, pos, LabelsOf(target), Some(t)).end.value);
    case Service(priority, weight, port, host) =>
      var x := Put16(priority) + Put16(weight) + Put16(port);
      var b1 := Splice(b, pos, x);
      OctetsAdded(b, octets, pos, t, stored, final, x);
      stored2 := NameAdded(b1, octets, pos + 6, t, stored, final, LabelsOf(host));
      var m := MakeName(b1, pos + 6, LabelsOf(host), Some(t));
      octets2 := octets + Span(pos + 6, m.end.value);
      assert m.buf[pos..pos + 6] == m.buf[..pos + 6][pos..] == b1[..pos + 6][pos..] == b1[pos..pos + 6];
      assert m.buf[..pos] == m.buf[..pos + 6][..pos] == b1[..pos + 6][..pos] == b1[..pos];
      assert m.end.value >= pos + 6;
    case Address4(x) => OctetsAdded(b, octets, pos, t, stored, final, x);
    case Address6(x) => OctetsAdded(b, octets, pos, t, stored, final, x);
    case Other(_) => assert b[..pos] == b[..pos];
  }

  lemma FixedLength(rtype: u16, rclass: u16, ttl: u32, b: bytes, d: nat, e: nat)
    requires 10 <= d <= e <= |b| && b[d - 10..d] == Fixed(rtype, rclass, ttl, 0)
    ensures Patch(b, d, e)[d - 10..d] == Fixed(rtype, rclass, ttl, e - d)
    ensures Patch(b, d, e)[..d - 2] == b[..d - 2] && Patch(b, d, e)[d..] == b[d..]
  {
    hide Put16, Put32;
    var p := Patch(b, d, e);
    var f := Put16(rtype) + Put16(rclass) + Put32(ttl);
    assert p[d - 10..d] == p[d - 10..d - 2] + p[d - 2..d];
    assert p[d - 10..d - 2] == b[d - 10..d - 2] == b[d - 10..d][..8] == f;
  }

  lemma PatchKeeps(b: bytes, d: nat, e: nat, octets: set<nat>, pos: nat)
    requires 2 <= pos + 2 <= d <= e <= |b| && d - 2 !in octets && d - 1 !in octets
    ensures var b2 := Patch(b, d, e); Keeps(b, octets, b2) && b2[d..e] == b[d..e] && b2[..pos] == b[..pos]
  {}

  /** Filling in the length at last settles the record. */
  lemma LengthFilled(b: bytes, d: nat, e: nat, octets: set<nat>, t: Table, stored: map<nat, Name>, final: Label,
                     pos: nat, w: Wire) returns (s: Seen)
    requires t.Valid() && Sound(b, octets, e, t, stored, final) && 12 <= pos + 12 <= d <= e <= |b|
    requires d - 2 !in octets && d - 1 !in octets
    requires NameHeld(b, octets, pos, d - 10, w.name) && ContentHeld(b, octets, d, e, w.content)
    requires b[d - 10..d] == Fixed(w.rtype, w.rclass, w.ttl, 0)
    ensures var b2 := Patch(b, d, e);
      && Msg(b2, e, t, stored, final) && b2[..pos] == b[..pos]
      && Held(b2, e, s, w) && s.nameOffset == pos && DataEnd(s) == e
  {
    hide Sound, NameHeld, ContentHeld, Patch, Keeps, Fixed, Span;
    var b2 := Patch(b, d, e);
    FixedLength(w.rtype, w.rclass, w.ttl, b, d, e);
    PatchKeeps(b, d, e, octets, pos);
    OctetsBefore(b, octets, e, t, stored, final);
    assert octets <= Span(0, e);
    OtherOctetsWritten(b, octets, e, t, stored, final, b2, e);
    Settle(b2, octets, e, t, stored, final);
    NameHeldFrame(b, octets, pos, d - 10, w.name, b2, Span(0, e));
    ContentFrame(b, octets, d, e, w.content, b2, Span(0, e));
    s := Seen(w.entry, 0, w.rtype, w.rclass, w.ttl, pos, d - 10 - pos, d, e - d);
  }

  /** One more record. */
  lemma RecordAdded(b: bytes, pos: nat, t: Table, stored: map<nat, Name>, final: Label, entry: nat, r: Record)
    returns (stored2: map<nat, Name>, s: Seen)
    requires Msg(b, pos, t, stored, final) && RegularRecord(r, final) && !r.data.Text?
    requires AddRecord(b, pos, r, Some(t)).end.Some?
    ensures
      var m := AddRecord(b, pos, r, Some(t));
      && m.table.Some? && Msg(m.buf, m.end.value, m.table.value, stored2, final) && m.buf[..pos] == b[..pos]
      && Held(m.buf, m.end.value, s, WireOf(entry, r)) && s.nameOffset == pos && DataEnd(s) == m.end.value
  {
    hide Sound, NameHeld, ContentHeld, Held, Fixed, AddHeader, AddData, Patch, LabelsOf, Regular, RegularData;
    var stored1 := HeaderAdded(b, pos, t, stored, final, r);
    var h := AddHeader(b, pos, r, Some(t));
    var d := h.end.value;
    var octets := Span(0, d - 10);
    var octets2;
    octets2, stored2 := DataAdded(h.buf, octets, d, h.table.value, stored1, final, r.data);
    var m := AddData(h.buf, d, r.data, h.table);
    PrefixKept(h.buf, d, m.buf, d - 10, d);
    assert Keeps(h.buf, octets, m.buf);
    NameHeldFrame(h.buf, octets, pos, d - 10, LabelsOf(r.name), m.buf, octets2);
    NameHeldLength(h.buf, octets, pos, d - 10, LabelsOf(r.name));
    s := LengthFilled(m.buf, d, m.end.value, octets2, m.table.value, stored2, final, pos, WireOf(entry, r));
    PrefixKept(h.buf, d, m.buf, 0, pos);
  }

  lemma NameHeldLength(b: bytes, octets: set<nat>, o: nat, e: nat, name: Name)
    requires NameHeld(b, octets, o, e, name)
    ensures o + 2 <= e
  {}

  // Sections

  lemma WiresMore(entry: nat, r: Record, rest: seq<Record>, rclass: u16, ttl: u32)
    ensures WiresOf(entry, [r] + rest, rclass, ttl) == [WireOf(entry, Updated(r, rclass, ttl))] + WiresOf(entry, rest, rclass, ttl)
  {}

  lemma {:induction false} NonTextsFirst(records: seq<Record>)
    requires records != []
    ensures NonTexts(records) == (if records[0].data.Text? then [] else [records[0]]) + NonTexts(records[1..])
    ensures Texts(records) == (if records[0].data.Text? then [records[0]] else []) + Texts(records[1..])
  {}

  lemma {:induction false} AddRecordsFirst(b: bytes, pos: nat, records: seq<Record>, rclass: u16, ttl: u32, t: Option<Table>)
    requires Usable(b, pos, t)
    ensures AddRecords(b, pos, records, rclass, ttl, t) ==
      if records == [] then Made(b, t, Some(pos))
      else
        var m := AddRecord(b, pos, Updated(records[0], rclass, ttl), t);
        if m.end.None? then m else AddRecords(m.buf, m.end.value, records[1..], rclass, ttl, m.table)
  {}

  lemma RegularUpdated(r: Record, rclass: u16, ttl: u32, final: Label)
    requires RegularRecord(r, final)
    ensures RegularRecord(Updated(r, rclass, ttl), final)
  {}

  lemma TextAdded(b: bytes, pos: nat, r: Record, t: Option<Table>)
    requires Usable(b, pos, t) && r.data.Text?
    ensures AddRecord(b, pos, r, t) == Made(b, t, Some(pos))
  {}

  /** The records of a section that are not TXT records. */
  lemma {:induction false} RecordsAdded(b: bytes, pos: nat, t: Table, stored: map<nat, Name>, final: Label, entry: nat,
                                        records: seq<Record>, rclass: u16, ttl: u32)
    returns (stored2: map<nat, Name>, seen: seq<Seen>)
    requires Msg(b, pos, t, stored, final) && AllRegular(records, final)
    requires AddRecords(b, pos, records, rclass, ttl, Some(t)).end.Some?
    ensures
      var m := AddRecords(b, pos, records, rclass, ttl, Some(t));
      && m.table.Some? && Msg(m.buf, m.end.value, m.table.value, stored2, final) && m.buf[..pos] == b[..pos]
      && AllHeld(m.buf, m.end.value, pos, seen, WiresOf(entry, NonTexts(records), rclass, ttl)) && EndOf(pos, seen) == m.end.value
    decreases |records|
  {
    hide Sound, AddRecord, AddRecords, RegularRecord, Held, Updated, WiresOf, WireOf, NonTexts, Texts;
    AddRecordsFirst(b, pos, records, rclass, ttl, Some(t));
    stored2, seen := stored, [];
    if records == [] {
      NoWires(entry, rclass, ttl);
      assert b[..pos] == b[..pos];
    } else {
      NonTextsFirst(records);
      var r := Updated(records[0], rclass, ttl);
      if records[0].data.Text? {
        TextUpdated(records[0], rclass, ttl);
        TextAdded(b, pos, r, Some(t));
        stored2, seen := RecordsAdded(b, pos, t, stored, final, entry, records[1..], rclass, ttl);
        assert [] + NonTexts(records[1..]) == NonTexts(records[1..]);
      } else {
        TextUpdated(records[0], rclass, ttl);
        RegularUpdated(records[0], rclass, ttl, final);
        var stored1, s := RecordAdded(b, pos, t, stored, final, entry, r);
        var m1 := AddRecord(b, pos, r, Some(t));
        stored2, seen := RecordsAdded(m1.buf, m1.end.value, m1.table.value, stored1, final, entry, records[1..], rclass, ttl);
        WiresMore(entry, records[0], NonTexts(records[1..]), rclass, ttl);
        var m := AddRecords(b, pos, records, rclass, ttl, Some(t));
        seen := HeldInFront(m1.buf, m1.end.value, s, WireOf(entry, r), m.buf, m.end.value, seen,
                            WiresOf(entry, NonTexts(records[1..]), rclass, ttl));
        PrefixKept(m1.buf, m1.end.value, m.buf, 0, pos);
      }
    }
  }

  lemma NoWires(entry: nat, rclass: u16, ttl: u32)
    ensures WiresOf(entry, NonTexts([]), rclass, ttl) == []
  {}

  lemma TextUpdated(r: Record, rclass: u16, ttl: u32)
    ensures Updated(r, rclass, ttl).data == r.data && Updated(r, rclass, ttl).name == r.name
  {}

  lemma HeldInFront(b: bytes, n: nat, s: Seen, w: Wire, b2: bytes, n2: nat, seen: seq<Seen>, wires: seq<Wire>)
    returns (all: seq<Seen>)
    requires Held(b, n, s, w) && n <= n2 <= |b2| && b2[..n] == b[..n] && DataEnd(s) == n
    requires AllHeld(b2, n2, n, seen, wires)
    ensures all == [s] + seen && AllHeld(b2, n2, s.nameOffset, all, [w] + wires) && EndOf(s.nameOffset, all) == EndOf(n, seen)
  {
    HeldFrame(b, n, s, w, b2, n2);
    hide Held;
    all := [s] + seen;
    assert all[1..] == seen && ([w] + wires)[1..] == wires;
  }

  lemma AddTextsFirst(b: bytes, pos: nat, records: seq<Record>, rclass: u16, ttl: u32, t: Option<Table>, start: Option<nat>)
    requires Usable(b, pos, t) && (start.Some? ==> 2 <= start.value <= pos) && records != []
    ensures AddTexts(b, pos, records, rclass, ttl, t, start) ==
      if !records[0].data.Text? then AddTexts(b, pos, records[1..], rclass, ttl, t, start)
      else
        var Text(key, value) := records[0].data;
        var h := if start.Some? then Made(b, t, Some(pos)) else AddHeader(b, pos, Updated(records[0], rclass, ttl), t);
        if h.end.None? then h
        else if !TextFits(h.buf, h.end.value, key, value) then h.(end := None)
        else
          AddTexts(Splice(h.buf, h.end.value, TextString(key, value)), h.end.value + |key| + |value| + 2, records[1..],
                   rclass, ttl, h.table, Some(if start.Some? then start.value else h.end.value))
  {
    hide AddHeader, Splice, TextString;
  }

  /** At the first TXT record the header is written, and the loop goes on as if it had been there. */
  lemma {:induction false} TextsBegin(b: bytes, pos: nat, records: seq<Record>, rclass: u16, ttl: u32, t: Option<Table>)
    requires Usable(b, pos, t) && records != [] && records[0].data.Text?
    ensures
      var h := AddHeader(b, pos, Updated(records[0], rclass, ttl), t);
      AddTexts(b, pos, records, rclass, ttl, t, None) ==
      if h.end.None? then h else AddTexts(h.buf, h.end.value, records, rclass, ttl, h.table, h.end)
  {
    hide AddHeader, AddTexts, Splice, TextString, Updated;
    AddTextsFirst(b, pos, records, rclass, ttl, t, None);
    var h := AddHeader(b, pos, Updated(records[0], rclass, ttl), t);
    if h.end.Some? { AddTextsFirst(h.buf, h.end.value, records, rclass, ttl, h.table, h.end); }
  }

  lemma {:induction false} TextOctetsJoin(p: seq<(bytes, bytes)>, q: seq<(bytes, bytes)>)
    ensures TextOctets(p + q) == TextOctets(p) + TextOctets(q)
  {
    if p == [] {
      assert p + q == q;
    } else {
      assert (p + q)[1..] == p[1..] + q;
      TextOctetsJoin(p[1..], q);
    }
  }

  /** The strings behind the header at d: b2 is the buffer before the length is filled in. */
  lemma {:induction false} StringsAdded(b: bytes, octets: set<nat>, pos: nat, records: seq<Record>, rclass: u16, ttl: u32,
                                        t: Table, d: nat, stored: map<nat, Name>, final: Label, done: seq<(bytes, bytes)>)
    returns (b2: bytes)
    requires Sound(b, octets, pos, t, stored, final) && t.Valid() && 2 <= d <= pos <= |b| && b[d..pos] == TextOctets(done)
    requires AddTexts(b, pos, records, rclass, ttl, Some(t), Some(d)).end.Some?
    ensures
      var m := AddTexts(b, pos, records, rclass, ttl, Some(t), Some(d));
      && m.table == Some(t) && |b2| == |b| && m.buf == Patch(b2, d, m.end.value)
      && Sound(b2, octets, m.end.value, t, stored, final) && b2[..pos] == b[..pos]
      && b2[d..m.end.value] == TextOctets(done + PairsOf(Texts(records))) && Keeps(b, octets, b2)
    decreases |records|
  {
    hide Sound, AddTexts, Patch, TextString, Texts, NonTexts, TextOctets, Splice, Updated, Keeps;
    if records == [] {
      AddTextsEnd(b, pos, records, rclass, ttl, Some(t), Some(d));
      b2 := b;
      NoTexts(b, octets);
      assert done + PairsOf([]) == done;
    } else {
      AddTextsFirst(b, pos, records, rclass, ttl, Some(t), Some(d));
      NonTextsFirst(records);
      if !records[0].data.Text? {
        b2 := StringsAdded(b, octets, pos, records[1..], rclass, ttl, t, d, stored, final, done);
        assert [] + Texts(records[1..]) == Texts(records[1..]);
      } else {
        var Text(key, value) := records[0].data;
        var x := TextString(key, value);
        var b1 := Splice(b, pos, x);
        OctetsAdded(b, octets, pos, t, stored, final, x);
        var done1 := done + [(key, value)];
        OneMoreString(b, b1, d, pos, done, key, value);
        b2 := StringsAdded(b1, octets, pos + |x|, records[1..], rclass, ttl, t, d, stored, final, done1);
        PrefixKept(b1, pos + |x|, b2, 0, pos);
        KeepsTwice(b, octets, b1, b2);
        assert done + PairsOf([records[0]] + Texts(records[1..])) == done1 + PairsOf(Texts(records[1..]));
      }
    }
  }

  lemma NoTexts(b: bytes, octets: set<nat>)
    ensures Texts([]) == [] && Keeps(b, octets, b)
  {}

  lemma KeepsTwice(b: bytes, octets: set<nat>, b1: bytes, b2: bytes)
    requires Keeps(b, octets, b1) && Keeps(b1, octets, b2)
    ensures Keeps(b, octets, b2)
  {}

  lemma {:induction false} OneMoreString(b: bytes, b1: bytes, d: nat, pos: nat, done: seq<(bytes, bytes)>, key: bytes, value: bytes)
    requires d <= pos <= |b| && b[d..pos] == TextOctets(done)
    requires var x := TextString(key, value); pos + |x| <= |b1| && b1[..pos] == b[..pos] && b1[pos..pos + |x|] == x
    ensures b1[d..pos + |TextString(key, value)|] == TextOctets(done + [(key, value)])
  {
    var x, one := TextString(key, value), [(key, value)];
    TextOctetsJoin(done, one);
    assert TextOctets(one[1..]) == [];
    assert TextOctets(one) == x + [] == x;
    assert b1[d..pos + |x|] == b1[..pos][d..] + b1[pos..pos + |x|];
    assert b[..pos][d..] == b[d..pos];
  }

  /** The one TXT record of a section, if it has any. */
  lemma {:induction false} TextsAdded(b: bytes, pos: nat, t: Table, stored: map<nat, Name>, final: Label, entry: nat,
                                      records: seq<Record>, rclass: u16, ttl: u32)
    returns (stored2: map<nat, Name>, seen: seq<Seen>)
    requires Msg(b, pos, t, stored, final) && AllRegular(records, final)
    requires AddTexts(b, pos, records, rclass, ttl, Some(t), None).end.Some?
    ensures
      var m := AddTexts(b, pos, records, rclass, ttl, Some(t), None);
      && m.table.Some? && Msg(m.buf, m.end.value, m.table.value, stored2, final) && m.buf[..pos] == b[..pos]
      && AllHeld(m.buf, m.end.value, pos, seen, TextWires(entry, Texts(records), rclass, ttl)) && EndOf(pos, seen) == m.end.value
    decreases |records|
  {
    hide Sound, AddTexts, RegularRecord, Held, Updated, WireOf, NonTexts, Texts;
    stored2, seen := stored, [];
    if records == [] {
      AddTextsEnd(b, pos, records, rclass, ttl, Some(t), None);
      NoTexts(b, {});
      assert b[..pos] == b[..pos];
    } else {
      NonTextsFirst(records);
      if !records[0].data.Text? {
        AddTextsFirst(b, pos, records, rclass, ttl, Some(t), None);
        stored2, seen := TextsAdded(b, pos, t, stored, final, entry, records[1..], rclass, ttl);
        assert [] + Texts(records[1..]) == Texts(records[1..]);
      } else {
        var s;
        stored2, s := TextRecordAdded(b, pos, t, stored, final, entry, records, rclass, ttl);
        seen := [s];
        OneHeld(AddTexts(b, pos, records, rclass, ttl, Some(t), None).buf, s,
                WireOf(entry, Updated(records[0], rclass, ttl)).(content := Strings(PairsOf(Texts(records)))));
      }
    }
  }

  lemma {:induction false} OneHeld(b: bytes, s: Seen, w: Wire)
    requires Held(b, DataEnd(s), s, w)
    ensures AllHeld(b, DataEnd(s), s.nameOffset, [s], [w]) && EndOf(s.nameOffset, [s]) == DataEnd(s)
  {
    hide Held;
    assert [s][1..] == [] && [w][1..] == [];
  }

  lemma TextRecordAdded(b: bytes, pos: nat, t: Table, stored: map<nat, Name>, final: Label, entry: nat,
                        records: seq<Record>, rclass: u16, ttl: u32)
    returns (stored2: map<nat, Name>, s: Seen)
    requires Msg(b, pos, t, stored, final) && AllRegular(records, final) && records != [] && records[0].data.Text?
    requires AddTexts(b, pos, records, rclass, ttl, Some(t), None).end.Some?
    ensures
      var m := AddTexts(b, pos, records, rclass, ttl, Some(t), None);
      var w := WireOf(entry, Updated(records[0], rclass, ttl)).(content := Strings(PairsOf(Texts(records))));
      && m.table.Some? && Msg(m.buf, m.end.value, m.table.value, stored2, final) && m.buf[..pos] == b[..pos]
      && Held(m.buf, m.end.value, s, w) && s.nameOffset == pos && DataEnd(s) == m.end.value
  {
    hide Sound, AddTexts, AddHeader, NameHeld, Held, Fixed, Updated, NonTexts, Texts, TextOctets, Patch, Keeps, Regular,
         LabelsOf, RegularData, TypeOf;
    var r := Updated(records[0], rclass, ttl);
    TextUpdated(records[0], rclass, ttl);
    TextsBegin(b, pos, records, rclass, ttl, Some(t));
    assert RegularRecord(records[0], final);
    stored2 := HeaderAdded(b, pos, t, stored, final, r);
    var h := AddHeader(b, pos, r, Some(t));
    var d := h.end.value;
    var octets := Span(0, d - 10);
    EmptyData(h.buf, d);
    var b2 := StringsAdded(h.buf, octets, d, records, rclass, ttl, h.table.value, d, stored2, final, []);
    var e := AddTexts(b, pos, records, rclass, ttl, Some(t), None).end.value;
    assert [] + PairsOf(Texts(records)) == PairsOf(Texts(records));
    PrefixKept(h.buf, d, b2, d - 10, d);
    NameHeldFrame(h.buf, octets, pos, d - 10, LabelsOf(r.name), b2, octets);
    NameHeldLength(h.buf, octets, pos, d - 10, LabelsOf(r.name));
    s := LengthFilled(b2, d, e, octets, h.table.value, stored2, final, pos,
                      WireOf(entry, r).(content := Strings(PairsOf(Texts(records)))));
    PrefixKept(h.buf, d, b2, 0, pos);
  }

  lemma EmptyData(b: bytes, d: nat)
    requires d <= |b|
    ensures b[d..d] == TextOctets([])
  {}

  /** A whole section. */
  lemma SectionAdded(b: bytes, pos: nat, t: Table, stored: map<nat, Name>, final: Label, entry: nat,
                     records: seq<Record>, rclass: u16, ttl: u32)
    returns (stored2: map<nat, Name>, seen: seq<Seen>)
    requires Msg(b, pos, t, stored, final) && AllRegular(records, final)
    requires AddSection(b, pos, records, rclass, ttl, Some(t)).end.Some?
    ensures
      var m := AddSection(b, pos, records, rclass, ttl, Some(t));
      && m.table.Some? && Msg(m.buf, m.end.value, m.table.value, stored2, final) && m.buf[..pos] == b[..pos]
      && AllHeld(m.buf, m.end.value, pos, seen, SectionWires(entry, records, rclass, ttl)) && EndOf(pos, seen) == m.end.value
  {
    hide Sound, AddRecords, AddTexts, AllRegular, AllHeld, WiresOf, TextWires, NonTexts, Texts, EndOf;
    var stored1, first := RecordsAdded(b, pos, t, stored, final, entry, records, rclass, ttl);
    var m1 := AddRecords(b, pos, records, rclass, ttl, Some(t));
    var n := m1.end.value;
    var second;
    stored2, second := TextsAdded(m1.buf, n, m1.table.value, stored1, final, entry, records, rclass, ttl);
    var m := AddTexts(m1.buf, n, records, rclass, ttl, m1.table, None);
    var w1, w2 := WiresOf(entry, NonTexts(records), rclass, ttl), TextWires(entry, Texts(records), rclass, ttl);
    AllHeldFrame(m1.buf, n, pos, first, w1, m.buf, m.end.value);
    AllHeldJoin(m.buf, m.end.value, pos, first, w1, second, w2);
    seen := first + second;
    PrefixKept(m1.buf, n, m.buf, 0, pos);
  }

  // Reading

  /** A callback that lets the scan go on. */
  ghost predicate GoesOn(callback: Seen -> bool) {
    forall s :: !callback(s)
  }

  lemma U16ReadsBack(b: bytes, o: nat, v: u16)
    requires o + 2 <= |b| && b[o..o + 2] == Put16(v)
    ensures U16At(b, o) == v
  {
    Put16ReadsBack(v);
    assert b[o] == b[o..o + 2][0] && b[o + 1] == b[o..o + 2][1];
  }

  lemma U32ReadsBack(b: bytes, o: nat, v: u32)
    requires o + 4 <= |b| && b[o..o + 4] == Put32(v)
    ensures U32At(b, o) == v
  {
    assert Put16(v) == Put16(v % 0x10000) by { LowHalf(v); }
    hide Put16;
    assert b[o..o + 2] == b[o..o + 4][..2] == Put16(v / 0x10000);
    assert b[o + 2..o + 4] == b[o..o + 4][2..] == Put16(v % 0x10000);
    U16ReadsBack(b, o, v / 0x10000);
    U16ReadsBack(b, o + 2, v % 0x10000);
  }

  lemma LowHalf(v: nat)
    ensures Put16(v) == Put16(v % 0x10000)
  {
    assert v == 0x10000 * (v / 0x10000) + v % 0x10000;
    assert v / 256 == 256 * (v / 0x10000) + v % 0x10000 / 256;
  }

  lemma FixedFields(rtype: u16, rclass: u16, ttl: u32, length: nat)
    ensures var f := Fixed(rtype, rclass, ttl, length);
            f[0..2] == Put16(rtype) && f[2..4] == Put16(rclass) && f[4..8] == Put32(ttl) && f[8..10] == Put16(length)
  {
    hide Put16, Put32;
  }

  /** The fixed fields are read as they were written. */
  lemma FixedReadsBack(b: bytes, at: nat, rtype: u16, rclass: u16, ttl: u32, length: u16)
    requires at + 10 <= |b| && b[at..at + 10] == Fixed(rtype, rclass, ttl, length)
    ensures U16At(b, at) == rtype && U16At(b, at + 2) == rclass && U32At(b, at + 4) == ttl && U16At(b, at + 8) == length
  {
    hide Put16, Put32, U16At, U32At;
    Slice(b, at, at + 10, 0, 2);
    Slice(b, at, at + 10, 2, 4);
    Slice(b, at, at + 10, 4, 8);
    Slice(b, at, at + 10, 8, 10);
    FixedFields(rtype, rclass, ttl, length);
    U16ReadsBack(b, at, rtype);
    U16ReadsBack(b, at + 2, rclass);
    U32ReadsBack(b, at + 4, ttl);
    U16ReadsBack(b, at + 8, length);
  }

  lemma NameHeldReads(b: bytes, octets: set<nat>, o: nat, e: nat, name: Name)
    requires NameHeld(b, octets, o, e, name)
    ensures NameAt(b, o) == Some(Decoded(name, e)) && NameEnd(b, o) == e
  {
    hide Compressed, Decode, SkipFrom, End;
    DecodeCompressed(b, octets, o, name, MAX_SUBSTRINGS);
    ExtractImpliesSkip(b, o, MAX_SUBSTRINGS);
  }

  /** A record that lies in a packet is seen where it lies. */
  lemma HeldSeen(b: bytes, s: Seen, w: Wire)
    requires |b| < 0x10000 && Held(b, |b|, s, w)
    ensures NameEnd(b, s.nameOffset) + 10 <= |b| && SeenAt(b, s.nameOffset, w.entry, 0) == s
  {
    hide NameHeld, ContentHeld, NameEnd, U16At, U32At, Fixed;
    NameHeldReads(b, Span(0, |b|), s.nameOffset, s.nameOffset + s.nameLength, w.name);
    NameHeldLength(b, Span(0, |b|), s.nameOffset, s.nameOffset + s.nameLength, w.name);
    FixedReadsBack(b, s.dataOffset - 10, w.rtype, w.rclass, w.ttl, s.dataLength);
  }

  predicate AllEntries(wires: seq<Wire>, entry: nat) {
    forall i :: 0 <= i < |wires| ==> wires[i].entry == entry
  }

  /** The scan sees all records of a section, and stops behind them. */
  lemma {:induction false} SectionSeen(b: bytes, o: nat, seen: seq<Seen>, wires: seq<Wire>, entry: nat, callback: Seen -> bool)
    requires |b| < 0x10000 && AllHeld(b, |b|, o, seen, wires) && AllEntries(wires, entry) && GoesOn(callback)
    ensures ScanRecords(b, o, entry, 0, |seen|, callback) == Scan(seen, EndOf(o, seen))
    decreases |seen|
  {
    hide Held, ScanRecords, SeenAt, NameEnd;
    if seen == [] {
      ScanNone(b, o, entry, 0, callback);
    } else {
      HeldSeen(b, seen[0], wires[0]);
      HeldBounds(b, |b|, seen[0], wires[0]);
      ScanStep(b, o, entry, 0, |seen|, callback);
      SectionSeen(b, DataEnd(seen[0]), seen[1..], wires[1..], entry, callback);
      assert [seen[0]] + seen[1..] == seen;
    }
  }

  lemma HeldBounds(b: bytes, n: nat, s: Seen, w: Wire)
    requires Held(b, n, s, w)
    ensures s.nameOffset + 12 <= DataEnd(s) <= n <= |b|
  {}

  lemma {:induction false} ManyTakeRoom(b: bytes, n: nat, o: nat, seen: seq<Seen>, w: seq<Wire>)
    requires AllHeld(b, n, o, seen, w)
    ensures |seen| == |w| && o + 12 * |seen| <= EndOf(o, seen) && (seen != [] ==> EndOf(o, seen) <= n)
    decreases |seen|
  {
    hide Held;
    if seen != [] {
      HeldBounds(b, n, seen[0], w[0]);
      ManyTakeRoom(b, n, DataEnd(seen[0]), seen[1..], w[1..]);
    }
  }

  /** The strings of a TXT record: each has the low eight bits of its length, the key, '=' and the value (RFC 6763). */
  function StringsOnWire(pairs: seq<(bytes, bytes)>): bytes {
    if pairs == [] then []
    else [(|pairs[0].0| + 1 + |pairs[0].1|) % 256] + pairs[0].0 + [0x3D] + pairs[0].1 + StringsOnWire(pairs[1..])
  }

  lemma {:induction false} TextOctetsOnWire(pairs: seq<(bytes, bytes)>)
    ensures TextOctets(pairs) == StringsOnWire(pairs)
  {
    if pairs != [] { TextOctetsOnWire(pairs[1..]); }
  }

  /** The fixed fields of a record lie right behind its name, in network order (sections 3.2.1 and 4.1.3 of RFC 1035). */
  predicate FieldsLie(b: bytes, s: Seen) {
    && 10 <= s.dataOffset == s.nameOffset + s.nameLength + 10 && DataEnd(s) <= |b| && s.dataLength < 0x10000
    && b[s.dataOffset - 10..s.dataOffset] ==
         [s.rtype / 256, s.rtype % 256, s.rclass / 256, s.rclass % 256, s.ttl / 0x100_0000, s.ttl / 0x1_0000 % 256,
          s.ttl / 256 % 256, s.ttl % 256, s.dataLength / 256, s.dataLength % 256]
  }

  /** So do priority, weight and port of an SRV record (RFC 2782). */
  predicate ServiceLies(b: bytes, s: Seen, d: Data) {
    d.Service? ==>
      && s.dataLength >= 6 && DataEnd(s) <= |b|
      && b[s.dataOffset..s.dataOffset + 6] ==
           [d.priority / 256, d.priority % 256, d.weight / 256, d.weight % 256, d.port / 256, d.port % 256]
  }

  predicate StringsLie(b: bytes, s: Seen, pairs: seq<(bytes, bytes)>) {
    DataEnd(s) <= |b| && b[s.dataOffset..DataEnd(s)] == StringsOnWire(pairs)
  }

  predicate OnWire(b: bytes, s: Seen, c: Content) {
    && FieldsLie(b, s)
    && match c
       case Single(d) => ServiceLies(b, s, d)
       case Strings(pairs) => StringsLie(b, s, pairs)
  }

  /** What the readers of record data make of the data of one record. */
  predicate DataRead(b: bytes, s: Seen, d: Data) {
    match d
    case Pointer(target) => DataName(b, s.dataOffset, s.dataLength, 0) == Some(LabelsOf(target))
    case Service(priority, weight, port, host) =>
      && ServiceAt(b, s.dataOffset, s.dataLength) == ServiceFields(priority, weight, port)
      && DataName(b, s.dataOffset, s.dataLength, 6) == Some(LabelsOf(host))
    case Address4(x) => Address4At(b, s.dataOffset, s.dataLength) == x
    case Address6(x) => Address6At(b, s.dataOffset, s.dataLength) == x
    case Other(_) => s.dataLength == 0
    case Text(_, _) => false
  }

  /** What they make of the strings of a TXT record. */
  ghost predicate StringsRead(b: bytes, s: Seen, pairs: seq<(bytes, bytes)>) {
    && DataEnd(s) <= |b|
    && forall capacity :: |pairs| <= capacity ==>
         (PairsIn(b[s.dataOffset..DataEnd(s)], capacity) == AsWritten(pairs) <==> AllPlain(pairs))
  }

  /** A record seen gives back the one written. */
  ghost predicate ReadBack(b: bytes, s: Seen, w: Wire) {
    && s.entry == w.entry && s.rtype == w.rtype && s.rclass == w.rclass && s.ttl == w.ttl
    && NameAt(b, s.nameOffset) == Some(Decoded(w.name, s.nameOffset + s.nameLength))
    && OnWire(b, s, w.content)
    && match w.content
       case Single(d) => DataRead(b, s, d)
       case Strings(pairs) => StringsRead(b, s, pairs)
  }

  lemma FixedOctets(rtype: u16, rclass: u16, ttl: u32, length: u16)
    ensures Fixed(rtype, rclass, ttl, length) ==
      [rtype / 256, rtype % 256, rclass / 256, rclass % 256, ttl / 0x100_0000, ttl / 0x1_0000 % 256,
       ttl / 256 % 256, ttl % 256, length / 256, length % 256]
  {
    assert ttl / 0x1_0000 / 256 == ttl / 0x100_0000 < 256;
    assert rtype / 256 < 256 && rclass / 256 < 256 && length / 256 < 256;
  }

  lemma HeldOnWire(b: bytes, s: Seen, w: Wire)
    requires Held(b, |b|, s, w) && |b| < 0x10000
    ensures OnWire(b, s, w.content)
  {
    hide NameHeld, Fixed, TextOctets;
    if w.content.Strings? { TextOctetsOnWire(w.content.pairs); }
    hide StringsOnWire;
    FixedOctets(w.rtype, w.rclass, w.ttl, s.dataLength);
    assert w.content.Single? && w.content.data.Service? ==>
      var d := w.content.data; d.priority / 256 < 256 && d.weight / 256 < 256 && d.port / 256 < 256;
  }

  lemma ServiceOctets(priority: u16, weight: u16, port: u16)
    ensures var x := Put16(priority) + Put16(weight) + Put16(port);
            x[0..2] == Put16(priority) && x[2..4] == Put16(weight) && x[4..6] == Put16(port)
  {
    hide Put16;
  }

  lemma ServiceReadsBack(b: bytes, o: nat, length: nat, priority: u16, weight: u16, port: u16)
    requires 8 <= length && o + length <= |b| && b[o..o + 6] == Put16(priority) + Put16(weight) + Put16(port)
    ensures ServiceAt(b, o, length) == ServiceFields(priority, weight, port)
  {
    hide Put16, U16At;
    Slice(b, o, o + 6, 0, 2);
    Slice(b, o, o + 6, 2, 4);
    Slice(b, o, o + 6, 4, 6);
    ServiceOctets(priority, weight, port);
    U16ReadsBack(b, o, priority);
    U16ReadsBack(b, o + 2, weight);
    U16ReadsBack(b, o + 4, port);
  }

  lemma {:induction false} DataReadsBack(b: bytes, s: Seen, d: Data)
    requires DataEnd(s) <= |b| && ContentHeld(b, Span(0, |b|), s.dataOffset, DataEnd(s), Single(d))
    ensures DataRead(b, s, d)
  {
    hide NameHeld, Decode, U16At, LabelsOf;
    var octets, o, e := Span(0, |b|), s.dataOffset, DataEnd(s);
    match d
    case Pointer(target) =>
      NameHeldReads(b, octets, o, e, LabelsOf(target));
      NameHeldLength(b, octets, o, e, LabelsOf(target));
    case Service(priority, weight, port, host) =>
      NameHeldReads(b, octets, o + 6, e, LabelsOf(host));
      NameHeldLength(b, octets, o + 6, e, LabelsOf(host));
      ServiceReadsBack(b, o, s.dataLength, priority, weight, port);
    case _ =>
  }

  lemma {:induction false} StringsReadBack(b: bytes, s: Seen, pairs: seq<(bytes, bytes)>)
    requires DataEnd(s) <= |b| && b[s.dataOffset..DataEnd(s)] == TextOctets(pairs)
    ensures StringsRead(b, s, pairs)
  {
    hide PairsIn, TextOctets, AllPlain, AsWritten;
    forall capacity | |pairs| <= capacity
      ensures PairsIn(b[s.dataOffset..DataEnd(s)], capacity) == AsWritten(pairs) <==> AllPlain(pairs)
    {
      TextRoundTripExactly(pairs, capacity);
    }
  }

  lemma HeldReadsBack(b: bytes, s: Seen, w: Wire)
    requires Held(b, |b|, s, w) && |b| < 0x10000
    ensures ReadBack(b, s, w)
  {
    hide NameHeld, OnWire, DataRead, StringsRead, Decode;
    HeldOnWire(b, s, w);
    NameHeldReads(b, Span(0, |b|), s.nameOffset, s.nameOffset + s.nameLength, w.name);
    match w.content
    case Single(d) => DataReadsBack(b, s, d);
    case Strings(pairs) => StringsReadBack(b, s, pairs);
  }

  lemma {:induction false} AllHeldReadBack(b: bytes, o: nat, seen: seq<Seen>, wires: seq<Wire>, i: nat)
    requires AllHeld(b, |b|, o, seen, wires) && i < |seen| && |b| < 0x10000
    ensures i < |wires| && ReadBack(b, seen[i], wires[i])
    decreases i
  {
    hide Held, ReadBack;
    if i == 0 { HeldReadsBack(b, seen[0], wires[0]); }
    else { AllHeldReadBack(b, DataEnd(seen[0]), seen[1..], wires[1..], i - 1); }
  }

  lemma HeaderFields(authority: nat, additional: nat)
    ensures var h := MessageHeader(authority, additional);
      && h[0..2] == Put16(0) && h[2..4] == Put16(0x8400) && h[4..6] == Put16(0) && h[6..8] == Put16(1)
      && h[8..10] == Put16(authority) && h[10..12] == Put16(additional)
  {
    hide Put16;
  }

  /** The counts in the header are those of the records written. */
  lemma HeaderReadsBack(b: bytes, authority: nat, additional: nat)
    requires HEADER_SIZE <= |b| && b[..HEADER_SIZE] == MessageHeader(authority, additional)
    requires authority < 0x10000 && additional < 0x10000
    ensures U16At(b, 0) == 0 && U16At(b, 2) == 0x8400 && U16At(b, 4) == 0 && U16At(b, 6) == 1
    ensures U16At(b, 8) == authority && U16At(b, 10) == additional
  {
    hide Put16, U16At, MessageHeader;
    HeaderFields(authority, additional);
    HeaderField(b, authority, additional, 0, 0);
    HeaderField(b, authority, additional, 2, 0x8400);
    HeaderField(b, authority, additional, 4, 0);
    HeaderField(b, authority, additional, 6, 1);
    HeaderField(b, authority, additional, 8, authority);
    HeaderField(b, authority, additional, 10, additional);
  }

  lemma HeaderField(b: bytes, authority: nat, additional: nat, o: nat, v: u16)
    requires HEADER_SIZE <= |b| && b[..HEADER_SIZE] == MessageHeader(authority, additional)
    requires o + 2 <= HEADER_SIZE && MessageHeader(authority, additional)[o..o + 2] == Put16(v)
    ensures U16At(b, o) == v
  {
    hide Put16, U16At, MessageHeader;
    assert b[o..o + 2] == b[..HEADER_SIZE][o..o + 2];
    U16ReadsBack(b, o, v);
  }

  lemma SectionLength(entry: nat, records: seq<Record>, rclass: u16, ttl: u32)
    ensures |SectionWires(entry, records, rclass, ttl)| == RecordCount(records)
    ensures AllEntries(SectionWires(entry, records, rclass, ttl), entry)
  {}

  lemma NothingYet(b: bytes, final: Label)
    requires HEADER_SIZE <= |b| <= 0x4000
    ensures Msg(b, HEADER_SIZE, EmptyTable(), map[], final)
  {
    var none: set<nat> := {};
    assert Ready(b, none, HEADER_SIZE, HEADER_SIZE, EmptyTable(), map[], map[]);
    Settle(b, none, HEADER_SIZE, EmptyTable(), map[], final);
  }

  /** The answer as it is written: a TXT record is not. */
  function AnswerWires(answer: Record, rclass: u16, ttl: u32): seq<Wire> {
    if answer.data.Text? then [] else [WireOf(ANSWER, Updated(answer, rclass, ttl))]
  }

  lemma AnswerAdded(b: bytes, pos: nat, t: Table, stored: map<nat, Name>, final: Label, answer: Record, rclass: u16, ttl: u32)
    returns (stored2: map<nat, Name>, first: seq<Seen>)
    requires Msg(b, pos, t, stored, final) && RegularRecord(answer, final)
    requires AddRecord(b, pos, Updated(answer, rclass, ttl), Some(t)).end.Some?
    ensures
      var m := AddRecord(b, pos, Updated(answer, rclass, ttl), Some(t));
      && m.table.Some? && Msg(m.buf, m.end.value, m.table.value, stored2, final) && m.buf[..pos] == b[..pos]
      && AllHeld(m.buf, m.end.value, pos, first, AnswerWires(answer, rclass, ttl)) && EndOf(pos, first) == m.end.value
  {
    hide Sound, RegularRecord, Held, Updated, WireOf;
    TextUpdated(answer, rclass, ttl);
    if answer.data.Text? {
      stored2, first := stored, [];
      TextAdded(b, pos, Updated(answer, rclass, ttl), Some(t));
    } else {
      RegularUpdated(answer, rclass, ttl, final);
      hide AddRecord;
      var s;
      stored2, s := RecordAdded(b, pos, t, stored, final, ANSWER, Updated(answer, rclass, ttl));
      first := [s];
      OneHeld(AddRecord(b, pos, Updated(answer, rclass, ttl), Some(t)).buf, s, WireOf(ANSWER, Updated(answer, rclass, ttl)));
    }
  }

  /** What is written where, section by section. */
  lemma MessageBuilt(b: bytes, answer: Record, authority: seq<Record>, additional: seq<Record>, rclass: u16, ttl: u32,
                     final: Label) returns (first: seq<Seen>, second: seq<Seen>, third: seq<Seen>)
    requires |b| <= 0x4000 && RegularRecord(answer, final)
    requires AllRegular(authority, final) && AllRegular(additional, final)
    requires AnswerMessage(b, answer, authority, additional, rclass, ttl).end.Some?
    ensures
      var m := AnswerMessage(b, answer, authority, additional, rclass, ttl);
      var e := m.end.value;
      && m.buf[..HEADER_SIZE] == MessageHeader(RecordCount(authority), RecordCount(additional))
      && AllHeld(m.buf, e, HEADER_SIZE, first, AnswerWires(answer, rclass, ttl))
      && AllHeld(m.buf, e, EndOf(HEADER_SIZE, first), second, SectionWires(AUTHORITY, authority, rclass, ttl))
      && AllHeld(m.buf, e, EndOf(EndOf(HEADER_SIZE, first), second), third, SectionWires(ADDITIONAL, additional, rclass, ttl))
      && EndOf(EndOf(EndOf(HEADER_SIZE, first), second), third) == e
  {
    hide Sound, AddRecord, AddSection, AllRegular, RegularRecord, AllHeld, SectionWires, EndOf, RecordCount, Updated,
         AnswerWires, Splice;
    var b0 := Splice(b, 0, MessageHeader(RecordCount(authority), RecordCount(additional)));
    var w0 := AnswerWires(answer, rclass, ttl);
    NothingYet(b0, final);
    var st;
    st, first := AnswerAdded(b0, HEADER_SIZE, EmptyTable(), map[], final, answer, rclass, ttl);
    var m1 := AddRecord(b0, HEADER_SIZE, Updated(answer, rclass, ttl), Some(EmptyTable()));
    var n1 := m1.end.value;
    var m2 := AddSection(m1.buf, n1, authority, rclass, ttl, m1.table);
    st, second := SectionAdded(m1.buf, n1, m1.table.value, st, final, AUTHORITY, authority, rclass, ttl);
    var n2 := m2.end.value;
    var m3 := AddSection(m2.buf, n2, additional, rclass, ttl, m2.table);
    st, third := SectionAdded(m2.buf, n2, m2.table.value, st, final, ADDITIONAL, additional, rclass, ttl);
    var n3 := m3.end.value;
    PrefixKept(m1.buf, n1, m2.buf, 0, HEADER_SIZE);
    PrefixKept(m2.buf, n2, m3.buf, 0, HEADER_SIZE);
    PrefixKept(m2.buf, n2, m3.buf, 0, n1);
    AllHeldFrame(m1.buf, n1, HEADER_SIZE, first, w0, m3.buf, n3);
    AllHeldFrame(m2.buf, n2, n1, second, SectionWires(AUTHORITY, authority, rclass, ttl), m3.buf, n3);
  }

  /**
   The round trip of a whole message: whatever regular records fit, with an answer that is not a TXT
   record, the header announces as many records as expected, one is seen for each of them, in order, and
   each is read back. A TXT record gives its pairs back exactly when they are plain.
   */
  lemma MessageRoundTrip(b: bytes, answer: Record, authority: seq<Record>, additional: seq<Record>, rclass: u16, ttl: u32,
                         final: Label, callback: Seen -> bool, onlyId: int)
    requires |b| <= 0x4000 && !answer.data.Text? && RegularRecord(answer, final)
    requires AllRegular(authority, final) && AllRegular(additional, final)
    requires AnswerMessage(b, answer, authority, additional, rclass, ttl).end.Some?
    requires GoesOn(callback) && onlyId <= 0
    ensures
      var m := AnswerMessage(b, answer, authority, additional, rclass, ttl);
      var seen := Received(m.buf, m.end.value, callback, onlyId);
      var wires := Expected(answer, authority, additional, rclass, ttl);
      && U16At(m.buf, 4) == 0 && U16At(m.buf, 6) == 1
      && U16At(m.buf, 8) == RecordCount(authority) && U16At(m.buf, 10) == RecordCount(additional)
      && |seen| == |wires| == 1 + RecordCount(authority) + RecordCount(additional)
      && forall i :: 0 <= i < |seen| ==> ReadBack(m.buf[..m.end.value], seen[i], wires[i])
  {
    hide AnswerMessage, AllRegular, RegularRecord, AllHeld, SectionWires, Held, Updated, WireOf, ReadBack, ScanRecords,
         MessageHeader, RecordCount, U16At, EndOf;
    var first, second, third := MessageBuilt(b, answer, authority, additional, rclass, ttl, final);
    var m := AnswerMessage(b, answer, authority, additional, rclass, ttl);
    var e := m.end.value;
    var p := m.buf[..e];
    var w1, w2, w3 := [WireOf(ANSWER, Updated(answer, rclass, ttl))], SectionWires(AUTHORITY, authority, rclass, ttl),
                      SectionWires(ADDITIONAL, additional, rclass, ttl);
    var o1 := EndOf(HEADER_SIZE, first);
    var o2 := EndOf(o1, second);
    assert p[..e] == m.buf[..e];
    AllHeldFrame(m.buf, e, HEADER_SIZE, first, w1, p, e);
    AllHeldFrame(m.buf, e, o1, second, w2, p, e);
    AllHeldFrame(m.buf, e, o2, third, w3, p, e);
    SectionsSeen(p, HEADER_SIZE, first, second, third, w1, w2, w3, callback);
    AnswerEntry(answer, rclass, ttl);
    SectionLength(AUTHORITY, authority, rclass, ttl);
    SectionLength(ADDITIONAL, additional, rclass, ttl);
    HeaderReadsBack(m.buf, |w2|, |w3|);
    AllHeldJoin(p, e, HEADER_SIZE, first, w1, second, w2);
    AllHeldJoin(p, e, HEADER_SIZE, first + second, w1 + w2, third, w3);
    var seen := first + second + third;
    forall i | 0 <= i < |seen| ensures ReadBack(p, seen[i], (w1 + w2 + w3)[i]) {
      AllHeldReadBack(p, HEADER_SIZE, seen, w1 + w2 + w3, i);
    }
  }

  lemma AnswerEntry(answer: Record, rclass: u16, ttl: u32)
    ensures AllEntries([WireOf(ANSWER, Updated(answer, rclass, ttl))], ANSWER)
  {}

  /** All three sections are seen in full. */
  lemma {:induction false} SectionsSeen(b: bytes, o: nat, first: seq<Seen>, second: seq<Seen>, third: seq<Seen>,
                     w1: seq<Wire>, w2: seq<Wire>, w3: seq<Wire>, callback: Seen -> bool)
    requires |b| < 0x10000 && GoesOn(callback) && AllHeld(b, |b|, o, first, w1)
    requires AllHeld(b, |b|, EndOf(o, first), second, w2) && AllHeld(b, |b|, EndOf(EndOf(o, first), second), third, w3)
    ensures |first| == |w1| && |second| == |w2| < 0x10000 && |third| == |w3| < 0x10000
    ensures AllEntries(w1, ANSWER) && AllEntries(w2, AUTHORITY) && AllEntries(w3, ADDITIONAL) ==>
      ScanSections(b, o, 0, |w1|, |w2|, |w3|, callback) == first + second + third
  {
    hide AllHeld, EndOf, ScanRecords, AllEntries;
    ManyTakeRoom(b, |b|, o, first, w1);
    ManyTakeRoom(b, |b|, EndOf(o, first), second, w2);
    ManyTakeRoom(b, |b|, EndOf(EndOf(o, first), second), third, w3);
    if AllEntries(w1, ANSWER) && AllEntries(w2, AUTHORITY) && AllEntries(w3, ADDITIONAL) {
      SectionSeen(b, o, first, w1, ANSWER, callback);
      SectionSeen(b, EndOf(o, first), second, w2, AUTHORITY, callback);
      SectionSeen(b, EndOf(EndOf(o, first), second), third, w3, ADDITIONAL, callback);
    }
  }

  // What the class and the time to live become

  predicate FollowsRules(w: Wire, ttl: u32) {
    && (w.rtype == TYPE_PTR ==> w.rclass < CACHE_FLUSH)
    && w.rclass % CACHE_FLUSH <= 1
    && (ttl == 0 ==> w.ttl == 0)
  }

  lemma UpdatedFollowsRules(entry: nat, r: Record, rclass: u16, ttl: u32)
    ensures FollowsRules(WireOf(entry, Updated(r, rclass, ttl)), ttl)
  {}

  lemma SectionFollowsRules(entry: nat, records: seq<Record>, rclass: u16, ttl: u32)
    ensures forall i :: 0 <= i < |SectionWires(entry, records, rclass, ttl)| ==>
              FollowsRules(SectionWires(entry, records, rclass, ttl)[i], ttl)
  {
    hide Updated, WireOf, NonTexts, Texts, FollowsRules;
    var rest, texts := NonTexts(records), Texts(records);
    forall i | 0 <= i < |SectionWires(entry, records, rclass, ttl)|
      ensures FollowsRules(SectionWires(entry, records, rclass, ttl)[i], ttl)
    {
      if i < |rest| {
        UpdatedFollowsRules(entry, rest[i], rclass, ttl);
      } else {
        UpdatedFollowsRules(entry, texts[0], rclass, ttl);
        ContentAside(WireOf(entry, Updated(texts[0], rclass, ttl)), Strings(PairsOf(texts)), ttl);
      }
    }
  }

  lemma ContentAside(w: Wire, c: Content, ttl: u32)
    requires FollowsRules(w, ttl)
    ensures FollowsRules(w.(content := c), ttl)
  {}

  /**
   Sections 10.1 and 10.2 of RFC 6762, as seen by the receiver: no PTR record carries the cache-flush
   bit, and in a goodbye message every record has a time to live of 0.
   */
  lemma SeenFollowsRules(b: bytes, answer: Record, authority: seq<Record>, additional: seq<Record>, rclass: u16, ttl: u32,
                         final: Label, callback: Seen -> bool)
    requires |b| <= 0x4000 && !answer.data.Text? && RegularRecord(answer, final)
    requires AllRegular(authority, final) && AllRegular(additional, final)
    requires AnswerMessage(b, answer, authority, additional, rclass, ttl).end.Some? && GoesOn(callback)
    ensures
      var m := AnswerMessage(b, answer, authority, additional, rclass, ttl);
      var seen := Received(m.buf, m.end.value, callback, 0);
      forall i :: 0 <= i < |seen| ==>
        && (seen[i].rtype == TYPE_PTR ==> seen[i].rclass < CACHE_FLUSH)
        && (ttl == 0 ==> seen[i].ttl == 0)
  {
    hide AnswerMessage, Received, AllRegular, RegularRecord, SectionWires, Updated, WireOf, ReadBack, FollowsRules;
    var m := AnswerMessage(b, answer, authority, additional, rclass, ttl);
    var seen := Received(m.buf, m.end.value, callback, 0);
    var wires := Expected(answer, authority, additional, rclass, ttl);
    MessageRoundTrip(b, answer, authority, additional, rclass, ttl, final, callback, 0);
    UpdatedFollowsRules(ANSWER, answer, rclass, ttl);
    SectionFollowsRules(AUTHORITY, authority, rclass, ttl);
    SectionFollowsRules(ADDITIONAL, additional, rclass, ttl);
    forall i | 0 <= i < |seen|
      ensures seen[i].rtype == TYPE_PTR ==> seen[i].rclass < CACHE_FLUSH
      ensures ttl == 0 ==> seen[i].ttl == 0
    {
      assert ReadBack(m.buf[..m.end.value], seen[i], wires[i]) && FollowsRules(wires[i], ttl);
      SameFields(m.buf[..m.end.value], seen[i], wires[i], ttl);
    }
  }

  lemma SameFields(b: bytes, s: Seen, w: Wire, ttl: u32)
    requires ReadBack(b, s, w) && FollowsRules(w, ttl)
    ensures s.rtype == TYPE_PTR ==> s.rclass < CACHE_FLUSH
    ensures ttl == 0 ==> s.ttl == 0
  {}

  /** A record that leaves its class and its time to live to the message. */
  predicate Bare(r: Record) {
    r.rclass == 0 && r.ttl == 0
  }

  predicate AllBare(records: seq<Record>) {
    forall i :: 0 <= i < |records| ==> Bare(records[i])
  }

  predicate TakesDefaults(w: Wire, rclass: u16, ttl: u32) {
    w.rclass == (if w.rtype == TYPE_PTR then 1 else rclass) && w.ttl == ttl
  }

  lemma BareTakesDefaults(entry: nat, r: Record, c: Option<Content>, rclass: u16, ttl: u32)
    requires Bare(r) && (rclass == 1 || rclass == CACHE_FLUSH + 1)
    ensures var w := WireOf(entry, Updated(r, rclass, ttl));
            TakesDefaults(if c.None? then w else w.(content := c.value), rclass, ttl)
  {}

  lemma {:induction false} PartsBare(records: seq<Record>)
    requires AllBare(records)
    ensures AllBare(NonTexts(records)) && AllBare(Texts(records))
    decreases |records|
  {
    if records != [] {
      assert Bare(records[0]);
      PartsBare(records[1..]);
    }
  }

  lemma SectionTakesDefaults(entry: nat, records: seq<Record>, rclass: u16, ttl: u32)
    requires AllBare(records) && (rclass == 1 || rclass == CACHE_FLUSH + 1)
    ensures forall i :: 0 <= i < |SectionWires(entry, records, rclass, ttl)| ==>
              TakesDefaults(SectionWires(entry, records, rclass, ttl)[i], rclass, ttl)
  {
    hide Updated, WireOf, NonTexts, Texts, TakesDefaults, Bare;
    var rest, texts := NonTexts(records), Texts(records);
    PartsBare(records);
    forall i | 0 <= i < |SectionWires(entry, records, rclass, ttl)|
      ensures TakesDefaults(SectionWires(entry, records, rclass, ttl)[i], rclass, ttl)
    {
      if i < |rest| {
        BareTakesDefaults(entry, rest[i], None, rclass, ttl);
      } else {
        BareTakesDefaults(entry, texts[0], Some(Strings(PairsOf(texts))), rclass, ttl);
      }
    }
  }

  /** The receiver sees the message's class and time to live on every record without its own, but no flush bit on PTR. */
  lemma SeenDefaults(b: bytes, answer: Record, authority: seq<Record>, additional: seq<Record>, rclass: u16, ttl: u32,
                     final: Label, callback: Seen -> bool)
    requires |b| <= 0x4000 && !answer.data.Text? && RegularRecord(answer, final)
    requires AllRegular(authority, final) && AllRegular(additional, final)
    requires Bare(answer) && AllBare(authority) && AllBare(additional) && (rclass == 1 || rclass == CACHE_FLUSH + 1)
    requires AnswerMessage(b, answer, authority, additional, rclass, ttl).end.Some? && GoesOn(callback)
    ensures
      var m := AnswerMessage(b, answer, authority, additional, rclass, ttl);
      var seen := Received(m.buf, m.end.value, callback, 0);
      && |seen| == 1 + RecordCount(authority) + RecordCount(additional)
      && forall i :: 0 <= i < |seen| ==>
           seen[i].ttl == ttl && seen[i].rclass == if seen[i].rtype == TYPE_PTR then 1 else rclass
  {
    hide AnswerMessage, Received, AllRegular, RegularRecord, SectionWires, Updated, WireOf, ReadBack, TakesDefaults, Bare,
         AllBare, RecordCount, U16At;
    var m := AnswerMessage(b, answer, authority, additional, rclass, ttl);
    var seen := Received(m.buf, m.end.value, callback, 0);
    var wires := Expected(answer, authority, additional, rclass, ttl);
    MessageRoundTrip(b, answer, authority, additional, rclass, ttl, final, callback, 0);
    BareTakesDefaults(ANSWER, answer, None, rclass, ttl);
    SectionTakesDefaults(AUTHORITY, authority, rclass, ttl);
    SectionTakesDefaults(ADDITIONAL, additional, rclass, ttl);
    forall i | 0 <= i < |seen|
      ensures seen[i].ttl == ttl && seen[i].rclass == if seen[i].rtype == TYPE_PTR then 1 else rclass
    {
      assert ReadBack(m.buf[..m.end.value], seen[i], wires[i]) && TakesDefaults(wires[i], rclass, ttl);
      SameDefaults(m.buf[..m.end.value], seen[i], wires[i], rclass, ttl);
    }
  }

  lemma SameDefaults(b: bytes, s: Seen, w: Wire, rclass: u16, ttl: u32)
    requires ReadBack(b, s, w) && TakesDefaults(w, rclass, ttl)
    ensures s.ttl == ttl && s.rclass == if s.rtype == TYPE_PTR then 1 else rclass
  {}

  // A TXT answer

  function SeenAs(seen: seq<Seen>, entry: nat): (r: seq<Seen>)
    ensures |r| == |seen|
  {
    seq(|seen|, i requires 0 <= i < |seen| => seen[i].(entry := entry))
  }

  function WiresAs(wires: seq<Wire>, entry: nat): (r: seq<Wire>)
    ensures |r| == |wires|
  {
    seq(|wires|, i requires 0 <= i < |wires| => wires[i].(entry := entry))
  }

  /** Records lie in a packet whatever section they are taken to belong to. */
  lemma {:induction false} AllHeldAs(b: bytes, n: nat, o: nat, seen: seq<Seen>, w: seq<Wire>, entry: nat)
    requires AllHeld(b, n, o, seen, w)
    ensures AllHeld(b, n, o, SeenAs(seen, entry), WiresAs(w, entry)) && EndOf(o, SeenAs(seen, entry)) == EndOf(o, seen)
    decreases |seen|
  {
    hide Held;
    if seen != [] {
      HeldAs(b, n, seen[0], w[0], entry);
      AllHeldAs(b, n, DataEnd(seen[0]), seen[1..], w[1..], entry);
      assert SeenAs(seen, entry)[1..] == SeenAs(seen[1..], entry) && WiresAs(w, entry)[1..] == WiresAs(w[1..], entry);
    }
  }

  lemma HeldAs(b: bytes, n: nat, s: Seen, w: Wire, entry: nat)
    requires Held(b, n, s, w)
    ensures Held(b, n, s.(entry := entry), w.(entry := entry))
  {
    hide NameHeld, ContentHeld;
  }

  lemma {:induction false} AllHeldSplit(b: bytes, n: nat, o: nat, seen: seq<Seen>, w: seq<Wire>, k: nat)
    requires AllHeld(b, n, o, seen, w) && k <= |seen|
    ensures |w| == |seen| && AllHeld(b, n, o, seen[..k], w[..k])
    ensures AllHeld(b, n, EndOf(o, seen[..k]), seen[k..], w[k..])
    ensures EndOf(EndOf(o, seen[..k]), seen[k..]) == EndOf(o, seen)
    decreases |seen|
  {
    hide Held;
    if seen == [] {
    } else if k == 0 {
      AllHeldSplit(b, n, DataEnd(seen[0]), seen[1..], w[1..], 0);
      assert seen[..0] == [] && w[..0] == [] && seen[0..] == seen && w[0..] == w;
    } else {
      AllHeldSplit(b, n, DataEnd(seen[0]), seen[1..], w[1..], k - 1);
      assert seen[..k][1..] == seen[1..][..k - 1] && w[..k][1..] == w[1..][..k - 1];
      assert seen[k..] == seen[1..][k - 1..] && w[k..] == w[1..][k - 1..];
    }
  }

  lemma {:induction false} NothingBehind(b: bytes, entry: nat, n: nat, callback: Seen -> bool)
    ensures ScanRecords(b, |b|, entry, 0, n, callback).seen == []
  {
    if n > 0 { ScanStep(b, |b|, entry, 0, n, callback); }
  }

  /** A scan for more records than there are sees those there are, when the packet ends behind them. */
  lemma {:induction false} AllSeen(b: bytes, o: nat, seen: seq<Seen>, wires: seq<Wire>, entry: nat, n: nat,
                                   callback: Seen -> bool)
    requires |b| < 0x10000 && AllHeld(b, |b|, o, seen, wires) && AllEntries(wires, entry) && GoesOn(callback)
    requires EndOf(o, seen) == |b| && n > |seen|
    ensures ScanRecords(b, o, entry, 0, n, callback).seen == seen
    decreases |seen|
  {
    hide Held, ScanRecords, SeenAt, NameEnd;
    if seen == [] {
      NothingBehind(b, entry, n, callback);
    } else {
      HeldSeen(b, seen[0], wires[0]);
      HeldBounds(b, |b|, seen[0], wires[0]);
      ScanStep(b, o, entry, 0, n, callback);
      AllSeen(b, DataEnd(seen[0]), seen[1..], wires[1..], entry, n - 1, callback);
      assert [seen[0]] + seen[1..] == seen;
    }
  }

  /** The section the k-th record is taken for, when the answer is missing and n authority records follow. */
  function ShiftedEntry(k: nat, n: nat): nat {
    if k == 0 then ANSWER else if k <= n then AUTHORITY else ADDITIONAL
  }

  function Shifted(seen: seq<Seen>, n: nat): seq<Seen> {
    seq(|seen|, k requires 0 <= k < |seen| => seen[k].(entry := ShiftedEntry(k, n)))
  }

  lemma AsEntries(wires: seq<Wire>, entry: nat)
    ensures AllEntries(WiresAs(wires, entry), entry)
  {}

  /** Records that lie there seen as one answer, n authority records and others, of which one is missing. */
  lemma {:induction false} ShiftedSeen(b: bytes, o: nat, seen: seq<Seen>, wires: seq<Wire>, n: nat, more: nat, callback: Seen -> bool)
    requires |b| < 0x10000 && AllHeld(b, |b|, o, seen, wires) && EndOf(o, seen) == |b| && GoesOn(callback)
    requires |seen| == n + more
    ensures ScanSections(b, o, 0, 1, n, more, callback) == Shifted(seen, n)
  {
    hide AllHeld, EndOf, ScanRecords, AllEntries, Held;
    if seen == [] {
      AsEntries(wires, ANSWER);
      AllHeldAs(b, |b|, o, seen, wires, ANSWER);
      AllSeen(b, o, SeenAs(seen, ANSWER), WiresAs(wires, ANSWER), ANSWER, 1, callback);
    } else {
      AllHeldSplit(b, |b|, o, seen, wires, 1);
      var o1, rest, w := EndOf(o, seen[..1]), seen[1..], wires[1..];
      ShiftedPart(b, o, seen[..1], wires[..1], ANSWER, callback);
      var first := SeenAs(seen[..1], ANSWER);
      if more == 0 {
        AsEntries(w, AUTHORITY);
        AllHeldAs(b, |b|, o1, rest, w, AUTHORITY);
        AllSeen(b, o1, SeenAs(rest, AUTHORITY), WiresAs(w, AUTHORITY), AUTHORITY, n, callback);
        assert first + SeenAs(rest, AUTHORITY) == Shifted(seen, n);
      } else {
        AllHeldSplit(b, |b|, o1, rest, w, n);
        ShiftedPart(b, o1, rest[..n], w[..n], AUTHORITY, callback);
        var o2, last, w2 := EndOf(o1, rest[..n]), rest[n..], w[n..];
        AsEntries(w2, ADDITIONAL);
        AllHeldAs(b, |b|, o2, last, w2, ADDITIONAL);
        AllSeen(b, o2, SeenAs(last, ADDITIONAL), WiresAs(w2, ADDITIONAL), ADDITIONAL, more, callback);
        assert first + SeenAs(rest[..n], AUTHORITY) + SeenAs(last, ADDITIONAL) == Shifted(seen, n);
      }
    }
  }

  lemma {:induction false} ShiftedPart(b: bytes, o: nat, seen: seq<Seen>, wires: seq<Wire>, entry: nat, callback: Seen -> bool)
    requires |b| < 0x10000 && AllHeld(b, |b|, o, seen, wires) && GoesOn(callback)
    ensures ScanRecords(b, o, entry, 0, |seen|, callback) == Scan(SeenAs(seen, entry), EndOf(o, seen))
  {
    hide AllHeld, EndOf, ScanRecords, AllEntries;
    AsEntries(wires, entry);
    AllHeldAs(b, |b|, o, seen, wires, entry);
    SectionSeen(b, o, SeenAs(seen, entry), WiresAs(wires, entry), entry, callback);
  }

  lemma ReadBackAs(b: bytes, s: Seen, w: Wire, entry: nat)
    requires ReadBack(b, s, w)
    ensures ReadBack(b, s.(entry := entry), w.(entry := entry))
  {
    hide Decode, DataName, ServiceAt, Address4At, Address6At, PairsIn, AllPlain, AsWritten;
  }

  /**
   A TXT answer is announced but never written: the header counts one record more than the message has, and
   the receiver sees those of the other sections, each read back, but the first of them as the answer and
   so on, each section one record early.
   */
  lemma TextAnswerIsLost(b: bytes, answer: Record, authority: seq<Record>, additional: seq<Record>, rclass: u16, ttl: u32,
                         final: Label, callback: Seen -> bool, onlyId: int)
    requires |b| <= 0x4000 && answer.data.Text? && RegularRecord(answer, final)
    requires AllRegular(authority, final) && AllRegular(additional, final)
    requires AnswerMessage(b, answer, authority, additional, rclass, ttl).end.Some?
    requires GoesOn(callback) && onlyId <= 0
    ensures
      var m := AnswerMessage(b, answer, authority, additional, rclass, ttl);
      var seen := Received(m.buf, m.end.value, callback, onlyId);
      var wires := SectionWires(AUTHORITY, authority, rclass, ttl) + SectionWires(ADDITIONAL, additional, rclass, ttl);
      && U16At(m.buf, 6) + U16At(m.buf, 8) + U16At(m.buf, 10) == 1 + RecordCount(authority) + RecordCount(additional)
      && |seen| == |wires| == RecordCount(authority) + RecordCount(additional)
      && forall i :: 0 <= i < |seen| ==>
           ReadBack(m.buf[..m.end.value], seen[i], wires[i].(entry := ShiftedEntry(i, RecordCount(authority))))
  {
    hide AnswerMessage, AllRegular, RegularRecord, AllHeld, SectionWires, Held, Updated, WireOf, ReadBack, ScanSections,
         MessageHeader, RecordCount, U16At, EndOf;
    var first, second, third := MessageBuilt(b, answer, authority, additional, rclass, ttl, final);
    var m := AnswerMessage(b, answer, authority, additional, rclass, ttl);
    var e := m.end.value;
    var p := m.buf[..e];
    var w2, w3 := SectionWires(AUTHORITY, authority, rclass, ttl), SectionWires(ADDITIONAL, additional, rclass, ttl);
    NoneHeld(m.buf, e, HEADER_SIZE, first);
    var o2 := EndOf(HEADER_SIZE, second);
    assert p[..e] == m.buf[..e];
    AllHeldFrame(m.buf, e, HEADER_SIZE, second, w2, p, e);
    AllHeldFrame(m.buf, e, o2, third, w3, p, e);
    AllHeldJoin(p, e, HEADER_SIZE, second, w2, third, w3);
    var all, wires := second + third, w2 + w3;
    ManyTakeRoom(p, e, HEADER_SIZE, all, wires);
    ManyTakeRoom(p, e, HEADER_SIZE, second, w2);
    SectionLength(AUTHORITY, authority, rclass, ttl);
    SectionLength(ADDITIONAL, additional, rclass, ttl);
    HeaderReadsBack(m.buf, |w2|, |w3|);
    ShiftedSeen(p, HEADER_SIZE, all, wires, |w2|, |w3|, callback);
    forall i | 0 <= i < |all|
      ensures ReadBack(p, Shifted(all, |w2|)[i], wires[i].(entry := ShiftedEntry(i, |w2|)))
    {
      AllHeldReadBack(p, HEADER_SIZE, all, wires, i);
      ReadBackAs(p, all[i], wires[i], ShiftedEntry(i, |w2|));
    }
  }

  lemma {:induction false} NoneHeld(b: bytes, n: nat, o: nat, seen: seq<Seen>)
    requires AllHeld(b, n, o, seen, [])
    ensures seen == [] && EndOf(o, seen) == o
  {}
}
