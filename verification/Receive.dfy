/**
 Reading a message: the record scan of mdns_records_parse, mdns_query_recv behind the socket, and
 the readers of record data. All of them accept any octets.
 */
module Receive {
  import opened Bytes
  import opened NameWalk
  import opened Answer

  const ANSWER: nat := 1
  const AUTHORITY: nat := 2
  const ADDITIONAL: nat := 3

  /** What the callback is told about a record. */
  datatype Seen = Seen(entry: nat, id: u16, rtype: u16, rclass: u16, ttl: u32, nameOffset: nat, nameLength: nat,
                       dataOffset: nat, dataLength: nat)

  function DataEnd(s: Seen): nat {
    s.dataOffset + s.dataLength
  }

  datatype Scan = Scan(seen: seq<Seen>, offset: nat)

  function U16At(b: bytes, o: nat): u16
    requires o + 2 <= |b|
  {
    U16(b[o], b[o + 1])
  }

  function U32At(b: bytes, o: nat): u32
    requires o + 4 <= |b|
  {
    0x10000 * U16At(b, o) + U16At(b, o + 2)
  }

  /** Where the name at offset ends; an unreadable one is taken to be empty. */
  function NameEnd(b: bytes, offset: nat): nat {
    match SkipFrom(b, offset, MAX_SUBSTRINGS + 1) case Some(e) => e case None => offset
  }

  function SeenAt(b: bytes, offset: nat, entry: nat, id: u16): Seen
    requires NameEnd(b, offset) + 10 <= |b|
  {
    var at := NameEnd(b, offset);
    Seen(entry, id, U16At(b, at), U16At(b, at + 2), U32At(b, at + 4), offset, if at >= offset then at - offset else 0,
         at + 10, U16At(b, at + 8))
  }

  /** Up to n records from offset on; the callback ends the scan when it gives true. */
  function ScanRecords(b: bytes, offset: nat, entry: nat, id: u16, n: nat, callback: Seen -> bool): (scan: Scan)
    decreases n
  {
    if n == 0 then Scan([], offset)
    else if NameEnd(b, offset) + 10 > |b| then Scan([], NameEnd(b, offset))
    else
      var s := SeenAt(b, offset, entry, id);
      if DataEnd(s) > |b| then ScanRecords(b, DataEnd(s), entry, id, n - 1, callback)
      else if callback(s) then Scan([s], s.dataOffset)
      else
        var rest := ScanRecords(b, DataEnd(s), entry, id, n - 1, callback);
        Scan([s] + rest.seen, rest.offset)
  }

  lemma {:induction false} SkipMovesOn(b: bytes, cur: nat, steps: nat)
    ensures SkipFrom(b, cur, steps).Some? ==> cur < SkipFrom(b, cur, steps).value
    decreases steps
  {
    var s := NextSubstring(b, cur);
    if s.Sub? && steps > 0 && !s.ref && s.length > 0 { SkipMovesOn(b, s.offset + s.length, steps - 1); }
  }

  /** A record as section 4.1.3 of RFC 1035 lays it out, within the packet. */
  predicate WellPlaced(b: bytes, s: Seen, offset: nat) {
    && s.nameOffset == offset
    && s.dataOffset == s.nameOffset + s.nameLength + 10
    && DataEnd(s) <= |b|
  }

  /** The records seen lie within the packet, each right behind the one before it. */
  predicate Consecutive(b: bytes, seen: seq<Seen>, offset: nat)
    decreases |seen|
  {
    seen == [] || (WellPlaced(b, seen[0], offset) && Consecutive(b, seen[1..], DataEnd(seen[0])))
  }

  /** On any packet, what is seen is in place, and no more than was asked for. */
  lemma {:induction false} ScanInPlace(b: bytes, offset: nat, entry: nat, id: u16, n: nat, callback: Seen -> bool)
    ensures var scan := ScanRecords(b, offset, entry, id, n, callback);
            |scan.seen| <= n && Consecutive(b, scan.seen, offset)
    ensures offset > |b| ==> ScanRecords(b, offset, entry, id, n, callback).seen == []
    decreases n
  {
    hide U16At, U32At, SkipFrom;
    SkipMovesOn(b, offset, MAX_SUBSTRINGS + 1);
    if n > 0 && NameEnd(b, offset) + 10 <= |b| {
      var s := SeenAt(b, offset, entry, id);
      ScanInPlace(b, DataEnd(s), entry, id, n - 1, callback);
      assert ([s] + ScanRecords(b, DataEnd(s), entry, id, n - 1, callback).seen)[1..] ==
             ScanRecords(b, DataEnd(s), entry, id, n - 1, callback).seen;
    }
  }

  /** One turn of the scan. */
  lemma ScanStep(b: bytes, offset: nat, entry: nat, id: u16, n: nat, callback: Seen -> bool)
    requires n > 0
    ensures ScanRecords(b, offset, entry, id, n, callback) ==
      if NameEnd(b, offset) + 10 > |b| then Scan([], NameEnd(b, offset))
      else
        var s := SeenAt(b, offset, entry, id);
        if DataEnd(s) > |b| then ScanRecords(b, DataEnd(s), entry, id, n - 1, callback)
        else if callback(s) then Scan([s], s.dataOffset)
        else
          var rest := ScanRecords(b, DataEnd(s), entry, id, n - 1, callback);
          Scan([s] + rest.seen, rest.offset)
  {}

  lemma {:induction false} ScanNone(b: bytes, offset: nat, entry: nat, id: u16, callback: Seen -> bool)
    ensures ScanRecords(b, offset, entry, id, 0, callback) == Scan([], offset)
  {}

  /** What is seen until the callback ends the scan. */
  function UpTo(seen: seq<Seen>, callback: Seen -> bool): seq<Seen> {
    if seen == [] || callback(seen[0]) then seen[..Min(1, |seen|)] else [seen[0]] + UpTo(seen[1..], callback)
  }

  /** The first record that the callback gives true for is the last one seen; the scan then stands before its data. */
  lemma {:induction false} ScanStops(b: bytes, offset: nat, entry: nat, id: u16, n: nat, callback: Seen -> bool, never: Seen -> bool)
    requires forall s :: !never(s)
    ensures ScanRecords(b, offset, entry, id, n, callback).seen == UpTo(ScanRecords(b, offset, entry, id, n, never).seen, callback)
    ensures var scan := ScanRecords(b, offset, entry, id, n, callback);
      scan.seen != [] && callback(scan.seen[|scan.seen| - 1]) ==> scan.offset == scan.seen[|scan.seen| - 1].dataOffset
    decreases n
  {
    hide NameEnd, U16At, U32At, ScanRecords;
    if n == 0 {
      ScanNone(b, offset, entry, id, callback);
      ScanNone(b, offset, entry, id, never);
    } else {
      ScanStep(b, offset, entry, id, n, callback);
      ScanStep(b, offset, entry, id, n, never);
      if NameEnd(b, offset) + 10 <= |b| {
        var s := SeenAt(b, offset, entry, id);
        ScanStops(b, DataEnd(s), entry, id, n - 1, callback, never);
        var rest := ScanRecords(b, DataEnd(s), entry, id, n - 1, never).seen;
        assert ([s] + rest)[1..] == rest && ([s] + rest)[..1] == [s];
      }
    }
  }

  /** Two octets in network order. */
  function Word(b: bytes, o: nat): int
    requires o + 2 <= |b|
  {
    var hi: int, lo: int := b[o], b[o + 1];
    256 * hi + lo
  }

  /**
   On any octets: a record begins with its name, as far as that can be skipped and else with none, and its
   fields are the ten octets behind it (section 4.1.3 of RFC 1035).
   */
  lemma {:induction false} SeenFields(b: bytes, offset: nat, entry: nat, id: u16)
    requires NameEnd(b, offset) + 10 <= |b|
    ensures
      var s, skipped := SeenAt(b, offset, entry, id), SkipFrom(b, offset, 65);
      var at := if skipped.Some? then skipped.value else offset;
      && at == NameEnd(b, offset) && s.entry == entry && s.id == id
      && s.nameOffset == offset && s.nameOffset + s.nameLength == at
      && s.rtype == Word(b, at) && s.rclass == Word(b, at + 2) && s.ttl == 0x10000 * Word(b, at + 4) + Word(b, at + 6)
      && s.dataOffset == at + 10 && s.dataLength == Word(b, at + 8)
  {
    hide SkipFrom;
    SkipMovesOn(b, offset, MAX_SUBSTRINGS + 1);
  }

  method ReadFixed(buffer: array<byte>, size: nat, at: nat, nameOffset: nat, entry: nat, id: u16) returns (s: Seen)
    requires at + 10 <= size <= buffer.Length && nameOffset <= at && NameEnd(buffer[..size], nameOffset) == at
    ensures s == SeenAt(buffer[..size], nameOffset, entry, id) && s.dataOffset == at + 10
  {
    hide NameEnd;
    s := Seen(entry, id, U16(buffer[at], buffer[at + 1]), U16(buffer[at + 2], buffer[at + 3]),
              0x10000 * U16(buffer[at + 4], buffer[at + 5]) + U16(buffer[at + 6], buffer[at + 7]),
              nameOffset, at - nameOffset, at + 10, U16(buffer[at + 8], buffer[at + 9]));
  }

  /** mdns_records_parse. Its count is the number of records seen. */
  method RecordsParse(buffer: array<byte>, size: nat, start: nat, entry: nat, id: u16, records: nat, callback: Seen -> bool)
    returns (seen: seq<Seen>, offset: nat)
    requires size <= buffer.Length
    ensures Scan(seen, offset) == ScanRecords(buffer[..size], start, entry, id, records, callback)
  {
    hide SkipFrom, ScanRecords, SeenAt;
    ghost var b := buffer[..size];
    seen, offset := [], start;
    assert [] + ScanRecords(b, start, entry, id, records, callback).seen ==
           ScanRecords(b, start, entry, id, records, callback).seen;
    for i := 0 to records
      invariant offset >= 0
      invariant var goal, rest := ScanRecords(b, start, entry, id, records, callback),
                                  ScanRecords(b, offset, entry, id, records - i, callback);
                goal == Scan(seen + rest.seen, rest.offset)
    {
      var nameOffset := offset;
      ScanStep(b, offset, entry, id, records - i, callback);
      SkipMovesOn(b, nameOffset, MAX_SUBSTRINGS + 1);
      var ok, at := Skip(buffer, size, offset);
      offset := at;
      if offset + 10 > size { return; }
      var s := ReadFixed(buffer, size, at, nameOffset, entry, id);
      offset := offset + 10;
      if s.dataLength <= size - offset {
        ghost var rest := ScanRecords(b, DataEnd(s), entry, id, records - i - 1, callback).seen;
        assert seen + ([s] + rest) == seen + [s] + rest;
        seen := seen + [s];
        if callback(s) { return; }
      }
      offset := offset + s.dataLength;
    }
    ScanNone(b, offset, entry, id, callback);
  }

  /** Behind n questions from offset on, if their names can be read. */
  function SkipQuestions(b: bytes, offset: nat, n: nat): Option<nat>
    decreases n
  {
    if n == 0 then Some(offset)
    else match SkipFrom(b, offset, MAX_SUBSTRINGS + 1)
      case None => None
      case Some(e) => SkipQuestions(b, e + 4, n - 1)
  }

  /** The records of the three sections; a section that gives fewer than announced is the last. */
  function ScanSections(b: bytes, offset: nat, id: u16, answers: nat, authorities: nat, additionals: nat,
                        callback: Seen -> bool): seq<Seen>
  {
    var first := ScanRecords(b, offset, ANSWER, id, answers, callback);
    if |first.seen| != answers then first.seen
    else
      var second := ScanRecords(b, first.offset, AUTHORITY, id, authorities, callback);
      if |second.seen| != authorities then first.seen + second.seen
      else first.seen + second.seen + ScanRecords(b, second.offset, ADDITIONAL, id, additionals, callback).seen
  }

  /** The records of a message of the given size; its header is read before the size is looked at. */
  function Received(b: bytes, size: nat, callback: Seen -> bool, onlyId: int): seq<Seen>
    requires HEADER_SIZE <= |b| && size <= |b|
  {
    if size == 0 || (onlyId > 0 && U16At(b, 0) != onlyId) then []
    else match SkipQuestions(b[..size], HEADER_SIZE, U16At(b, 4))
      case None => []
      case Some(offset) =>
        ScanSections(b[..size], offset, U16At(b, 0), U16At(b, 6), U16At(b, 8), U16At(b, 10), callback)
  }

  /** A section that gives fewer records than announced, as when the callback ends it, is the last one looked at. */
  lemma {:induction false} ShortSectionIsLast(b: bytes, offset: nat, id: u16, n1: nat, n2: nat, n3: nat, callback: Seen -> bool)
    ensures
      var all, first := ScanSections(b, offset, id, n1, n2, n3, callback), ScanRecords(b, offset, 1, id, n1, callback);
      if |first.seen| < n1 then all == first.seen
      else
        var second := ScanRecords(b, first.offset, 2, id, n2, callback);
        if |second.seen| < n2 then all == first.seen + second.seen
        else all == first.seen + second.seen + ScanRecords(b, second.offset, 3, id, n3, callback).seen
  {
    hide ScanRecords;
    ScanInPlace(b, offset, 1, id, n1, callback);
    ScanInPlace(b, ScanRecords(b, offset, 1, id, n1, callback).offset, 2, id, n2, callback);
  }

  /** mdns_query_recv behind recvfrom. Its result is the number of records seen. */
  method QueryReceive(buffer: array<byte>, size: nat, callback: Seen -> bool, onlyId: int) returns (seen: seq<Seen>)
    requires HEADER_SIZE <= buffer.Length && size <= buffer.Length
    ensures seen == Received(buffer[..], size, callback, onlyId)
  {
    hide SkipFrom, ScanRecords;
    if size == 0 { return []; }
    var id: u16 := U16(buffer[0], buffer[1]);
    var questions := U16(buffer[4], buffer[5]);
    var answers := U16(buffer[6], buffer[7]);
    var authorities := U16(buffer[8], buffer[9]);
    var additionals := U16(buffer[10], buffer[11]);
    if onlyId > 0 && id != onlyId { return []; }
    ghost var b := buffer[..size];
    assert buffer[..][..size] == b;
    var data := HEADER_SIZE;
    for i := 0 to questions
      invariant data >= 0
      invariant SkipQuestions(b, HEADER_SIZE, questions) == SkipQuestions(b, data, questions - i)
    {
      var ok, offset := Skip(buffer, size, data);
      if !ok { return []; }
      data := offset + 4;
    }
    var more, offset := RecordsParse(buffer, size, data, ANSWER, id, answers, callback);
    seen := more;
    if |more| != answers { return; }
    more, offset := RecordsParse(buffer, size, offset, AUTHORITY, id, authorities, callback);
    seen := seen + more;
    if |more| != authorities { return; }
    more, offset := RecordsParse(buffer, size, offset, ADDITIONAL, id, additionals, callback);
    seen := seen + more;
  }

  /** The name in a record's data, at a distance from its beginning, when the data is long enough. */
  function DataName(b: bytes, offset: nat, length: nat, from: nat): Option<Name> {
    if |b| < offset + length || length < from + 2 then None
    else match NameAt(b, offset + from) case None => None case Some(d) => Some(d.labels)
  }

  /** str holds the text of a name as far as it fits, or nothing was put there. */
  ghost predicate Extracted(name: Option<Name>, str: bytes, before: bytes, length: nat) {
    if name.None? then length == 0 else Written(str, before, length, Dotted(name.value))
  }

  /** mdns_record_parse_ptr. */
  method ParsePointer(buffer: array<byte>, size: nat, offset: nat, length: nat, str: array<byte>) returns (n: nat)
    requires size <= buffer.Length && str != buffer
    modifies str
    ensures Extracted(DataName(buffer[..size], offset, length, 0), str[..], old(str[..]), n)
    ensures size < offset + length || length < 2 ==> n == 0 && str[..] == old(str[..])
  {
    hide Decode, Dotted, Written;
    n := 0;
    if size >= offset + length && length >= 2 {
      var end;
      n, end := Extract(buffer, size, offset, str);
    }
  }

  datatype ServiceFields = ServiceFields(priority: u16, weight: u16, port: u16)

  function ServiceAt(b: bytes, offset: nat, length: nat): ServiceFields {
    if |b| < offset + length || length < 8 then ServiceFields(0, 0, 0)
    else ServiceFields(U16At(b, offset), U16At(b, offset + 2), U16At(b, offset + 4))
  }

  /** mdns_record_parse_srv. */
  method ParseService(buffer: array<byte>, size: nat, offset: nat, length: nat, str: array<byte>)
    returns (fields: ServiceFields, n: nat)
    requires size <= buffer.Length && str != buffer
    modifies str
    ensures fields == ServiceAt(buffer[..size], offset, length)
    ensures Extracted(DataName(buffer[..size], offset, length, 6), str[..], old(str[..]), n)
    ensures size < offset + length || length < 8 ==> fields == ServiceFields(0, 0, 0) && n == 0 && str[..] == old(str[..])
    ensures size >= offset + length && length >= 8 ==>
              fields.priority == Word(buffer[..size], offset) && fields.weight == Word(buffer[..size], offset + 2)
              && fields.port == Word(buffer[..size], offset + 4)
  {
    hide Decode, Dotted, Written;
    fields, n := ServiceFields(0, 0, 0), 0;
    if size >= offset + length && length >= 8 {
      fields := ServiceFields(U16(buffer[offset], buffer[offset + 1]), U16(buffer[offset + 2], buffer[offset + 3]),
                              U16(buffer[offset + 4], buffer[offset + 5]));
      assert fields == ServiceAt(buffer[..size], offset, length);
      var end;
      n, end := Extract(buffer, size, offset + 6, str);
    }
  }

  /** mdns_record_parse_a. */
  function Address4At(b: bytes, offset: nat, length: nat): Octets4 {
    if |b| >= offset + length && length == 4 then b[offset..offset + 4] else [0, 0, 0, 0]
  }

  /** mdns_record_parse_aaaa. */
  function Address6At(b: bytes, offset: nat, length: nat): Octets16 {
    if |b| >= offset + length && length == 16 then b[offset..offset + 16] else seq(16, _ => 0)
  }

  /** An address is taken from data of just its length, inside the packet, and is zero otherwise. */
  lemma AddressesAt(b: bytes, offset: nat, length: nat)
    ensures Address4At(b, offset, length) ==
      if length == 4 && offset + 4 <= |b| then [b[offset], b[offset + 1], b[offset + 2], b[offset + 3]] else [0, 0, 0, 0]
    ensures forall i :: 0 <= i < 16 ==>
      Address6At(b, offset, length)[i] == if length == 16 && offset + 16 <= |b| then b[offset + i] else 0
  {}

  /** A key and its value; a string without a separator has no value. */
  datatype Pair = Pair(key: bytes, value: Option<bytes>)

  predicate Printable(c: byte) {
    0x20 <= c <= 0x7E
  }

  /** How far the key of a string reaches; 0 when an octet before the separator is not printable. */
  function KeyEnd(x: bytes, c: nat): (k: nat)
    requires c <= |x|
    ensures k <= |x|
    decreases |x| - c
  {
    if c == |x| then c
    else if !Printable(x[c]) then 0
    else if x[c] == EQUALS then c
    else KeyEnd(x, c + 1)
  }

  function PairOf(x: bytes): Pair {
    var k := KeyEnd(x, 0);
    if k < |x| then Pair(x[..k], Some(x[k + 1..])) else Pair(x, None)
  }

  /** The pairs in the strings of b, at most capacity of them; strings without a key are passed over. */
  function PairsIn(b: bytes, capacity: nat): seq<Pair>
    decreases |b|
  {
    if b == [] || capacity == 0 || b[0] >= |b| then []
    else
      var x := b[1..1 + b[0]];
      if KeyEnd(x, 0) == 0 then PairsIn(b[1 + b[0]..], capacity)
      else [PairOf(x)] + PairsIn(b[1 + b[0]..], capacity - 1)
  }

  /** mdns_record_parse_txt. */
  method ParseTexts(buffer: array<byte>, size: nat, start: nat, length: nat, capacity: nat) returns (pairs: seq<Pair>)
    requires size <= buffer.Length
    ensures pairs == if start >= size then [] else PairsIn(buffer[start..Min(start + length, size)], capacity)
  {
    hide KeyEnd, PairOf, PairsIn, Comes;
    var offset, end := start, start + length;
    if size < end { end := size; }
    pairs := [];
    if offset >= size { return; }
    ghost var b := buffer[..end];
    ghost var goal := PairsIn(buffer[start..end], capacity);
    assert b[start..] == buffer[start..end];
    ComesFirst(goal);
    while offset < end && |pairs| < capacity
      invariant start <= offset <= end && |pairs| <= capacity && b == buffer[..end]
      invariant Comes(goal, pairs, PairsIn(b[offset..], capacity - |pairs|))
      decreases end - offset
    {
      PairsStep(b, offset, capacity - |pairs|);
      var sublength := buffer[offset];
      if sublength >= end - offset {
        ComesLast(goal, pairs);
        return;
      }
      var x := buffer[offset + 1..offset + 1 + sublength];
      assert b[offset + 1..offset + 1 + sublength] == x;
      offset := offset + sublength + 1;
      var separator := FindSeparator(x);
      if separator == 0 { continue; }
      PairAt(x);
      var pair := if separator < |x| then Pair(x[..separator], Some(x[separator + 1..])) else Pair(x, None);
      ComesNext(goal, pairs, pair, PairsIn(b[offset..], capacity - |pairs| - 1));
      pairs := pairs + [pair];
    }
    PairsNone(b[offset..], capacity - |pairs|);
    ComesLast(goal, pairs);
  }

  /** goal is what rest comes to behind the pairs read. */
  predicate Comes(goal: seq<Pair>, pairs: seq<Pair>, rest: seq<Pair>) {
    goal == pairs + rest
  }

  lemma ComesFirst(goal: seq<Pair>)
    ensures Comes(goal, [], goal)
  {}

  lemma ComesNext(goal: seq<Pair>, pairs: seq<Pair>, pair: Pair, rest: seq<Pair>)
    requires Comes(goal, pairs, [pair] + rest)
    ensures Comes(goal, pairs + [pair], rest)
  {
    assert pairs + ([pair] + rest) == pairs + [pair] + rest;
  }

  lemma ComesLast(goal: seq<Pair>, pairs: seq<Pair>)
    requires Comes(goal, pairs, [])
    ensures goal == pairs
  {}

  /** One turn of the loop over the strings. */
  lemma {:induction false} PairsStep(b: bytes, o: nat, capacity: nat)
    requires o < |b| && capacity > 0
    ensures PairsIn(b[o..], capacity) ==
      if b[o] >= |b| - o then []
      else
        var x := b[o + 1..o + 1 + b[o]];
        if KeyEnd(x, 0) == 0 then PairsIn(b[o + 1 + b[o]..], capacity)
        else [PairOf(x)] + PairsIn(b[o + 1 + b[o]..], capacity - 1)
  {
    hide KeyEnd, PairOf;
    var rest := b[o..];
    if b[o] < |b| - o {
      assert rest[1..1 + b[o]] == b[o + 1..o + 1 + b[o]] && rest[1 + b[o]..] == b[o + 1 + b[o]..];
    }
  }

  lemma {:induction false} PairsNone(b: bytes, capacity: nat)
    requires b == [] || capacity == 0
    ensures PairsIn(b, capacity) == []
  {}

  lemma {:induction false} PairAt(x: bytes)
    ensures PairOf(x) == var k := KeyEnd(x, 0); if k < |x| then Pair(x[..k], Some(x[k + 1..])) else Pair(x, None)
  {}

  method FindSeparator(x: bytes) returns (separator: nat)
    ensures separator == KeyEnd(x, 0)
  {
    for c := 0 to |x|
      invariant KeyEnd(x, 0) == KeyEnd(x, c)
    {
      if !Printable(x[c]) { return 0; }
      if x[c] == EQUALS { return c; }
    }
    separator := |x|;
  }

  /** A key and value that come back as they are. */
  predicate PlainPair(key: bytes, value: bytes) {
    && key != [] && |key| + |value| + 1 <= 255
    && forall i :: 0 <= i < |key| ==> Printable(key[i]) && key[i] != EQUALS
  }

  predicate KeyOctets(x: bytes, from: nat, to: nat)
    requires to <= |x|
  {
    forall i :: from <= i < to ==> Printable(x[i]) && x[i] != EQUALS
  }

  lemma {:induction false} KeyEndIsFirst(x: bytes, c: nat)
    requires c <= |x|
    ensures var k := KeyEnd(x, c); k != 0 ==> c <= k && KeyOctets(x, c, k) && (k < |x| ==> x[k] == EQUALS)
    decreases |x| - c
  {
    if c < |x| && Printable(x[c]) && x[c] != EQUALS { KeyEndIsFirst(x, c + 1); }
  }

  lemma {:induction false} KeyEndAt(x: bytes, c: nat, k: nat)
    requires c <= k < |x| && x[k] == EQUALS && KeyOctets(x, c, k)
    ensures KeyEnd(x, c) == k
    decreases k - c
  {
    if c < k { KeyEndAt(x, c + 1, k); }
  }

  /** The strings of TXT records as they are written. */
  function TextOctets(pairs: seq<(bytes, bytes)>): bytes {
    if pairs == [] then [] else TextString(pairs[0].0, pairs[0].1) + TextOctets(pairs[1..])
  }

  function AsWritten(pairs: seq<(bytes, bytes)>): seq<Pair> {
    seq(|pairs|, i requires 0 <= i < |pairs| => Pair(pairs[i].0, Some(pairs[i].1)))
  }

  predicate AllPlain(pairs: seq<(bytes, bytes)>) {
    forall i :: 0 <= i < |pairs| ==> PlainPair(pairs[i].0, pairs[i].1)
  }

  lemma StringReadsBack(key: bytes, value: bytes)
    requires PlainPair(key, value)
    ensures var s := TextString(key, value);
      && key != [] && s[0] == |s| - 1 && KeyEnd(s[1..], 0) == |key| && PairOf(s[1..]) == Pair(key, Some(value))
  {
    var s := TextString(key, value);
    var x := s[1..];
    assert x == key + [EQUALS] + value;
    assert forall i :: 0 <= i < |key| ==> x[i] == key[i];
    KeyEndAt(x, 0, |key|);
    assert x[..|key|] == key && x[|key| + 1..] == value;
  }

  lemma {:induction false} PlainPairsReadBack(pairs: seq<(bytes, bytes)>, capacity: nat)
    requires AllPlain(pairs) && |pairs| <= capacity
    ensures PairsIn(TextOctets(pairs), capacity) == AsWritten(pairs)
  {
    hide KeyEnd, PairOf, TextString, PlainPair, PairsIn;
    if pairs == [] {
      PairsNone([], capacity);
    } else {
      var (key, value) := pairs[0];
      var s, rest := TextString(key, value), TextOctets(pairs[1..]);
      var b := s + rest;
      assert TextOctets(pairs) == b;
      StringReadsBack(key, value);
      PairsStep(b, 0, capacity);
      assert b[0..] == b;
      assert b[0] == s[0] && b[1..1 + b[0]] == s[1..] && b[1 + b[0]..] == rest;
      PlainPairsReadBack(pairs[1..], capacity - 1);
      assert AsWritten(pairs) == [Pair(key, Some(value))] + AsWritten(pairs[1..]);
    }
  }

  /** Nothing is read back with a value that could not have been written. */
  lemma {:induction false} ReadPairsArePlain(b: bytes, capacity: nat, i: nat)
    requires i < |PairsIn(b, capacity)| && PairsIn(b, capacity)[i].value.Some?
    ensures var p := PairsIn(b, capacity)[i]; PlainPair(p.key, p.value.value)
    decreases |b|
  {
    hide KeyEnd;
    var x := b[1..1 + b[0]];
    var k := KeyEnd(x, 0);
    if k == 0 {
      ReadPairsArePlain(b[1 + b[0]..], capacity, i);
    } else if i == 0 {
      KeyEndIsFirst(x, 0);
    } else {
      ReadPairsArePlain(b[1 + b[0]..], capacity - 1, i - 1);
    }
  }

  /**
   The TXT round trip (sections 6.1 and 6.4 of RFC 6763): with room for all of them, the pairs written
   are read back in order exactly when every key is printable ASCII without '=', none is empty, and
   every string fits its length octet.
   */
  lemma {:induction false} TextRoundTripExactly(pairs: seq<(bytes, bytes)>, capacity: nat)
    requires |pairs| <= capacity
    ensures PairsIn(TextOctets(pairs), capacity) == AsWritten(pairs) <==> AllPlain(pairs)
  {
    hide PairsIn, TextOctets, PlainPair;
    if AllPlain(pairs) {
      PlainPairsReadBack(pairs, capacity);
    } else if PairsIn(TextOctets(pairs), capacity) == AsWritten(pairs) {
      forall i | 0 <= i < |pairs| ensures PlainPair(pairs[i].0, pairs[i].1) {
        assert AsWritten(pairs)[i] == Pair(pairs[i].0, Some(pairs[i].1));
        ReadPairsArePlain(TextOctets(pairs), capacity, i);
      }
    }
  }
}
