/**
 The mount table monitor: each pass reads the table into one of two buffers and merges its lines
 with the list of known mounts, whose entries point into the other buffer.
 */
module MountTable {
  import opened Bytes

  const NEWLINE: byte := 10

  type Text = bytes

  /** What is read of the first fields of a line: its mount id, unless the line cannot be parsed. */
  type Parser = Text -> Option<nat>

  // The table as values

  datatype Item = Item(id: nat, text: Text)

  /** A call of the monitor's callback. */
  datatype Event = Added(item: Item) | Removed(item: Item)

  datatype Outcome = Outcome(items: seq<Item>, events: seq<Event>)

  function LineEnd(b: bytes, o: nat): (e: nat)
    requires o < |b|
    ensures o <= e <= |b|
  {
    match Find(b, NEWLINE, o) case Some(p) => p case None => |b|
  }

  /** The lines of b from o on; a newline at the very end begins no further line. */
  function LinesFrom(b: bytes, o: nat): seq<Text>
    decreases |b| - o
  {
    if o >= |b| then [] else [b[o..LineEnd(b, o)]] + LinesFrom(b, LineEnd(b, o) + 1)
  }

  lemma LinesStep(b: bytes, o: nat)
    requires o < |b|
    ensures LinesFrom(b, o) == [b[o..LineEnd(b, o)]] + LinesFrom(b, LineEnd(b, o) + 1)
  {}

  lemma {:induction false} NoLines(b: bytes, o: nat)
    ensures LinesFrom(b, o) == [] <==> o >= |b|
  {}

  /** The lines, each with a newline behind it. */
  function Joined(lines: seq<Text>): bytes {
    if lines == [] then [] else lines[0] + [10] + Joined(lines[1..])
  }

  lemma {:induction false} JoinedFirst(line: Text, rest: seq<Text>)
    ensures Joined([line] + rest) == line + ([10] + Joined(rest))
  {
    assert ([line] + rest)[1..] == rest;
    assert line + [10] + Joined(rest) == line + ([10] + Joined(rest));
  }

  lemma LineEnds(b: bytes, o: nat)
    requires o < |b|
    ensures var e := LineEnd(b, o); 10 !in b[o..e] && (e < |b| ==> b[e] == 10)
  {}

  lemma CutAtNewline(b: bytes, o: nat, e: nat)
    requires o <= e < |b| && b[e] == 10
    ensures b[o..] == b[o..e] + ([10] + b[e + 1..])
  {}

  /** What is added to the text from o on to end it with a newline. */
  function LastNewline(b: bytes, o: nat): bytes
    requires o <= |b|
  {
    if o == |b| || b[|b| - 1] == 10 then [] else [10]
  }

  /** The lines are what lies between the newlines, all of it; the last newline may be missing. */
  lemma {:induction false} LinesExactly(b: bytes, o: nat)
    requires o <= |b|
    ensures Joined(LinesFrom(b, o)) == b[o..] + LastNewline(b, o)
    ensures forall i :: 0 <= i < |LinesFrom(b, o)| ==> 10 !in LinesFrom(b, o)[i]
    decreases |b| - o
  {
    hide LineEnd, Joined, LinesFrom;
    if o == |b| {
      NoLines(b, o);
      NothingJoined();
    } else {
      var e := LineEnd(b, o);
      LinesStep(b, o);
      LineEnds(b, o);
      JoinedFirst(b[o..e], LinesFrom(b, e + 1));
      if e < |b| {
        LinesExactly(b, e + 1);
        CutAtNewline(b, o, e);
        SameEnd(b[o..e], b[e + 1..], LastNewline(b, e + 1));
      } else {
        NoLines(b, e + 1);
        NothingJoined();
        assert b[|b| - 1] in b[o..e];
        assert b[o..e] == b[o..];
      }
    }
  }

  lemma SameEnd(x: bytes, y: bytes, z: bytes)
    ensures x + ([10] + (y + z)) == x + ([10] + y) + z
  {}

  lemma NothingJoined()
    ensures Joined([]) == []
  {}

  predicate Parses(parse: Parser, line: Text) {
    line != [] && parse(line).Some?
  }

  datatype Turn = Stop | Drop | Keep(item: Item) | Insert(item: Item)

  /** The first known mount against the first line: a text that differs is compared by its id. */
  function Decide(parse: Parser, known: seq<Item>, lines: seq<Text>): Turn
    requires known != [] || lines != []
  {
    if lines == [] then Drop
    else if lines[0] == [] then Stop
    else if known != [] && lines[0] == known[0].text then Keep(known[0])
    else match parse(lines[0])
      case None => Stop
      case Some(id) =>
        if known == [] || known[0].id > id then Insert(Item(id, lines[0]))
        else if known[0].id == id then Keep(Item(id, lines[0]))
        else Drop
  }

  function Tail(lines: seq<Text>): seq<Text> {
    if lines == [] then [] else lines[1..]
  }

  /**
   What one pass makes of the known mounts and the lines read. It stops at a line it cannot read. When
   the first known mount is dropped, the line it was compared with is gone as well.
   */
  function Merged(parse: Parser, known: seq<Item>, lines: seq<Text>): Outcome
    decreases |known| + |lines|
  {
    if known == [] && lines == [] then Outcome([], [])
    else match Decide(parse, known, lines)
      case Stop => Outcome(known, [])
      case Drop =>
        var rest := Merged(parse, known[1..], Tail(lines));
        Outcome(rest.items, [Removed(known[0])] + rest.events)
      case Keep(item) =>
        var rest := Merged(parse, known[1..], Tail(lines));
        Outcome([item] + rest.items, rest.events)
      case Insert(item) =>
        var rest := Merged(parse, known, Tail(lines));
        Outcome([item] + rest.items, [Added(item)] + rest.events)
  }

  /** How many known mounts a pass leaves behind untouched when it stops early. */
  function Left(parse: Parser, known: seq<Item>, lines: seq<Text>): nat
    decreases |known| + |lines|
  {
    if known == [] && lines == [] then 0
    else match Decide(parse, known, lines)
      case Stop => |known|
      case Drop => Left(parse, known[1..], Tail(lines))
      case Keep(_) => Left(parse, known[1..], Tail(lines))
      case Insert(_) => Left(parse, known, Tail(lines))
  }

  predicate AllParse(parse: Parser, lines: seq<Text>) {
    forall i :: 0 <= i < |lines| ==> Parses(parse, lines[i])
  }

  // The list and the two buffers

  datatype Slot = First | Second

  function Other(s: Slot): Slot {
    if s.First? then Second else First
  }

  /** The octets read into the two buffers. */
  datatype Buffers = Buffers(first: bytes, second: bytes) {
    function At(s: Slot): bytes {
      if s.First? then first else second
    }

    function With(s: Slot, b: bytes): Buffers {
      if s.First? then this.(first := b) else this.(second := b)
    }
  }

  /** A list entry: its text is a slice of one of the buffers. */
  datatype Entry = Entry(id: nat, slot: Slot, pos: nat, length: nat, generation: nat)

  predicate InRange(buffer: Buffers, e: Entry) {
    e.pos + e.length <= |buffer.At(e.slot)|
  }

  function TextOf(buffer: Buffers, e: Entry): Text {
    if InRange(buffer, e) then buffer.At(e.slot)[e.pos..e.pos + e.length] else []
  }

  /** The entry lies in the given buffer, carries the generation, and has the id of its text. */
  predicate Settled(parse: Parser, buffer: Buffers, slot: Slot, generation: nat, e: Entry) {
    e.slot == slot && e.generation == generation && InRange(buffer, e)
    && e.length > 0 && parse(TextOf(buffer, e)) == Some(e.id)
  }

  predicate AllSettled(parse: Parser, buffer: Buffers, slot: Slot, generation: nat, entries: seq<Entry>) {
    forall i :: 0 <= i < |entries| ==> Settled(parse, buffer, slot, generation, entries[i])
  }

  function ItemOf(buffer: Buffers, e: Entry): Item {
    Item(e.id, TextOf(buffer, e))
  }

  function Items(buffer: Buffers, entries: seq<Entry>): (items: seq<Item>)
    ensures |items| == |entries|
  {
    seq(|entries|, i requires 0 <= i < |entries| => ItemOf(buffer, entries[i]))
  }

  /** Where the loop stands: what is done, and what a pass would make of the rest, is what it makes of the whole. */
  ghost predicate Going(parse: Parser, known: seq<Item>, lines: seq<Text>, done: seq<Item>, rest: seq<Item>, left: seq<Text>,
                        calls: seq<Event>, before: seq<Event>) {
    var goal, r := Merged(parse, known, lines), Merged(parse, rest, left);
    && goal.items == done + r.items && before + goal.events == calls + r.events
    && Left(parse, known, lines) == Left(parse, rest, left)
  }

  /** What the first known mount and the first line decide. */
  lemma Decided(parse: Parser, known: seq<Item>, lines: seq<Text>)
    requires known != [] || lines != []
    requires forall i :: 0 <= i < |known| ==> parse(known[i].text) == Some(known[i].id)
    ensures
      var turn := Decide(parse, known, lines);
      && (turn.Stop? ==> !AllParse(parse, lines))
      && (turn.Drop? || turn.Keep? ==> known != [])
      && (turn.Keep? ==> lines != [] && turn.item == Item(known[0].id, lines[0]) && parse(turn.item.text) == Some(turn.item.id))
      && (turn.Insert? ==> lines != [] && turn.item.text == lines[0] && parse(turn.item.text) == Some(turn.item.id))
  {}

  /** One turn. */
  lemma {:induction false} GoingStep(parse: Parser, known: seq<Item>, lines: seq<Text>, done: seq<Item>, rest: seq<Item>, left: seq<Text>,
                  calls: seq<Event>, before: seq<Event>)
    requires Going(parse, known, lines, done, rest, left, calls, before) && (rest != [] || left != [])
    ensures
      var turn, goal := Decide(parse, rest, left), Merged(parse, known, lines);
      && (turn.Stop? ==> goal.items == done + rest && before + goal.events == calls && Left(parse, known, lines) == |rest|)
      && (turn.Drop? ==> Going(parse, known, lines, done, rest[1..], Tail(left), calls + [Removed(rest[0])], before))
      && (turn.Keep? ==> rest != [] && Going(parse, known, lines, done + [turn.item], rest[1..], Tail(left), calls, before))
      && (turn.Insert? ==> Going(parse, known, lines, done + [turn.item], rest, Tail(left), calls + [Added(turn.item)], before))
  {
    hide Tail;
    var r := Merged(parse, rest, left);
    match Decide(parse, rest, left)
    case Stop => assert calls + [] == calls;
    case Drop =>
      var r2 := Merged(parse, rest[1..], Tail(left));
      assert calls + ([Removed(rest[0])] + r2.events) == calls + [Removed(rest[0])] + r2.events;
    case Keep(item) =>
      var r2 := Merged(parse, rest[1..], Tail(left));
      assert done + ([item] + r2.items) == done + [item] + r2.items;
    case Insert(item) =>
      var r2 := Merged(parse, rest, Tail(left));
      assert done + ([item] + r2.items) == done + [item] + r2.items;
      assert calls + ([Added(item)] + r2.events) == calls + [Added(item)] + r2.events;
  }

  lemma {:induction false} GoingEnds(parse: Parser, known: seq<Item>, lines: seq<Text>, done: seq<Item>,
                                     calls: seq<Event>, before: seq<Event>)
    requires Going(parse, known, lines, done, [], [], calls, before)
    ensures Merged(parse, known, lines).items == done && before + Merged(parse, known, lines).events == calls
    ensures Left(parse, known, lines) == 0
  {
    assert done + [] == done && calls + [] == calls;
  }

  lemma SettledItems(parse: Parser, buffer: Buffers, slot: Slot, generation: nat, entries: seq<Entry>)
    requires AllSettled(parse, buffer, slot, generation, entries)
    ensures forall i :: 0 <= i < |entries| ==> parse(Items(buffer, entries)[i].text) == Some(Items(buffer, entries)[i].id)
    ensures entries != [] ==> AllSettled(parse, buffer, slot, generation, entries[1..])
  {
    forall i | 0 <= i < |entries| ensures parse(Items(buffer, entries)[i].text) == Some(Items(buffer, entries)[i].id) {
      assert Settled(parse, buffer, slot, generation, entries[i]);
    }
  }

  lemma FirstItem(buffer: Buffers, entries: seq<Entry>)
    requires entries != []
    ensures Items(buffer, entries)[0] == ItemOf(buffer, entries[0]) && Items(buffer, entries)[1..] == Items(buffer, entries[1..])
  {}

  lemma LastItem(buffer: Buffers, entries: seq<Entry>, e: Entry)
    ensures Items(buffer, entries + [e]) == Items(buffer, entries) + [ItemOf(buffer, e)]
  {}

  lemma ItemsJoin(buffer: Buffers, a: seq<Entry>, b: seq<Entry>)
    ensures Items(buffer, a + b) == Items(buffer, a) + Items(buffer, b)
  {}

  /** One pass of the monitor: what it started from and what it reads. */
  datatype Job = Job(parse: Parser, buffer: Buffers, into: Slot, generation: nat, slot: Slot, before: nat,
                     lines: seq<Text>, known: seq<Item>, calls: seq<Event>)

  /** The loop's invariant: the entries done and the rest of them, the lines left, the calls made. */
  ghost predicate Midway(j: Job, done: seq<Entry>, rest: seq<Entry>, left: seq<Text>, calls: seq<Event>) {
    && AllSettled(j.parse, j.buffer, j.slot, j.before, rest)
    && AllSettled(j.parse, j.buffer, j.into, j.generation, done)
    && Going(j.parse, j.known, j.lines, Items(j.buffer, done), Items(j.buffer, rest), left, calls, j.calls)
  }

  /** The entry for the item just read. */
  predicate Read(j: Job, e: Entry, item: Item) {
    && e.slot == j.into && e.generation == j.generation && e.length > 0 && InRange(j.buffer, e)
    && item == Item(e.id, j.buffer.At(e.slot)[e.pos..e.pos + e.length])
  }

  lemma ReadOk(j: Job, e: Entry, item: Item)
    requires e.slot == j.into && e.generation == j.generation && e.length > 0 && e.pos + e.length <= |j.buffer.At(e.slot)|
    requires item.id == e.id && item.text == j.buffer.At(e.slot)[e.pos..e.pos + e.length]
    ensures Read(j, e, item)
  {}

  lemma TailLength(lines: seq<Text>)
    ensures |Tail(lines)| == if lines == [] then 0 else |lines| - 1
  {}

  /** One turn, by what was decided. */
  lemma TurnTaken(j: Job, done: seq<Entry>, rest: seq<Entry>, left: seq<Text>, calls: seq<Event>, e: Entry)
    requires Midway(j, done, rest, left, calls) && (rest != [] || left != [])
    ensures
      var turn, goal := Decide(j.parse, Items(j.buffer, rest), left), Merged(j.parse, j.known, j.lines);
      && (turn.Stop? ==> goal.items == Items(j.buffer, done + rest) && j.calls + goal.events == calls
                         && Left(j.parse, j.known, j.lines) == |rest|
                         && AllSettled(j.parse, j.buffer, j.into, j.generation, done)
                         && AllSettled(j.parse, j.buffer, j.slot, j.before, rest))
      && (turn.Drop? ==> rest != [] && Midway(j, done, rest[1..], Tail(left), calls + [Removed(ItemOf(j.buffer, rest[0]))]))
      && (turn.Keep? || turn.Insert? ==> left != [] && turn.item.text == left[0])
      && (turn.Keep? ==> rest != [] && turn.item.id == rest[0].id
                         && (Read(j, e, turn.item) ==> Midway(j, done + [e], rest[1..], Tail(left), calls)))
      && (turn.Insert? && Read(j, e, turn.item) ==>
            Midway(j, done + [e], rest, Tail(left), calls + [Added(ItemOf(j.buffer, e))]))
  {
    hide Merged, Decide, AllParse, Items, Settled, TextOf, Going, Left;
    var items := Items(j.buffer, rest);
    SettledItems(j.parse, j.buffer, j.slot, j.before, rest);
    Decided(j.parse, items, left);
    GoingStep(j.parse, j.known, j.lines, Items(j.buffer, done), items, left, calls, j.calls);
    ItemsJoin(j.buffer, done, rest);
    LastItem(j.buffer, done, e);
    if rest != [] { FirstItem(j.buffer, rest); }
    var turn := Decide(j.parse, items, left);
    if (turn.Keep? || turn.Insert?) && Read(j, e, turn.item) { ReadSettled(j, e, turn.item); }
  }

  lemma ReadSettled(j: Job, e: Entry, item: Item)
    requires Read(j, e, item) && j.parse(item.text) == Some(item.id)
    ensures Settled(j.parse, j.buffer, j.into, j.generation, e) && item == ItemOf(j.buffer, e)
  {}

  lemma MergeBegins(j: Job, entries: seq<Entry>)
    requires AllSettled(j.parse, j.buffer, j.slot, j.before, entries) && j.known == Items(j.buffer, entries)
    ensures Midway(j, [], entries, j.lines, j.calls)
  {
    hide Merged, Items;
    assert Items(j.buffer, []) == [];
    var goal := Merged(j.parse, j.known, j.lines);
    assert [] + goal.items == goal.items;
  }

  lemma MergeEnds(j: Job, done: seq<Entry>, rest: seq<Entry>, left: seq<Text>, calls: seq<Event>)
    requires Midway(j, done, rest, left, calls) && rest == [] && left == []
    ensures Merged(j.parse, j.known, j.lines).items == Items(j.buffer, done + rest)
    ensures j.calls + Merged(j.parse, j.known, j.lines).events == calls
    ensures Left(j.parse, j.known, j.lines) == 0
    ensures AllSettled(j.parse, j.buffer, j.into, j.generation, done) && AllSettled(j.parse, j.buffer, j.slot, j.before, rest)
  {
    assert Items(j.buffer, rest) == [] && done + rest == done;
    GoingEnds(j.parse, j.known, j.lines, Items(j.buffer, done), calls, j.calls);
  }

  lemma {:induction false} NothingLeft(parse: Parser, known: seq<Item>, lines: seq<Text>)
    requires AllParse(parse, lines)
    ensures Left(parse, known, lines) == 0
    decreases |known| + |lines|
  {
    if known != [] || lines != [] {
      assert lines != [] ==> Parses(parse, lines[0]);
      var turn := Decide(parse, known, lines);
      NothingLeft(parse, if turn.Insert? then known else known[1..], Tail(lines));
    }
  }

  /** Reading into one buffer leaves alone what lies in the other. */
  lemma OtherBuffer(parse: Parser, buffer: Buffers, slot: Slot, generation: nat, entries: seq<Entry>, into: Slot, b: bytes)
    requires AllSettled(parse, buffer, slot, generation, entries) && into != slot
    ensures AllSettled(parse, buffer.With(into, b), slot, generation, entries)
    ensures Items(buffer.With(into, b), entries) == Items(buffer, entries)
  {
    forall i | 0 <= i < |entries|
      ensures Settled(parse, buffer.With(into, b), slot, generation, entries[i])
           && ItemOf(buffer.With(into, b), entries[i]) == ItemOf(buffer, entries[i])
    {
      assert Settled(parse, buffer, slot, generation, entries[i]);
    }
  }

  /** The known mounts, the table last merged, and the calls of the callback so far. */
  datatype View = View(known: seq<Item>, last: Option<bytes>, calls: seq<Event>)

  predicate Skipped(v: View, content: Option<bytes>) {
    content.None? || content.value == [] || content == v.last
  }

  /** What a turn makes of a view; a table that could not be read, is empty or is as it was is skipped. */
  function Turned(parse: Parser, v: View, content: Option<bytes>): View {
    if Skipped(v, content) then v
    else
      var m := Merged(parse, v.known, LinesFrom(content.value, 0));
      View(m.items, content, v.calls + m.events)
  }

  /** The struct mountinfo_data_s: a view of the octets read that moves on line by line. */
  class LineReader {
    const data: bytes
    var start: nat
    var lineLength: nat
    var eof: bool

    ghost predicate Valid()
      reads this
    {
      start + lineLength <= |data| && (!eof ==> Next() < |data|)
    }

    function Next(): nat
      reads this
    {
      if lineLength > 0 then start + lineLength + 1 else start
    }

    ghost function Rest(): seq<Text>
      reads this
    {
      if eof then [] else LinesFrom(data, Next())
    }

    constructor (data: bytes)
      requires data != []
      ensures Valid() && this.data == data && !eof && Rest() == LinesFrom(data, 0) != []
    {
      this.data := data;
      start, lineLength, eof := 0, 0, false;
    }

    /** mountinfo_data_read_line: where the next line lies; a length of 0 is taken for a failure. */
    method ReadLine() returns (pos: nat, length: nat)
      requires Valid() && !eof
      modifies this
      ensures pos + length <= |data| && (length > 0 ==> Valid())
      ensures old(Rest()) != [] && data[pos..pos + length] == old(Rest())[0]
      ensures length > 0 ==> Rest() == old(Rest())[1..] && (eof <==> Rest() == [])
    {
      hide LinesFrom, LineEnd;
      LinesStep(data, Next());
      if lineLength > 0 {
        start := start + lineLength + 1;
        lineLength := 0;
      }
      lineLength := LineEnd(data, start) - start;
      if lineLength + 1 >= |data| - start { eof := true; }
      pos, length := start, lineLength;
      NoLines(data, pos + length + 1);
    }
  }

  class Monitor {
    const parse: Parser
    var generation: nat
    var mountlines: seq<Entry>
    var current: Option<Slot>
    var previous: Option<Slot>
    var buffer: Buffers
    /** The calls of the callback so far. */
    var calls: seq<Event>

    /** Between two passes every entry lies in the buffer that is not read into next. */
    ghost predicate Valid()
      reads this
    {
      && (previous.None? ==> mountlines == [])
      && (previous.Some? ==> current == Some(Other(previous.value))
                             && AllSettled(parse, buffer, previous.value, generation, mountlines))
    }

    function Now(): View
      reads this
    {
      View(Items(buffer, mountlines), if previous.None? then None else Some(buffer.At(previous.value)), calls)
    }

    constructor (parse: Parser)
      ensures Valid() && this.parse == parse && Now() == View([], None, [])
    {
      this.parse := parse;
      generation, mountlines, current, previous, calls := 0, [], None, None, [];
      buffer := Buffers([], []);
    }

    /** Reads the next line, if there is one, and compares it with the entry at the cursor, if there is one. */
    method ReadTurn(mdata: LineReader, into: Slot, at: nat) returns (turn: Turn, pos: nat, length: nat)
      requires mdata.Valid() && mdata.data == buffer.At(into) && at <= |mountlines|
      requires at < |mountlines| || !mdata.eof
      requires mdata.eof <==> mdata.Rest() == []
      modifies mdata
      ensures turn == Decide(parse, Items(buffer, mountlines[at..]), old(mdata.Rest()))
      ensures !turn.Stop? ==> mdata.Valid() && mdata.Rest() == Tail(old(mdata.Rest())) && (mdata.eof <==> mdata.Rest() == [])
      ensures turn.Keep? || turn.Insert? ==>
        old(mdata.Rest()) != [] && length > 0 && pos + length <= |buffer.At(into)|
        && buffer.At(into)[pos..pos + length] == old(mdata.Rest())[0]
    {
      hide LinesFrom, TextOf;
      pos, length := 0, 0;
      if mdata.eof { return Drop, pos, length; }
      pos, length := mdata.ReadLine();
      if length == 0 { return Stop, pos, length; }
      var line := buffer.At(into)[pos..pos + length];
      if at < |mountlines| && line == TextOf(buffer, mountlines[at]) {
        return Keep(ItemOf(buffer, mountlines[at])), pos, length;
      }
      var read := parse(line);
      if read.None? { return Stop, pos, length; }
      var id := read.value;
      turn := if at == |mountlines| || mountlines[at].id > id then Insert(Item(id, line))
              else if mountlines[at].id == id then Keep(Item(id, line))
              else Drop;
    }

    /**
     The merge loop, from the lines in the buffer `into`. The entries before the cursor `at` are done; those
     behind it still lie in the buffer `slot`.
     */
    method Merge(into: Slot, ghost slot: Slot, ghost before: nat) returns (ghost at: nat)
      requires buffer.At(into) != [] && AllSettled(parse, buffer, slot, before, mountlines)
      modifies this`mountlines, this`calls
      ensures
        var goal := Merged(parse, Items(buffer, old(mountlines)), LinesFrom(buffer.At(into), 0));
        Items(buffer, mountlines) == goal.items && calls == old(calls) + goal.events
      ensures at <= |mountlines| && |mountlines| - at == Left(parse, Items(buffer, old(mountlines)), LinesFrom(buffer.At(into), 0))
      ensures AllSettled(parse, buffer, into, generation, mountlines[..at])
      ensures AllSettled(parse, buffer, slot, before, mountlines[at..])
    {
      hide Merged, LinesFrom, AllSettled, Items, TextOf, Decide, Midway, Tail, Read, Left;
      var mdata := new LineReader(buffer.At(into));
      var cursor := 0;
      ghost var lines := LinesFrom(buffer.At(into), 0);
      ghost var j := Job(parse, buffer, into, generation, slot, before, lines, Items(buffer, mountlines), calls);
      ghost var done: seq<Entry>, rest := [], mountlines;
      MergeBegins(j, mountlines);
      while cursor < |mountlines| || !mdata.eof
        invariant mdata.Valid() && mdata.data == buffer.At(into) && fresh(mdata) && (mdata.eof <==> mdata.Rest() == [])
        invariant mountlines == done + rest && cursor == |done|
        invariant Midway(j, done, rest, mdata.Rest(), calls)
        decreases |mdata.Rest()| + |rest|
      {
        ghost var left := mdata.Rest();
        AtCursor(done, rest);
        var turn, pos, length := ReadTurn(mdata, into, cursor);
        ghost var e := Entry(if turn.Keep? || turn.Insert? then turn.item.id else 0, into, pos, length, generation);
        TurnTaken(j, done, rest, left, calls, e);
        if turn.Keep? || turn.Insert? { ReadOk(j, e, turn.item); }
        TailLength(left);
        if rest != [] { CursorMoves(done, rest, e); }
        match turn
        case Stop =>
          at := cursor;
          return;
        case Drop =>
          RemoveEntry(cursor);
          rest := rest[1..];
        case Keep(item) =>
          mountlines := mountlines[cursor := Entry(mountlines[cursor].id, into, pos, length, generation)];
          done, rest := done + [e], rest[1..];
          cursor := cursor + 1;
        case Insert(item) =>
          AddEntry(cursor, Entry(item.id, into, pos, length, generation));
          done := done + [e];
          cursor := cursor + 1;
      }
      MergeEnds(j, done, rest, mdata.Rest(), calls);
      at := cursor;
      AtCursor(done, rest);
    }

    /** mountinfo_monitor_process_remove. */
    method RemoveEntry(at: nat)
      requires at < |mountlines|
      modifies this`mountlines, this`calls
      ensures mountlines == old(mountlines[..at] + mountlines[at + 1..])
      ensures calls == old(calls) + [Removed(ItemOf(buffer, old(mountlines[at])))]
    {
      calls := calls + [Removed(ItemOf(buffer, mountlines[at]))];
      mountlines := mountlines[..at] + mountlines[at + 1..];
    }

    /** mountinfo_monitor_add_mline: before the entry at the cursor, or at the end. */
    method AddEntry(at: nat, e: Entry)
      requires at <= |mountlines|
      modifies this`mountlines, this`calls
      ensures mountlines == old(mountlines[..at] + [e] + mountlines[at..])
      ensures calls == old(calls) + [Added(ItemOf(buffer, e))]
    {
      mountlines := mountlines[..at] + [e] + mountlines[at..];
      calls := calls + [Added(ItemOf(buffer, e))];
    }

    /**
     MOUNTINFO_io_read_mountinfo_from_system: what could be read, if anything, replaces the octets of the
     current buffer, and so the texts of all entries that lie there.
     */
    method ReadFromSystem(content: Option<bytes>)
      modifies this`current, this`buffer
      ensures current == Some(if old(current).None? then First else old(current).value)
      ensures content.None? ==> buffer == old(buffer)
      ensures content.Some? ==> buffer == old(buffer).With(current.value, content.value)
      ensures forall e: Entry :: content.None? || e.slot != current.value ==> TextOf(buffer, e) == TextOf(old(buffer), e)
      ensures forall e: Entry :: content.Some? && e.slot == current.value && e.pos + e.length <= |content.value| ==>
                TextOf(buffer, e) == content.value[e.pos..e.pos + e.length]
    {
      if current.None? { current := Some(First); }
      if content.Some? { buffer := buffer.With(current.value, content.value); }
    }

    /**
     One turn from the label readdatafromsystem on; content is what could be read, if anything. Reading never
     changes a listed line. After a merge the monitor is valid again exactly when no known mount was
     left behind: those left behind are the last of the list, and lie in the buffer that is read into next.
     */
    method Pass(content: Option<bytes>)
      requires Valid()
      modifies this
      ensures Now() == Turned(parse, old(Now()), content)
      ensures Valid() <==>
        Skipped(old(Now()), content) || Left(parse, old(Now()).known, LinesFrom(content.value, 0)) == 0
      ensures current.Some?
      ensures !Skipped(old(Now()), content) ==>
        var left := Left(parse, old(Now()).known, LinesFrom(content.value, 0));
        && left <= |mountlines|
        && forall i :: 0 <= i < |mountlines| ==> (mountlines[i].slot == current.value <==> i >= |mountlines| - left)
      ensures generation == if Skipped(old(Now()), content) then old(generation) else old(generation) + 1
    {
      hide Merged, LinesFrom, Settled, Items, Left, Decide, TextOf;
      ReadFromSystem(content);
      if content.None? { return; }
      var into := current.value;
      ghost var slot, before := Other(into), generation;
      OtherBuffer(parse, old(buffer), slot, generation, mountlines, into, content.value);
      if content.value == [] { return; }
      if previous.Some? && buffer.At(previous.value) == content.value { return; }
      generation := generation + 1;
      ghost var at := Merge(into, slot, before);
      previous := current;
      current := Some(Other(into));
      SettledWhere(parse, buffer, into, generation, slot, before, mountlines, at);
    }
  }

  lemma AtCursor(done: seq<Entry>, rest: seq<Entry>)
    ensures (done + rest)[..|done|] == done && (done + rest)[|done|..] == rest
  {}

  lemma CursorMoves(done: seq<Entry>, rest: seq<Entry>, e: Entry)
    requires rest != []
    ensures (done + rest)[|done|] == rest[0] && (done + rest)[|done| + 1..] == rest[1..]
    ensures (done + rest)[|done| := e] == done + [e] + rest[1..]
  {}

  lemma SettledWhere(parse: Parser, buffer: Buffers, into: Slot, generation: nat, slot: Slot, before: nat,
                     entries: seq<Entry>, at: nat)
    requires at <= |entries| && slot != into
    requires AllSettled(parse, buffer, into, generation, entries[..at]) && AllSettled(parse, buffer, slot, before, entries[at..])
    ensures AllSettled(parse, buffer, into, generation, entries) <==> at == |entries|
    ensures forall i :: 0 <= i < |entries| ==> (entries[i].slot == slot <==> i >= at)
  {
    forall i | 0 <= i < |entries| ensures entries[i].slot == slot <==> i >= at {
      if i < at {
        assert Settled(parse, buffer, into, generation, entries[..at][i]);
      } else {
        assert Settled(parse, buffer, slot, before, entries[at..][i - at]);
      }
    }
    if at == |entries| {
      assert entries[..at] == entries;
    } else {
      assert Settled(parse, buffer, slot, before, entries[at..][0]);
      assert !Settled(parse, buffer, into, generation, entries[at]);
    }
  }

  /** Read over, an entry keeps its text exactly when the same octets are read at its place. */
  lemma ReadOver(buffer: Buffers, e: Entry, content: bytes)
    requires e.length > 0 && InRange(buffer, e) && e.pos + e.length <= |content|
    ensures TextOf(buffer.With(e.slot, content), e) == TextOf(buffer, e) <==>
            content[e.pos..e.pos + e.length] == TextOf(buffer, e)
  {}
}
