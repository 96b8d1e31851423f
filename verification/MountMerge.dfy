/** When one pass over the mount table, and a whole run of passes, leaves the table that was read. */
module MountMerge {
  import opened Bytes
  import opened MountTable

  predicate Ordered(items: seq<Item>) {
    forall i, j :: 0 <= i < j < |items| ==> items[i].id < items[j].id
  }

  /** Every item has the id of its text. */
  predicate Faithful(parse: Parser, items: seq<Item>) {
    forall i :: 0 <= i < |items| ==> items[i].text != [] && parse(items[i].text) == Some(items[i].id)
  }

  function TableOf(parse: Parser, lines: seq<Text>): (t: seq<Item>)
    requires AllParse(parse, lines)
    ensures |t| == |lines|
  {
    seq(|lines|, i requires 0 <= i < |lines| => assert Parses(parse, lines[i]); Item(parse(lines[i]).value, lines[i]))
  }

  predicate HasId(items: seq<Item>, id: nat) {
    exists i :: 0 <= i < |items| && items[i].id == id
  }

  /** The items of a whose ids are not among those of b. */
  function Missing(a: seq<Item>, b: seq<Item>): seq<Item> {
    if a == [] then [] else (if HasId(b, a[0].id) then [] else [a[0]]) + Missing(a[1..], b)
  }

  /** Every mount that goes is younger than every mount that is there afterwards. */
  predicate DropsLast(known: seq<Item>, table: seq<Item>) {
    forall i, j :: 0 <= i < |known| && 0 <= j < |table| && !HasId(table, known[i].id) ==> known[i].id > table[j].id
  }

  function AddedAll(items: seq<Item>): seq<Event> {
    seq(|items|, i requires 0 <= i < |items| => Added(items[i]))
  }

  function RemovedAll(items: seq<Item>): seq<Event> {
    seq(|items|, i requires 0 <= i < |items| => Removed(items[i]))
  }

  lemma TableTail(parse: Parser, lines: seq<Text>)
    requires AllParse(parse, lines) && lines != []
    ensures AllParse(parse, lines[1..]) && TableOf(parse, lines[1..]) == TableOf(parse, lines)[1..]
    ensures lines[0] != [] && parse(lines[0]) == Some(TableOf(parse, lines)[0].id) && TableOf(parse, lines)[0].text == lines[0]
  {
    assert Parses(parse, lines[0]);
    forall i | 0 <= i < |lines| - 1 ensures Parses(parse, lines[1..][i]) { assert Parses(parse, lines[i + 1]); }
  }

  /** A pass decides by comparing the first ids. */
  lemma DecidedByIds(parse: Parser, known: seq<Item>, lines: seq<Text>)
    requires Faithful(parse, known) && AllParse(parse, lines) && lines != []
    ensures
      var first := TableOf(parse, lines)[0];
      Decide(parse, known, lines) ==
        if known == [] || known[0].id > first.id then Insert(first) else if known[0].id == first.id then Keep(first) else Drop
  {
    TableTail(parse, lines);
  }

  lemma {:induction false} HasIdLarger(items: seq<Item>, id: nat)
    requires Ordered(items) && (items == [] || id < items[0].id)
    ensures !HasId(items, id)
  {}

  lemma HasIdTail(items: seq<Item>, id: nat)
    requires items != []
    ensures HasId(items, id) <==> items[0].id == id || HasId(items[1..], id)
  {
    if HasId(items, id) {
      var i :| 0 <= i < |items| && items[i].id == id;
      if i > 0 { assert items[1..][i - 1].id == id; }
    }
    if HasId(items[1..], id) {
      var i :| 0 <= i < |items[1..]| && items[1..][i].id == id;
      assert items[i + 1].id == id;
    }
  }

  /** How the condition passes through a turn that keeps, and one that adds. */
  lemma DropsLastKeep(known: seq<Item>, table: seq<Item>)
    requires Ordered(known) && Ordered(table) && known != [] && table != [] && known[0].id == table[0].id
    ensures DropsLast(known, table) <==> DropsLast(known[1..], table[1..])
  {
    forall i | 0 <= i < |known| ensures HasId(table, known[i].id) <==> i == 0 || HasId(table[1..], known[i].id) {
      HasIdTail(table, known[i].id);
    }
    if DropsLast(known, table) {
      forall i, j | 0 <= i < |known[1..]| && 0 <= j < |table[1..]| && !HasId(table[1..], known[1..][i].id)
        ensures known[1..][i].id > table[1..][j].id
      {
        assert known[1..][i] == known[i + 1] && table[1..][j] == table[j + 1];
      }
    }
    if DropsLast(known[1..], table[1..]) {
      forall i, j | 0 <= i < |known| && 0 <= j < |table| && !HasId(table, known[i].id) ensures known[i].id > table[j].id {
        assert known[i] == known[1..][i - 1];
        if j > 0 { assert table[j] == table[1..][j - 1]; }
      }
    }
  }

  lemma DropsLastInsert(known: seq<Item>, table: seq<Item>)
    requires Ordered(known) && table != [] && (known == [] || known[0].id > table[0].id)
    ensures DropsLast(known, table) <==> DropsLast(known, table[1..])
  {
    forall i | 0 <= i < |known| ensures HasId(table, known[i].id) <==> HasId(table[1..], known[i].id) {
      HasIdTail(table, known[i].id);
    }
    if DropsLast(known, table) {
      forall i, j | 0 <= i < |known| && 0 <= j < |table[1..]| && !HasId(table[1..], known[i].id)
        ensures known[i].id > table[1..][j].id
      {
        assert table[1..][j] == table[j + 1];
      }
    }
    if DropsLast(known, table[1..]) {
      forall i, j | 0 <= i < |known| && 0 <= j < |table| && !HasId(table, known[i].id) ensures known[i].id > table[j].id {
        if j > 0 { assert table[j] == table[1..][j - 1]; }
      }
    }
  }

  lemma DropsLastNot(known: seq<Item>, table: seq<Item>)
    requires Ordered(table) && known != [] && table != [] && known[0].id < table[0].id
    ensures !DropsLast(known, table)
  {
    HasIdLarger(table, known[0].id);
  }

  /** Nothing is in the list after a pass that was not read in it, and the list stays in order. */
  lemma {:induction false} MergedFromLines(parse: Parser, known: seq<Item>, lines: seq<Text>, low: int)
    requires Faithful(parse, known) && AllParse(parse, lines) && Ordered(TableOf(parse, lines))
    requires lines == [] || low < TableOf(parse, lines)[0].id
    ensures var items := Merged(parse, known, lines).items;
            Ordered(items) && Faithful(parse, items) && (items == [] || low < items[0].id)
    decreases |known| + |lines|
  {
    if lines == [] {
      if known != [] { MergedFromLines(parse, known[1..], [], low); }
    } else {
      hide Ordered, Faithful;
      TableTail(parse, lines);
      DecidedByIds(parse, known, lines);
      var first := TableOf(parse, lines)[0];
      OrderedTail(TableOf(parse, lines));
      FaithfulTail(parse, known);
      var turn := Decide(parse, known, lines);
      var known2 := if turn.Insert? then known else known[1..];
      MergedFromLines(parse, known2, lines[1..], first.id);
      if !turn.Drop? { InFront(parse, first, Merged(parse, known2, lines[1..]).items); }
    }
  }

  lemma OrderedTail(items: seq<Item>)
    requires Ordered(items)
    ensures items != [] ==> Ordered(items[1..])
    ensures |items| > 1 ==> items[0].id < items[1].id
  {}

  lemma FaithfulTail(parse: Parser, items: seq<Item>)
    requires Faithful(parse, items)
    ensures items != [] ==> Faithful(parse, items[1..])
  {}

  lemma InFront(parse: Parser, first: Item, items: seq<Item>)
    requires Ordered(items) && Faithful(parse, items) && (items == [] || first.id < items[0].id)
    requires first.text != [] && parse(first.text) == Some(first.id)
    ensures Ordered([first] + items) && Faithful(parse, [first] + items)
  {}

  /**
   One pass leaves exactly the table that was read if and only if every mount it drops has a larger id than
   every mount in that table. Otherwise the line a dropped mount was compared with is lost.
   */
  lemma {:induction false} MergeExactly(parse: Parser, known: seq<Item>, lines: seq<Text>)
    requires Ordered(known) && Faithful(parse, known) && AllParse(parse, lines) && Ordered(TableOf(parse, lines))
    ensures Merged(parse, known, lines).items == TableOf(parse, lines) <==> DropsLast(known, TableOf(parse, lines))
    decreases |known| + |lines|
  {
    if lines == [] {
      NoLinesLeft(parse, known);
    } else {
      hide Ordered, Faithful, DropsLast;
      TableTail(parse, lines);
      DecidedByIds(parse, known, lines);
      var table := TableOf(parse, lines);
      OrderedTail(table);
      OrderedTail(known);
      FaithfulTail(parse, known);
      var turn := Decide(parse, known, lines);
      assert table == [table[0]] + table[1..];
      if turn.Insert? {
        MergeExactly(parse, known, lines[1..]);
        DropsLastInsert(known, table);
        SameTail(table, Merged(parse, known, lines[1..]).items);
      } else if turn.Keep? {
        MergeExactly(parse, known[1..], lines[1..]);
        DropsLastKeep(known, table);
        SameTail(table, Merged(parse, known[1..], lines[1..]).items);
      } else {
        MergedFromLines(parse, known[1..], lines[1..], table[0].id);
        DropsLastNot(known, table);
      }
    }
  }

  lemma SameTail(table: seq<Item>, items: seq<Item>)
    requires table != []
    ensures [table[0]] + items == table <==> items == table[1..]
  {
    assert ([table[0]] + items)[1..] == items;
  }

  /** A pass without lines removes everything, one after the other. */
  lemma {:induction false} NoLinesLeft(parse: Parser, known: seq<Item>)
    ensures Merged(parse, known, []) == Outcome([], RemovedAll(known)) && DropsLast(known, [])
  {
    if known != [] {
      NoLinesLeft(parse, known[1..]);
      assert RemovedAll(known) == [Removed(known[0])] + RemovedAll(known[1..]);
    }
  }

  lemma {:induction false} MissingNone(a: seq<Item>, b: seq<Item>)
    requires b == []
    ensures Missing(a, b) == a
  {
    if a != [] { MissingNone(a[1..], b); }
  }

  /** Whether a first item that is no id of a is there makes no difference. */
  lemma {:induction false} MissingAside(a: seq<Item>, first: Item, b: seq<Item>)
    requires !HasId(a, first.id)
    ensures Missing(a, [first] + b) == Missing(a, b)
  {
    if a != [] {
      HasIdTail(a, first.id);
      HasIdTail([first] + b, a[0].id);
      assert ([first] + b)[1..] == b;
      assert a[0].id != first.id;
      MissingAside(a[1..], first, b);
    }
  }

  /** In a pass that leaves the table, the callback hears of each new mount once, in order, and then of each mount that went. */
  lemma {:induction false} MergeReports(parse: Parser, known: seq<Item>, lines: seq<Text>)
    requires Ordered(known) && Faithful(parse, known) && AllParse(parse, lines) && Ordered(TableOf(parse, lines))
    requires DropsLast(known, TableOf(parse, lines))
    ensures
      var table := TableOf(parse, lines);
      Merged(parse, known, lines).events == AddedAll(Missing(table, known)) + RemovedAll(Missing(known, table))
    decreases |known| + |lines|
  {
    if lines == [] {
      NoLinesLeft(parse, known);
      MissingNone(known, []);
      assert AddedAll(Missing([], known)) == [];
    } else {
      hide Ordered, Faithful, DropsLast, HasId, Missing, AddedAll, RemovedAll, TableOf, Decide, AllParse, Merged;
      EventsStep(parse, known, lines);
      TableTail(parse, lines);
      DecidedByIds(parse, known, lines);
      var table := TableOf(parse, lines);
      OrderedTail(table);
      OrderedTail(known);
      FaithfulTail(parse, known);
      var turn := Decide(parse, known, lines);
      if turn.Insert? {
        DropsLastInsert(known, table);
        MergeReports(parse, known, lines[1..]);
        InsertReports(known, table);
        OneMoreAdded(table[0], Missing(table[1..], known), RemovedAll(Missing(known, table)));
      } else if turn.Keep? {
        DropsLastKeep(known, table);
        MergeReports(parse, known[1..], lines[1..]);
        KeepReports(known, table);
        KeepReports(table, known);
      } else {
        DropsLastNot(known, table);
      }
    }
  }

  lemma {:induction false} EventsStep(parse: Parser, known: seq<Item>, lines: seq<Text>)
    requires lines != []
    ensures
      var turn, events := Decide(parse, known, lines), Merged(parse, known, lines).events;
      && (turn.Insert? ==> events == [Added(turn.item)] + Merged(parse, known, lines[1..]).events)
      && (turn.Keep? && known != [] ==> events == Merged(parse, known[1..], lines[1..]).events)
  {}

  lemma OneMoreAdded(first: Item, items: seq<Item>, more: seq<Event>)
    ensures AddedAll([first] + items) + more == [Added(first)] + (AddedAll(items) + more)
  {
    assert AddedAll([first] + items) == [Added(first)] + AddedAll(items);
  }

  lemma {:induction false} MissingFirst(a: seq<Item>, b: seq<Item>)
    requires a != []
    ensures Missing(a, b) == (if HasId(b, a[0].id) then [] else [a[0]]) + Missing(a[1..], b)
  {}

  lemma {:induction false} InsertReports(known: seq<Item>, table: seq<Item>)
    requires Ordered(known) && table != [] && (known == [] || known[0].id > table[0].id)
    ensures Missing(known, table) == Missing(known, table[1..])
    ensures Missing(table, known) == [table[0]] + Missing(table[1..], known)
  {
    hide Missing, HasId;
    HasIdLarger(known, table[0].id);
    assert table == [table[0]] + table[1..];
    MissingAside(known, table[0], table[1..]);
    MissingFirst(table, known);
  }

  lemma {:induction false} KeepReports(known: seq<Item>, table: seq<Item>)
    requires Ordered(known) && Ordered(table) && known != [] && table != [] && known[0].id == table[0].id
    ensures Missing(known, table) == Missing(known[1..], table[1..])
  {
    hide Missing, HasId;
    HasIdLarger(known[1..], table[0].id);
    HasIdTail(table, known[0].id);
    MissingFirst(known, table);
    assert table == [table[0]] + table[1..];
    MissingAside(known[1..], table[0], table[1..]);
    assert [] + Missing(known[1..], table) == Missing(known[1..], table);
  }

  /** A mount that stays is lost when one with a smaller id goes: the line of mount 2 is eaten by mount 1. */
  lemma StayingMountIsLost(parse: Parser, one: Text, two: Text)
    requires one != [] && two != [] && parse(one) == Some(1) && parse(two) == Some(2)
    ensures Merged(parse, [Item(1, one), Item(2, two)], [two]) == Outcome([], [Removed(Item(1, one)), Removed(Item(2, two))])
  {
    var known, lines := [Item(1, one), Item(2, two)], [two];
    assert Decide(parse, known, lines) == Drop;
    assert known[1..] == [Item(2, two)] && lines[1..] == [];
    NoLinesLeft(parse, known[1..]);
  }

  // Lines that cannot be read

  /** A known mount and a line that cannot be read: the mount stays as it is, in the buffer that is read into next. */
  lemma UnreadableLeaves(parse: Parser, known: Item, line: Text)
    requires known.text != [] && parse(known.text) == Some(known.id) && !Parses(parse, line)
    ensures Left(parse, [known], [line]) == 1 && Merged(parse, [known], [line]) == Outcome([known], [])
  {
    assert Decide(parse, [known], [line]) == Stop;
  }

  function FromEnd(table: seq<Item>, k: nat): Item
    requires 0 < k <= |table|
  {
    table[|table| - k]
  }

  /** Counted from the end, each known mount has an item of at least its id against it. */
  predicate Covered(known: seq<Item>, table: seq<Item>) {
    |known| <= |table| && forall k :: 0 < k <= |known| ==> FromEnd(known, k).id <= FromEnd(table, k).id
  }

  lemma FromEndTail(table: seq<Item>)
    requires table != []
    ensures forall k :: 0 < k < |table| ==> FromEnd(table[1..], k) == FromEnd(table, k)
    ensures FromEnd(table, |table|) == table[0]
  {}

  lemma CoveredInsert(known: seq<Item>, table: seq<Item>)
    requires table != [] && (known == [] || known[0].id > table[0].id)
    ensures Covered(known, table) <==> Covered(known, table[1..])
  {
    hide FromEnd;
    FromEndTail(table);
    if known != [] { FromEndTail(known); }
  }

  lemma CoveredTake(known: seq<Item>, table: seq<Item>)
    requires Ordered(table) && table != [] && known != [] && known[0].id <= table[0].id
    ensures Covered(known, table) <==> Covered(known[1..], table[1..])
  {
    FromEndTail(table);
    FromEndTail(known);
    assert |known| <= |table| ==> FromEnd(known, |known|).id <= FromEnd(table, |known|).id;
    hide FromEnd;
  }

  lemma DecidedFirst(parse: Parser, known: seq<Item>, lines: seq<Text>)
    requires Faithful(parse, known) && lines != []
    ensures Decide(parse, known, lines) ==
      if !Parses(parse, lines[0]) then Stop
      else
        var first := Item(parse(lines[0]).value, lines[0]);
        if known == [] || known[0].id > first.id then Insert(first) else if known[0].id == first.id then Keep(first) else Drop
  {}

  /**
   When the first line that cannot be read is line n, no known mount is left behind if and only if each known
   one, counted from the end, has a line before n against it with an id not smaller than its own.
   */
  lemma {:induction false} LeftExactly(parse: Parser, known: seq<Item>, lines: seq<Text>, n: nat)
    requires Faithful(parse, known) && n < |lines| && !Parses(parse, lines[n])
    requires AllParse(parse, lines[..n]) && Ordered(TableOf(parse, lines[..n]))
    ensures Left(parse, known, lines) == 0 <==> Covered(known, TableOf(parse, lines[..n]))
    decreases n
  {
    hide Ordered, Faithful, Covered;
    DecidedFirst(parse, known, lines);
    if n == 0 {
      NothingCovers(known);
      assert TableOf(parse, lines[..0]) == [];
    } else {
      var table, good := TableOf(parse, lines[..n]), lines[..n];
      TableTail(parse, good);
      OrderedTail(table);
      FaithfulTail(parse, known);
      assert good[1..] == lines[1..][..n - 1] && lines[1..][n - 1] == lines[n];
      assert Parses(parse, good[0]);
      var turn := Decide(parse, known, lines);
      if turn.Insert? {
        CoveredInsert(known, table);
        LeftExactly(parse, known, lines[1..], n - 1);
      } else {
        CoveredTake(known, table);
        LeftExactly(parse, known[1..], lines[1..], n - 1);
      }
    }
  }

  lemma NothingCovers(known: seq<Item>)
    ensures Covered(known, []) <==> known == []
  {}

  // Runs

  /** What a listener to the callback believes to be mounted. */
  function Heard(ids: set<nat>, events: seq<Event>): set<nat>
    decreases |events|
  {
    if events == [] then ids
    else Heard(match events[0] case Added(x) => ids + {x.id} case Removed(x) => ids - {x.id}, events[1..])
  }

  function Ids(items: seq<Item>): (ids: set<nat>)
    ensures forall id :: id in ids <==> HasId(items, id)
  {
    set i | 0 <= i < |items| :: items[i].id
  }

  lemma IdsFirst(items: seq<Item>)
    requires items != []
    ensures Ids(items) == {items[0].id} + Ids(items[1..])
  {
    forall id ensures id in Ids(items) <==> id in {items[0].id} + Ids(items[1..]) { HasIdTail(items, id); }
  }

  /** Even when mounts are lost, the callback tells of it: the listener believes what the list holds. */
  lemma {:induction false} HeardIsListed(parse: Parser, known: seq<Item>, lines: seq<Text>, done: set<nat>)
    requires Ordered(known) && Faithful(parse, known) && AllParse(parse, lines) && Ordered(TableOf(parse, lines))
    requires done !! Ids(known)
    ensures var m := Merged(parse, known, lines); Heard(done + Ids(known), m.events) == done + Ids(m.items)
    decreases |known| + |lines|
  {
    hide Ordered, Faithful, HasId, Ids;
    if known != [] {
      OrderedTail(known);
      FaithfulTail(parse, known);
      IdsFirst(known);
      FirstAlone(known);
    }
    if lines == [] {
      if known != [] {
        HeardIsListed(parse, known[1..], [], done);
        assert done + Ids(known) - {known[0].id} == done + Ids(known[1..]);
      }
    } else {
      TableTail(parse, lines);
      DecidedByIds(parse, known, lines);
      var first := TableOf(parse, lines)[0];
      OrderedTail(TableOf(parse, lines));
      var turn := Decide(parse, known, lines);
      if turn.Insert? {
        NotKnown(known, first.id);
        HeardIsListed(parse, known, lines[1..], done + {first.id});
        IdsFirst([first] + Merged(parse, known, lines[1..]).items);
        assert done + Ids(known) + {first.id} == done + {first.id} + Ids(known);
        assert ([first] + Merged(parse, known, lines[1..]).items)[1..] == Merged(parse, known, lines[1..]).items;
      } else if turn.Keep? {
        HeardIsListed(parse, known[1..], lines[1..], done + {first.id});
        IdsFirst([first] + Merged(parse, known[1..], lines[1..]).items);
        assert done + Ids(known) == done + {first.id} + Ids(known[1..]);
        assert ([first] + Merged(parse, known[1..], lines[1..]).items)[1..] == Merged(parse, known[1..], lines[1..]).items;
      } else {
        HeardIsListed(parse, known[1..], lines[1..], done);
        assert done + Ids(known) - {known[0].id} == done + Ids(known[1..]);
      }
    }
  }

  lemma FirstAlone(known: seq<Item>)
    requires Ordered(known) && known != []
    ensures known[0].id !in Ids(known[1..])
  {
    HasIdLarger(known[1..], known[0].id);
  }

  lemma NotKnown(known: seq<Item>, id: nat)
    requires Ordered(known) && (known == [] || id < known[0].id)
    ensures id !in Ids(known)
  {
    HasIdLarger(known, id);
  }

  predicate GoodTable(parse: Parser, content: Option<bytes>) {
    content.None? || (AllParse(parse, LinesFrom(content.value, 0)) && Ordered(TableOf(parse, LinesFrom(content.value, 0))))
  }

  predicate GoodTables(parse: Parser, contents: seq<Option<bytes>>) {
    forall i :: 0 <= i < |contents| ==> GoodTable(parse, contents[i])
  }

  /** The monitor's view after a run of turns. */
  function Run(parse: Parser, v: View, contents: seq<Option<bytes>>): View
    decreases |contents|
  {
    if contents == [] then v else Run(parse, Turned(parse, v, contents[0]), contents[1..])
  }

  /** The list is in order, every entry has the id of its line, and the listener believes what the list holds. */
  predicate Tracked(parse: Parser, v: View) {
    Ordered(v.known) && Faithful(parse, v.known) && Heard({}, v.calls) == Ids(v.known)
  }

  lemma {:induction false} HeardJoin(ids: set<nat>, first: seq<Event>, more: seq<Event>)
    ensures Heard(ids, first + more) == Heard(Heard(ids, first), more)
    decreases |first|
  {
    if first == [] {
      assert first + more == more;
    } else {
      assert (first + more)[1..] == first[1..] + more;
      HeardJoin(match first[0] case Added(x) => ids + {x.id} case Removed(x) => ids - {x.id}, first[1..], more);
    }
  }

  lemma TurnTracked(parse: Parser, v: View, content: Option<bytes>)
    requires Tracked(parse, v) && GoodTable(parse, content)
    ensures Tracked(parse, Turned(parse, v, content))
  {
    if !Skipped(v, content) {
      hide Merged, Ordered, Faithful, Ids, Heard, LinesFrom;
      var lines := LinesFrom(content.value, 0);
      MergedFromLines(parse, v.known, lines, -1);
      HeardIsListed(parse, v.known, lines, {});
      var m := Merged(parse, v.known, lines);
      assert {} + Ids(v.known) == Ids(v.known) && {} + Ids(m.items) == Ids(m.items);
      HeardJoin({}, v.calls, m.events);
    }
  }

  /** Over every run of tables whose lines parse and are in order, whatever comes and goes, the listener is never misled about the list. */
  lemma {:induction false} RunTracked(parse: Parser, v: View, contents: seq<Option<bytes>>)
    requires Tracked(parse, v) && GoodTables(parse, contents)
    ensures Tracked(parse, Run(parse, v, contents))
    decreases |contents|
  {
    hide Tracked, Turned, GoodTable;
    if contents != [] {
      TurnTracked(parse, v, contents[0]);
      RunTracked(parse, Turned(parse, v, contents[0]), contents[1..]);
    }
  }

  /**
   The last table that could be read and was not empty, after a run. The monitor may skip a table; whether it
   has the right to is what is proved below.
   */
  function LastRead(last: Option<bytes>, contents: seq<Option<bytes>>): Option<bytes>
    decreases |contents|
  {
    if contents == [] then last
    else
      var c := contents[|contents| - 1];
      if c.Some? && c.value != [] then c else LastRead(last, contents[..|contents| - 1])
  }

  /** A table that could be read, is not empty and is not the one last read is merged, octet for octet that one. */
  lemma TurnReads(parse: Parser, v: View, content: Option<bytes>)
    ensures var v2 := Turned(parse, v, content);
      if content.Some? && content.value != [] then
        && v2.last == content
        && (content != v.last ==>
              var m := Merged(parse, v.known, LinesFrom(content.value, 0));
              v2.known == m.items && v2.calls == v.calls + m.events)
        && (content == v.last ==> v2 == v)
      else v2 == v
  {
    hide Merged, LinesFrom;
  }

  lemma {:induction false} LastReadFirst(last: Option<bytes>, contents: seq<Option<bytes>>)
    requires contents != []
    ensures LastRead(last, contents) ==
      LastRead(if contents[0].Some? && contents[0].value != [] then contents[0] else last, contents[1..])
    decreases |contents|
  {
    if |contents| > 1 {
      assert contents[1..][..|contents| - 2] == contents[..|contents| - 1][1..];
      LastReadFirst(last, contents[..|contents| - 1]);
    }
  }

  /** Over every run the table last merged is the last one that could be read and was not empty. */
  lemma {:induction false} RunReads(parse: Parser, v: View, contents: seq<Option<bytes>>)
    ensures Run(parse, v, contents).last == LastRead(v.last, contents)
    decreases |contents|
  {
    hide Turned, LastRead;
    if contents == [] {
      NothingRead(v.last);
    } else {
      TurnReads(parse, v, contents[0]);
      LastReadFirst(v.last, contents);
      RunReads(parse, Turned(parse, v, contents[0]), contents[1..]);
    }
  }

  lemma {:induction false} NothingRead(last: Option<bytes>)
    ensures LastRead(last, []) == last
  {}

  /** The list is what a table holds; without a table it is empty. */
  predicate Holds(parse: Parser, known: seq<Item>, table: Option<bytes>) {
    if table.None? then known == []
    else GoodTable(parse, table) && known == TableOf(parse, LinesFrom(table.value, 0))
  }

  /** The list holds the table last merged. */
  predicate Mirrors(parse: Parser, v: View) {
    Holds(parse, v.known, v.last)
  }

  /** The table drops no known mount but such as are younger than all it has. */
  predicate DropsYoungest(parse: Parser, known: seq<Item>, content: Option<bytes>)
    requires GoodTable(parse, content)
  {
    content.None? || content.value == [] || DropsLast(known, TableOf(parse, LinesFrom(content.value, 0)))
  }

  /** So do all tables of a run. */
  predicate Orderly(parse: Parser, v: View, contents: seq<Option<bytes>>)
    requires GoodTables(parse, contents)
    decreases |contents|
  {
    contents == [] ||
    (assert GoodTable(parse, contents[0]);
     DropsYoungest(parse, v.known, contents[0]) && Orderly(parse, Turned(parse, v, contents[0]), contents[1..]))
  }

  lemma {:induction false} NothingDropped(table: seq<Item>)
    ensures DropsLast(table, table)
  {
    forall i | 0 <= i < |table| ensures HasId(table, table[i].id) {}
  }

  /** A turn leaves the list holding the last table exactly when that table drops only the youngest mounts. */
  lemma TurnMirrors(parse: Parser, v: View, content: Option<bytes>)
    requires Tracked(parse, v) && Mirrors(parse, v) && GoodTable(parse, content)
    ensures Mirrors(parse, Turned(parse, v, content)) <==> DropsYoungest(parse, v.known, content)
  {
    hide Merged, Ordered, Faithful, DropsLast, LinesFrom;
    if content.Some? && content.value != [] {
      if content == v.last {
        NothingDropped(v.known);
      } else {
        MergeExactly(parse, v.known, LinesFrom(content.value, 0));
      }
    }
  }

  /** After every turn of the run the list holds the last table that could be read and was not empty. */
  ghost predicate AlwaysHolds(parse: Parser, v: View, contents: seq<Option<bytes>>) {
    forall n :: 0 <= n <= |contents| ==> Holds(parse, Run(parse, v, contents[..n]).known, LastRead(v.last, contents[..n]))
  }

  /** The list holds the last table after every turn of the run. */
  predicate AlwaysMirrors(parse: Parser, v: View, contents: seq<Option<bytes>>)
    decreases |contents|
  {
    Mirrors(parse, v) && (contents == [] || AlwaysMirrors(parse, Turned(parse, v, contents[0]), contents[1..]))
  }

  lemma {:induction false} AlwaysMirrorsAll(parse: Parser, v: View, contents: seq<Option<bytes>>, n: nat)
    requires AlwaysMirrors(parse, v, contents) && n <= |contents|
    ensures Mirrors(parse, Run(parse, v, contents[..n]))
    decreases |contents|
  {
    hide Mirrors, Turned;
    if n > 0 {
      assert contents[..n][1..] == contents[1..][..n - 1];
      AlwaysMirrorsAll(parse, Turned(parse, v, contents[0]), contents[1..], n - 1);
    }
  }

  lemma {:induction false} MirrorsMissing(parse: Parser, v: View, contents: seq<Option<bytes>>) returns (n: nat)
    requires !AlwaysMirrors(parse, v, contents)
    ensures n <= |contents| && !Mirrors(parse, Run(parse, v, contents[..n]))
    decreases |contents|
  {
    hide Mirrors, Turned;
    if !Mirrors(parse, v) {
      n := 0;
    } else {
      n := MirrorsMissing(parse, Turned(parse, v, contents[0]), contents[1..]);
      n := n + 1;
      assert contents[..n][1..] == contents[1..][..n - 1];
    }
  }

  lemma {:induction false} MirrorsOrderly(parse: Parser, v: View, contents: seq<Option<bytes>>)
    requires Tracked(parse, v) && Mirrors(parse, v) && GoodTables(parse, contents)
    ensures AlwaysMirrors(parse, v, contents) <==> Orderly(parse, v, contents)
    decreases |contents|
  {
    hide Tracked, Mirrors, Turned, GoodTable, DropsYoungest;
    if contents != [] {
      TurnTracked(parse, v, contents[0]);
      TurnMirrors(parse, v, contents[0]);
      var v2 := Turned(parse, v, contents[0]);
      if Mirrors(parse, v2) {
        MirrorsOrderly(parse, v2, contents[1..]);
      } else {
        assert !AlwaysMirrors(parse, v2, contents[1..]);
      }
    }
  }

  /**
   From the empty list on, over every run of tables whose lines parse and are in order: after every turn the list
   holds the last table that could be read and was not empty, if and only if no such table drops any but the
   youngest mounts.
   */
  lemma {:induction false} RunMirrors(parse: Parser, contents: seq<Option<bytes>>)
    requires GoodTables(parse, contents)
    ensures AlwaysHolds(parse, View([], None, []), contents) <==> Orderly(parse, View([], None, []), contents)
  {
    hide Orderly, AlwaysMirrors, Run, GoodTables, LastRead, Holds;
    var v := View([], None, []);
    StartTracked(parse);
    MirrorsOrderly(parse, v, contents);
    forall n | 0 <= n <= |contents| ensures Run(parse, v, contents[..n]).last == LastRead(v.last, contents[..n]) {
      RunReads(parse, v, contents[..n]);
    }
    if AlwaysMirrors(parse, v, contents) {
      forall n | 0 <= n <= |contents| ensures Mirrors(parse, Run(parse, v, contents[..n])) {
        AlwaysMirrorsAll(parse, v, contents, n);
      }
    } else {
      var n := MirrorsMissing(parse, v, contents);
      assert !Holds(parse, Run(parse, v, contents[..n]).known, LastRead(v.last, contents[..n]));
    }
  }

  lemma StartTracked(parse: Parser)
    ensures Tracked(parse, View([], None, [])) && Mirrors(parse, View([], None, []))
  {
    assert Ids([]) == {};
  }
}
