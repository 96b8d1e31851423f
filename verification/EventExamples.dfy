/** Two runs of the event queue in which a store does harm in the sense of EventLoss. */
module EventExamples {
  import opened Bytes
  import opened EventQueue
  import opened EventLoss

  lemma {:induction false} ExecMore(c: Config, s: State, run: seq<Action>, a: Action)
    requires Exec(c, s, run).Some?
    ensures Exec(c, s, run + [a]) == Do(c, Exec(c, s, run).value, a)
    decreases |run|
  {
    hide Do;
    if run == [] {
      assert [a][1..] == [];
    } else {
      assert (run + [a])[1..] == run[1..] + [a];
      ExecMore(c, Do(c, s, run[0]).value, run[1..], a);
    }
  }

  /** One more step of a run from the initial state. */
  lemma Next(c: Config, run: seq<Action>, s: State, a: Action) returns (run2: seq<Action>, s2: State)
    requires Exec(c, Initial(), run) == Some(s) && Do(c, s, a).Some?
    ensures s2 == Do(c, s, a).value && Exec(c, Initial(), run2) == Some(s2)
  {
    ExecMore(c, Initial(), run, a);
    run2, s2 := run + [a], Do(c, s, a).value;
  }

  lemma Nothing(c: Config) returns (run: seq<Action>, s: State)
    ensures Exec(c, Initial(), run) == Some(s) && s == Initial()
  {
    run, s := [], Initial();
  }

  /** A context without a signal callback, with a watch for input and one more. */
  predicate TwoWatches(c: Config, i: Watch) {
    !c.signal && |c.watches| == 2 && c.watches[0] == i && (i.Readable? || i.Pri?) && c.watches[1] != i
  }

  lemma Apart(a: set<Bit>, b: set<Bit>)
    requires a * b == {}
    ensures a - b == a
  {
    forall x | x in a ensures x !in b { assert x !in a * b; }
  }

  /** The loop takes a report that nothing is pending of. */
  lemma Taken(c: Config, run: seq<Action>, s: State, bits: set<Bit>) returns (run2: seq<Action>, s2: State)
    requires Exec(c, Initial(), run) == Some(s) && s.loop.Idle? && bits != {} && bits * s.mem.events == {}
    ensures Exec(c, Initial(), run2) == Some(s2)
    ensures s2 == s.(loop := Scan(0, 0), mem := s.mem.(events := s.mem.events + bits, waiting := s.mem.waiting + Reported(bits)))
  {
    hide Exec;
    assert forall j :: !Has({}, j);
    Apart(bits, s.mem.events);
    run2, s2 := Next(c, run, s, Report(bits));
    run2, s2 := Next(c, run2, s2, Loop);
    assert s2.mem.waiting == s.mem.waiting;
    run2, s2 := Next(c, run2, s2, Loop);
    run2, s2 := Next(c, run2, s2, Loop);
  }

  /** The loop takes a report of the first watch, among others, and goes to act on it. */
  lemma Marked(c: Config, i: Watch, run: seq<Action>, s: State, bits: set<Bit>) returns (run2: seq<Action>, s2: State)
    requires TwoWatches(c, i) && BitOf(i) in bits
    requires Exec(c, Initial(), run) == Some(s) && s.loop.Idle? && s.mem.events == {} && s.mem.holder.None?
    ensures Exec(c, Initial(), run2) == Some(s2)
    ensures s2 == s.(loop := Act(0, 0),
                     mem := s.mem.(events := bits, waiting := s.mem.waiting + Reported(bits), holder := Some(LOOP)))
  {
    hide Exec, Has;
    HasBit(i);
    run2, s2 := Taken(c, run, s, bits);
    run2, s2 := Next(c, run2, s2, Loop);
    run2, s2 := Next(c, run2, s2, Loop);
    run2, s2 := Next(c, run2, s2, Loop);
  }

  /** The first watch is reported, as far as the job for its worker. */
  lemma FirstReport(c: Config, i: Watch) returns (run: seq<Action>, s: State)
    requires TwoWatches(c, i)
    ensures Exec(c, Initial(), run) == Some(s)
    ensures s == State(Memory({}, {i}, {}, [i], None, None, 1, Reported({BitOf(i)})), Idle, map[])
  {
    hide Exec, Has;
    assert Value(i) == {BitOf(i)};
    run, s := Nothing(c);
    run, s := Marked(c, i, run, s, {BitOf(i)});
    run, s := Next(c, run, s, Loop);
    assert s.mem.events == {} && s.mem.list == [i] && s.loop == Unlock(0, 1);
    run, s := Next(c, run, s, Loop);
    run, s := Next(c, run, s, Loop);
    assert s.loop == Post(1);
    run, s := Next(c, run, s, Loop);
  }

  /** The worker begins the callback. */
  lemma CallbackBegun(c: Config, i: Watch) returns (run: seq<Action>, s: State)
    requires TwoWatches(c, i)
    ensures Exec(c, Initial(), run) == Some(s)
    ensures s == State(Memory({}, {i}, {i}, [i], Some(1), None, 0, Reported({BitOf(i)}) - {i}), Idle, map[1 := Running(i)])
  {
    hide Exec;
    run, s := FirstReport(c, i);
    run, s := Next(c, run, s, Begin(1));
    run, s := Next(c, run, s, Work(1));
    run, s := Next(c, run, s, Work(1));
    run, s := Next(c, run, s, Work(1));
    run, s := Next(c, run, s, Work(1));
    run, s := Next(c, run, s, Work(1));
  }

  /** During the callback its watch is reported once more, maybe with others; the loop goes on to the second watch. */
  lemma ReportedAgain(c: Config, i: Watch, bits: set<Bit>) returns (run: seq<Action>, s: State)
    requires TwoWatches(c, i) && BitOf(i) in bits
    ensures Exec(c, Initial(), run) == Some(s)
    ensures s == State(Memory(bits, {i}, {i}, [i], Some(1), None, 0, Reported({BitOf(i)}) - {i} + Reported(bits)),
                       Scan(1, 0), map[1 := Running(i)])
  {
    hide Exec, Has;
    run, s := CallbackBegun(c, i);
    run, s := Marked(c, i, run, s, bits);
    assert bits + Value(i) == bits;
    run, s := Next(c, run, s, Loop);
    run, s := Next(c, run, s, Loop);
  }

  /** The worker finds its watch reported again and is about to store the word without its bit. */
  lemma FoundAgain(c: Config, i: Watch, run: seq<Action>, s: State) returns (run2: seq<Action>, s2: State)
    requires Exec(c, Initial(), run) == Some(s) && s.mem.holder.None? && s.workers == map[1 := Running(i)]
    requires i in s.mem.rlist && BitOf(i) in s.mem.events && (i.Readable? || i.Pri?)
    ensures Exec(c, Initial(), run2) == Some(s2)
    ensures s2 == s.(mem := s.mem.(holder := Some(1)), workers := map[1 := StoreBit(i, s.mem.events)])
  {
    hide Exec, Has;
    HasBit(i);
    run2, s2 := Next(c, run, s, Work(1));
    run2, s2 := Next(c, run2, s2, Work(1));
    run2, s2 := Next(c, run2, s2, Work(1));
    run2, s2 := Next(c, run2, s2, Work(1));
  }

  /** A worker stands before its store, and the loop is back from its pass. */
  lemma BeforeStore(c: Config) returns (run: seq<Action>, s: State)
    requires c == Config([Pri, Readable], false)
    ensures Exec(c, Initial(), run) == Some(s)
    ensures s == State(Memory({PriIn}, {Pri}, {Pri}, [Pri], Some(1), Some(1), 0, Reported({PriIn}) - {Pri} + Reported({PriIn})),
                       Idle, map[1 := StoreBit(Pri, {PriIn})])
  {
    hide Exec, Has;
    HasBit(Readable);
    run, s := ReportedAgain(c, Pri, {PriIn});
    run, s := Next(c, run, s, Loop);
    run, s := Next(c, run, s, Loop);
    run, s := Next(c, run, s, Loop);
    run, s := Next(c, run, s, Loop);
    run, s := FoundAgain(c, Pri, run, s);
  }

  /**
   Input is reported between a worker's load and its store of the pending bits. The store wipes the bit
   out, and the watch is neither pending nor listed.
   */
  lemma TornReportIsLost() returns (run: seq<Action>)
    ensures Exec(Config([Pri, Readable], false), Initial(), run).Some?
    ensures
      var s := Exec(Config([Pri, Readable], false), Initial(), run).value;
      AtRest(s) && Lost(s, Readable) && Readable in s.mem.waiting && !Pending(s, Readable)
  {
    hide Exec, Has;
    var c, s := Config([Pri, Readable], false), Initial();
    HasBit(Readable);
    OneReported(Readable);
    run, s := BeforeStore(c);
    run, s := Taken(c, run, s, {In});
    run, s := Next(c, run, s, Work(1));
    assert s.mem.events == {};
    run, s := Next(c, run, s, Work(1));
    run, s := Next(c, run, s, Loop);
    run, s := Next(c, run, s, Loop);
  }

  /** The worker stores the word without its bit and runs the callback once more. */
  lemma CalledAgain(c: Config, i: Watch, run: seq<Action>, s: State) returns (run2: seq<Action>, s2: State)
    requires Exec(c, Initial(), run) == Some(s) && s.workers == map[1 := StoreBit(i, s.mem.events)]
    ensures Exec(c, Initial(), run2) == Some(s2)
    ensures s2 == s.(workers := map[1 := Running(i)],
                     mem := s.mem.(events := s.mem.events - Value(i), holder := None, waiting := s.mem.waiting - {i}))
  {
    hide Exec, Has, Value;
    run2, s2 := Next(c, run, s, Work(1));
    run2, s2 := Next(c, run2, s2, Work(1));
    run2, s2 := Next(c, run2, s2, Work(1));
  }

  /** It finds nothing reported again. */
  lemma FoundNothing(c: Config, i: Watch, run: seq<Action>, s: State) returns (run2: seq<Action>, s2: State)
    requires Exec(c, Initial(), run) == Some(s) && s.workers == map[1 := Running(i)] && s.mem.holder.None?
    requires i in s.mem.rlist && !Has(s.mem.events, i)
    ensures Exec(c, Initial(), run2) == Some(s2)
    ensures s2 == s.(workers := map[1 := Drop(i)], mem := s.mem.(holder := Some(1)))
  {
    hide Exec, Has;
    run2, s2 := Next(c, run, s, Work(1));
    run2, s2 := Next(c, run2, s2, Work(1));
    run2, s2 := Next(c, run2, s2, Work(1));
  }

  /** So it gives up. */
  lemma GivesUp(c: Config, i: Watch, run: seq<Action>, s: State) returns (run2: seq<Action>, s2: State)
    requires Exec(c, Initial(), run) == Some(s) && s.workers == map[1 := Running(i)] && s.mem.holder.None?
    requires s.mem.rlist == {i} && s.mem.list == [i] && !Has(s.mem.events, i)
    ensures Exec(c, Initial(), run2) == Some(s2)
    ensures s2 == s.(workers := map[], mem := s.mem.(rlist := {}, busy := s.mem.busy - {i}, list := []))
  {
    hide Exec, Has;
    run2, s2 := FoundNothing(c, i, run, s);
    run2, s2 := Next(c, run2, s2, Work(1));
    assert s2.mem.list == [] && s2.mem.rlist == {} && s2.workers == map[1 := Leave];
    run2, s2 := Next(c, run2, s2, Work(1));
  }

  /** The loop stands before its store for a writeable object, while the callback for input runs. */
  lemma BeforeClear(c: Config) returns (run: seq<Action>, s: State)
    requires c == Config([Readable, Writeable], false)
    ensures Exec(c, Initial(), run) == Some(s)
    ensures s == State(Memory({In, Out}, {Readable}, {Readable}, [Readable], Some(1), None, 0,
                              Reported({In}) - {Readable} + Reported({In, Out})),
                       StoreClear(1, 0, {In, Out}), map[1 := Running(Readable)])
  {
    hide Exec, Has;
    run, s := ReportedAgain(c, Readable, {In, Out});
    run, s := Next(c, run, s, Loop);
    HasOut(s.mem.events);
    run, s := Next(c, run, s, Loop);
    run, s := Next(c, run, s, Loop);
  }

  /**
   Input is answered by its callback while the loop is between its load and its store for a writeable
   object. The store revives the bit, with no worker, no job and nothing listed; from there on
   EventLoss.ReportsMasked says that reports of input alone change nothing.
   */
  lemma RevivedBitStays() returns (run: seq<Action>)
    ensures Exec(Config([Readable, Writeable], false), Initial(), run).Some?
    ensures
      var s := Exec(Config([Readable, Writeable], false), Initial(), run).value;
      && AtRest(s) && Lost(s, Readable) && Pending(s, Readable)
      && s.mem.list == [] && s.mem.jobs == 0 && s.workers == map[]
  {
    hide Exec, Has;
    var c, s := Config([Readable, Writeable], false), Initial();
    HasBit(Readable);
    run, s := BeforeClear(c);
    run, s := FoundAgain(c, Readable, run, s);
    run, s := CalledAgain(c, Readable, run, s);
    run, s := GivesUp(c, Readable, run, s);
    run, s := Next(c, run, s, Loop);
    assert s.mem.events == {In};
    run, s := Next(c, run, s, Loop);
    run, s := Next(c, run, s, Loop);
  }

  lemma HasOut(word: set<Bit>)
    requires Out in word
    ensures Has(word, Writeable)
  {
    assert Out in word * Value(Writeable);
  }
}
