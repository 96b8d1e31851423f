/**
 What one report comes to when nobody interferes: which watch the loop lists, whether it asks for a
 worker, and that this worker runs the callbacks of everything listed.
 */
module EventAlone {
  import opened Bytes
  import opened Chain
  import opened EventQueue

  /** n steps of the loop. */
  function Loops(c: Config, s: State, n: nat): Option<State>
    decreases n
  {
    if n == 0 then Some(s)
    else match Do(c, s, Loop) case None => None case Some(s2) => Loops(c, s2, n - 1)
  }

  lemma {:induction false} LoopsOn(c: Config, s: State, n: nat, s2: State, m: nat)
    requires Loops(c, s, n) == Some(s2)
    ensures Loops(c, s, n + m) == Loops(c, s2, m)
    decreases n
  {
    hide Do;
    if n > 0 { LoopsOn(c, Do(c, s, Loop).value, n - 1, s2, m); }
  }

  /** One more step. */
  lemma {:induction false} NextLoop(c: Config, s: State, n: nat, s2: State) returns (s3: State)
    requires Loops(c, s, n) == Some(s2) && Do(c, s2, Loop).Some?
    ensures s3 == Do(c, s2, Loop).value && Loops(c, s, n + 1) == Some(s3)
  {
    hide Do;
    LoopsOn(c, s, n, s2, 1);
    s3 := Do(c, s2, Loop).value;
    assert Loops(c, s3, 0) == Some(s3);
  }

  /** Nothing is pending, the loop waits, and nobody has the lock. */
  predicate Waits(s: State) {
    s.loop.Idle? && s.mem.holder.None? && s.mem.events == {}
  }

  /** Only bits of i. */
  predicate Only(report: set<Bit>, i: Watch) {
    report != {} && report <= Value(i)
  }

  lemma {:induction false} OnlyHas(report: set<Bit>, i: Watch)
    requires Only(report, i)
    ensures forall j :: Has(report, j) <==> j == i
    ensures Reported(report) == {i}
    ensures report != {} && report - Value(i) == {} && (|Value(i)| == 1 ==> report == Value(i))
  {
    var bit :| bit in report;
    forall j ensures Has(report, j) <==> j == i {
      if j == i { assert bit in report * Value(i); }
      else { assert Value(i) * Value(j) == {}; assert report * Value(j) <= Value(i) * Value(j); }
    }
    if |Value(i)| == 1 { OneBit(report, Value(i)); }
  }

  lemma OneBit(a: set<Bit>, b: set<Bit>)
    requires a != {} && a <= b && |b| == 1
    ensures a == b
  {
    var x :| x in a;
    assert |b - {x}| == 0;
  }

  /** The watch is listed, and the job for its worker posted. */
  predicate ListsAndPosts(m: Memory, i: Watch, m2: Memory) {
    m2 == m.(list := m.list + [i], rlist := m.rlist + {i}, jobs := m.jobs + 1, waiting := m.waiting + {i})
  }

  /** Nothing is listed; the bits stay pending, as many jobs as said are posted. */
  predicate LeavesPending(m: Memory, i: Watch, report: set<Bit>, jobs: nat, m2: Memory) {
    m2 == m.(events := report, jobs := m.jobs + jobs, waiting := m.waiting + {i})
  }

  /**
   What becomes of a report of i. Input is listed, unless it is already. An error or hang-up is listed if nothing
   else is, and asks for a worker in any case, but with a signal callback it is left to that. A report that
   the object is writeable is taken and lists nothing.
   */
  predicate Answered(c: Config, m: Memory, i: Watch, report: set<Bit>, m2: Memory) {
    match i
    case Writeable => m2 == m.(waiting := m.waiting + {i})
    case Error => AnsweredOnce(c, m, i, report, m2)
    case Close => AnsweredOnce(c, m, i, report, m2)
    case _ => if i in m.list then LeavesPending(m, i, report, 0, m2) else ListsAndPosts(m, i, m2)
  }

  predicate AnsweredOnce(c: Config, m: Memory, i: Watch, report: set<Bit>, m2: Memory) {
    if c.signal then LeavesPending(m, i, report, 0, m2)
    else if m.list == [] then ListsAndPosts(m, i, m2)
    else LeavesPending(m, i, report, 1, m2)
  }

  /** The loop takes a report that nothing is pending of. */
  lemma {:induction false} Taken(c: Config, s: State, i: Watch, report: set<Bit>) returns (s2: State)
    requires Waits(s) && Only(report, i)
    ensures s2 == s.(loop := Scan(0, 0), mem := s.mem.(events := report, waiting := s.mem.waiting + {i}))
    ensures Loops(c, s.(loop := Mask(report)), 3) == Some(s2)
  {
    hide Loops, Has;
    OnlyHas(report, i);
    var s0 := s.(loop := Mask(report));
    assert Loops(c, s0, 0) == Some(s0) by { Start(c, s0); }
    assert report - s.mem.events == report && report * s.mem.events == {} && {} + report == report;
    assert Reported({}) == {} by { NothingReported(); }
    s2 := NextLoop(c, s0, 0, s0);
    s2 := NextLoop(c, s0, 1, s2);
    s2 := NextLoop(c, s0, 2, s2);
  }

  lemma {:induction false} Start(c: Config, s: State)
    ensures Loops(c, s, 0) == Some(s)
  {}

  lemma NothingReported()
    ensures Reported({}) == {}
  {}

  /** Watches that are not reported are passed by. */
  lemma {:induction false} PassedBy(c: Config, s: State, k: nat, count: nat, j: nat) returns (n: nat)
    requires s.loop == Scan(k, count) && k <= j <= |c.watches| && s.mem.events != {}
    requires forall x :: k <= x < j ==> !Has(s.mem.events, c.watches[x])
    ensures Loops(c, s, n) == Some(s.(loop := Scan(j, count)))
    decreases j - k
  {
    n := 0;
    if k < j {
      hide Loops, Has;
      Start(c, s);
      var s2 := NextLoop(c, s, 0, s);
      s2 := NextLoop(c, s, 1, s2);
      n := PassedBy(c, s2, k + 1, count, j);
      LoopsOn(c, s, 2, s2, n);
      n := n + 2;
    }
  }

  /** Input, an error or a hang-up is acted on under the lock. */
  lemma {:induction false} ActedOn(c: Config, s: State, k: nat) returns (s2: State)
    requires s.loop == Scan(k, 0) && k < |c.watches| && s.mem.holder.None? && Has(s.mem.events, c.watches[k])
    requires var i := c.watches[k]; !i.Writeable? && (i.Error? || i.Close? ==> !c.signal)
    ensures Loops(c, s, 3) == Some(s2) && s2 == s.(loop := Act(k, 0), mem := s.mem.(holder := Some(LOOP)))
  {
    hide Loops, Has;
    NotNothing(s.mem.events, c.watches[k]);
    Start(c, s);
    s2 := NextLoop(c, s, 0, s);
    s2 := NextLoop(c, s, 1, s2);
    s2 := NextLoop(c, s, 2, s2);
  }

  lemma NotNothing(events: set<Bit>, i: Watch)
    requires Has(events, i)
    ensures events != {}
  {}

  /** The turn of the watch reported. */
  lemma {:induction false} TurnTaken(c: Config, s: State, k: nat) returns (n: nat, s2: State, count: nat)
    requires s.loop == Scan(k, 0) && k < |c.watches| && s.mem.holder.None? && ListOk(s.mem)
    requires Only(s.mem.events, c.watches[k])
    ensures Loops(c, s, n) == Some(s2) && s2 == s.(loop := Scan(k + 1, count), mem := s2.mem)
    ensures s2.mem.events == {} || s2.mem.events == s.mem.events
    ensures var m, i, report := s.mem.(events := {}), c.watches[k], s.mem.events;
      Answered(c, m, i, report, s2.mem.(jobs := s2.mem.jobs + (if count > 0 then 1 else 0), waiting := m.waiting + {i}))
    ensures s2.mem.jobs == s.mem.jobs && s2.mem.waiting == s.mem.waiting
  {
    hide Loops, Has, Distinct, Value;
    var i, report := c.watches[k], s.mem.events;
    OnlyHas(report, i);
    OneBits();
    if i.Writeable? {
      Start(c, s);
      s2 := NextLoop(c, s, 0, s);
      s2 := NextLoop(c, s, 1, s2);
      s2 := NextLoop(c, s, 2, s2);
      s2 := NextLoop(c, s, 3, s2);
      n, count := 4, 0;
    } else if (i.Error? || i.Close?) && c.signal {
      Start(c, s);
      s2 := NextLoop(c, s, 0, s);
      s2 := NextLoop(c, s, 1, s2);
      n, count := 2, 0;
    } else {
      s2 := ActedOn(c, s, k);
      s2 := NextLoop(c, s, 3, s2);
      count := s2.loop.count;
      s2 := NextLoop(c, s, 4, s2);
      n := 5;
      assert report + report == report;
    }
  }

  lemma OneBits()
    ensures forall i: Watch :: !i.Close? ==> |Value(i)| == 1
  {}

  /** The rest of the pass, and the job. */
  lemma {:induction false} PassEnds(c: Config, s: State, k: nat, count: nat) returns (n: nat)
    requires s.loop == Scan(k, count) && k <= |c.watches|
    requires forall x :: k <= x < |c.watches| ==> !Has(s.mem.events, c.watches[x])
    ensures Loops(c, s, n) ==
      Some(s.(loop := Idle, mem := s.mem.(jobs := s.mem.jobs + if count > 0 then 1 else 0)))
  {
    hide Loops, Has;
    n := 0;
    Start(c, s);
    var s2 := s;
    if s.mem.events != {} {
      n := PassedBy(c, s, k, count, |c.watches|);
      s2 := s.(loop := Scan(|c.watches|, count));
    }
    s2 := NextLoop(c, s, n, s2);
    s2 := NextLoop(c, s, n + 1, s2);
    n := n + 2;
  }

  lemma HasSome(events: set<Bit>, report: set<Bit>, j: Watch)
    requires (events == {} || events == report) && !Has(report, j)
    ensures !Has(events, j)
  {}

  /**
   A report of one registered watch, with nothing pending and the lock free, and then the loop alone: it
   waits again, having answered the report.
   */
  lemma {:induction false} ReportAlone(c: Config, s: State, i: Watch, report: set<Bit>) returns (n: nat, m2: Memory)
    requires c.Valid() && i in c.watches && Inv(s) && Waits(s) && Only(report, i)
    ensures Do(c, s, Report(report)) == Some(s.(loop := Mask(report)))
    ensures Loops(c, s.(loop := Mask(report)), n) == Some(s.(mem := m2)) && Answered(c, s.mem, i, report, m2)
  {
    hide Loops, Has, Answered, Distinct, Only, Index, Do;
    Accepted(c, s, report);
    OnlyHas(report, i);
    var k := Index(c.watches, i);
    var s0 := s.(loop := Mask(report));
    var s1 := Taken(c, s, i, report);
    forall x | 0 <= x < |c.watches| && x != k ensures !Has(report, c.watches[x]) { IndexAt(c.watches, x); }
    var a := PassedBy(c, s1, 0, 0, k);
    LoopsOn(c, s0, 3, s1, a);
    var s2 := s1.(loop := Scan(k, 0));
    var b, s3, count := TurnTaken(c, s2, k);
    LoopsOn(c, s0, 3 + a, s2, b);
    forall x | k + 1 <= x < |c.watches| ensures !Has(s3.mem.events, c.watches[x]) {
      HasSome(s3.mem.events, report, c.watches[x]);
    }
    var d := PassEnds(c, s3, k + 1, count);
    LoopsOn(c, s0, 3 + a + b, s3, d);
    n := 3 + a + b + d;
    m2 := s3.mem.(jobs := s3.mem.jobs + if count > 0 then 1 else 0);
    AnsweredAnyway(c, s.mem, s3.mem.waiting, i, report, m2);
  }

  lemma AnsweredAnyway(c: Config, m: Memory, waiting: set<Watch>, i: Watch, report: set<Bit>, m2: Memory)
    requires m.events == {} && waiting == m.waiting + {i} && m2.waiting == waiting
    requires Answered(c, m.(waiting := waiting), i, report, m2.(waiting := waiting + {i}))
    ensures Answered(c, m, i, report, m2)
  {
    assert waiting + {i} == waiting;
  }

  lemma Accepted(c: Config, s: State, report: set<Bit>)
    requires s.loop.Idle?
    ensures Do(c, s, Report(report)) == Some(s.(loop := Mask(report)))
  {}

  // The worker

  /** n steps of worker w. */
  function Works(c: Config, s: State, w: Thread, n: nat): Option<State>
    decreases n
  {
    if n == 0 then Some(s)
    else match Do(c, s, Work(w)) case None => None case Some(s2) => Works(c, s2, w, n - 1)
  }

  lemma {:induction false} WorksOn(c: Config, s: State, w: Thread, n: nat, s2: State, m: nat)
    requires Works(c, s, w, n) == Some(s2)
    ensures Works(c, s, w, n + m) == Works(c, s2, w, m)
    decreases n
  {
    hide Do;
    if n > 0 { WorksOn(c, Do(c, s, Work(w)).value, w, n - 1, s2, m); }
  }

  lemma {:induction false} NextWork(c: Config, s: State, w: Thread, n: nat, s2: State) returns (s3: State)
    requires Works(c, s, w, n) == Some(s2) && Do(c, s2, Work(w)).Some?
    ensures s3 == Do(c, s2, Work(w)).value && Works(c, s, w, n + 1) == Some(s3)
  {
    hide Do;
    WorksOn(c, s, w, n, s2, 1);
    s3 := Do(c, s2, Work(w)).value;
    assert Works(c, s3, w, 0) == Some(s3);
  }

  lemma {:induction false} StartWork(c: Config, s: State, w: Thread)
    ensures Works(c, s, w, 0) == Some(s)
  {}

  /** A worker can begin on a job: it is another thread than the loop, and none has served the object before, or it has. */
  predicate CanServe(s: State, w: Thread) {
    s.mem.jobs > 0 && w != LOOP && w !in s.workers && (s.mem.thread.None? || s.mem.thread == Some(w))
  }

  /** The callback of the first listed watch begins, by worker w. */
  predicate CallsFirst(s: State, w: Thread, m: Memory, workers: map<Thread, WorkPc>) {
    && s.mem.list != [] && m.list != [] && s.workers == workers[w := Running(s.mem.list[0])]
    && s.mem == m.(thread := Some(w), busy := m.busy + {m.list[0]}, waiting := m.waiting - {m.list[0]}, holder := None)
  }

  /** A worker before the list goes on to the callback of what is first. */
  lemma {:induction false} Picks(c: Config, s: State, w: Thread) returns (s2: State)
    requires w in s.workers && s.workers[w] == Pick && s.mem.thread == Some(w) && s.mem.list != []
    ensures Works(c, s, w, 3) == Some(s2) && CallsFirst(s2, w, s.mem, s.workers) && s2.loop == s.loop
  {
    hide Works;
    StartWork(c, s, w);
    s2 := NextWork(c, s, w, 0, s);
    s2 := NextWork(c, s, w, 1, s2);
    s2 := NextWork(c, s, w, 2, s2);
  }

  /** A worker begun on a job runs the callback of the first watch listed. */
  lemma {:induction false} JobRunsCallback(c: Config, s: State, w: Thread) returns (s2: State)
    requires CanServe(s, w) && s.mem.holder.None? && s.mem.list != []
    ensures Do(c, s, Begin(w)).Some? && Works(c, Do(c, s, Begin(w)).value, w, 5) == Some(s2)
    ensures CallsFirst(s2, w, s.mem.(jobs := s.mem.jobs - 1), s.workers) && s2.loop == s.loop
  {
    hide Works;
    var s0 := Do(c, s, Begin(w)).value;
    StartWork(c, s0, w);
    var s1 := NextWork(c, s0, w, 0, s0);
    s1 := NextWork(c, s0, w, 1, s1);
    s2 := Picks(c, s1, w);
    WorksOn(c, s0, w, 2, s1, 3);
  }

  /** A callback that returns with its watch not reported again is done with. */
  lemma {:induction false} CallbackDone(c: Config, s: State, w: Thread, i: Watch) returns (s2: State)
    requires w in s.workers && s.workers[w] == Running(i) && i in s.mem.rlist
    requires s.mem.holder.None? && s.mem.events == {}
    ensures Works(c, s, w, 3) == Some(s2)
    ensures s2 == s.(mem := s.mem.(holder := Some(w)), workers := s.workers[w := Drop(i)])
  {
    hide Works;
    assert !Has(s.mem.events, i);
    StartWork(c, s, w);
    s2 := NextWork(c, s, w, 0, s);
    s2 := NextWork(c, s, w, 1, s2);
    s2 := NextWork(c, s, w, 2, s2);
  }

  lemma FirstListed(s: State, w: Thread)
    requires Inv(s) && w in s.workers && s.mem.list != [] && s.workers[w] == Running(s.mem.list[0])
    ensures s.mem.list[0] in s.mem.rlist && s.mem.thread == Some(w)
  {
    assert WorkerOk(s.mem, w, s.workers[w]);
  }

  /** It makes room for the next, or lets the worker go. */
  lemma {:induction false} CallbackReturns(c: Config, s: State, w: Thread) returns (n: nat, s2: State)
    requires Inv(s) && w in s.workers && s.mem.list != [] && s.workers[w] == Running(s.mem.list[0])
    requires s.mem.holder.None? && s.mem.events == {}
    ensures Works(c, s, w, n) == Some(s2) && s2.loop == s.loop
    ensures var i := s.mem.list[0];
      var m := s.mem.(list := s.mem.list[1..], rlist := s.mem.rlist - {i}, busy := s.mem.busy - {i});
      if m.list == [] then s2.mem == m && s2.workers == s.workers - {w}
      else s2.mem == m.(holder := Some(w)) && s2.workers == s.workers[w := Pick] && m.thread == Some(w)
  {
    hide Works, Inv, Delete;
    var i := s.mem.list[0];
    FirstListed(s, w);
    FirstDeleted(s.mem.list);
    s2 := CallbackDone(c, s, w, i);
    s2 := NextWork(c, s, w, 3, s2);
    n := 4;
    if s.mem.list[1..] == [] {
      s2 := NextWork(c, s, w, 4, s2);
      n := 5;
    }
  }

  lemma FirstDeleted(c: seq<Watch>)
    requires c != []
    ensures Delete(c, c[0]) == c[1..]
  {}

  lemma {:induction false} WorksKeep(c: Config, s: State, w: Thread, n: nat)
    requires Inv(s) && Works(c, s, w, n).Some?
    ensures Inv(Works(c, s, w, n).value)
    decreases n
  {
    hide Inv, Do;
    if n > 0 {
      DoKeeps(c, s, Work(w));
      WorksKeep(c, Do(c, s, Work(w)).value, w, n - 1);
    }
  }

  /** With nothing reported meanwhile, the worker comes to the callback of every watch listed, in their order. */
  lemma {:induction false} AllCalled(c: Config, s: State, w: Thread, k: nat) returns (n: nat, s2: State)
    requires Inv(s) && w in s.workers && k < |s.mem.list| && s.workers[w] == Running(s.mem.list[0])
    requires s.mem.holder.None? && s.mem.events == {}
    ensures Works(c, s, w, n) == Some(s2) && Inv(s2) && w in s2.workers && s2.workers[w] == Running(s.mem.list[k])
    ensures s2.mem.list == s.mem.list[k..] && s2.mem.holder.None? && s2.mem.events == {}
    decreases k
  {
    hide Works, Inv;
    if k == 0 {
      n, s2 := 0, s;
      StartWork(c, s, w);
    } else {
      var a, s1 := CallbackReturns(c, s, w);
      WorksKeep(c, s, w, a);
      var s3 := Picks(c, s1, w);
      WorksKeep(c, s1, w, 3);
      var b;
      b, s2 := AllCalled(c, s3, w, k - 1);
      WorksOn(c, s, w, a, s1, 3);
      WorksOn(c, s, w, a + 3, s3, b);
      n := a + 3 + b;
      assert s.mem.list[1..][k - 1] == s.mem.list[k] && s.mem.list[1..][k - 1..] == s.mem.list[k..];
    }
  }

  /** On its own the worker comes to run the callback of i. */
  ghost predicate Calls(c: Config, s: State, w: Thread, i: Watch) {
    exists n: nat :: CallsAt(c, s, w, i, n)
  }

  predicate CallsAt(c: Config, s: State, w: Thread, i: Watch, n: nat) {
    match Works(c, s, w, n)
    case None => false
    case Some(s2) => w in s2.workers && s2.workers[w] == Running(i)
  }

  lemma {:induction false} CallsAfter(c: Config, s: State, w: Thread, n: nat, s2: State)
    requires Works(c, s, w, n) == Some(s2) && w in s2.workers && s2.workers[w].Running?
    ensures Calls(c, s, w, s2.workers[w].i)
  {
    assert CallsAt(c, s, w, s2.workers[w].i, n);
  }

  /**
   A job is done: the worker begun on it runs the callbacks of all watches listed, one after the other in the
   order of the list, and leaves the list empty, if nothing is reported meanwhile.
   */
  lemma {:induction false} JobServesAll(c: Config, s: State, w: Thread) returns (n: nat, s2: State)
    requires Inv(s) && CanServe(s, w) && Waits(s) && s.mem.list != []
    ensures Do(c, s, Begin(w)).Some?
    ensures forall k :: 0 <= k < |s.mem.list| ==> Calls(c, Do(c, s, Begin(w)).value, w, s.mem.list[k])
    ensures Works(c, Do(c, s, Begin(w)).value, w, n) == Some(s2)
    ensures s2.mem.list == [] && s2.mem.jobs == s.mem.jobs - 1 && s2.mem.holder.None? && w !in s2.workers
  {
    hide Works, Inv;
    var s0 := Do(c, s, Begin(w)).value;
    var s1 := JobRunsCallback(c, s, w);
    DoKeeps(c, s, Begin(w));
    WorksKeep(c, s0, w, 5);
    forall k | 0 <= k < |s.mem.list|
      ensures Calls(c, s0, w, s.mem.list[k])
    {
      var a, s3 := AllCalled(c, s1, w, k);
      WorksOn(c, s0, w, 5, s1, a);
      CallsAfter(c, s0, w, 5 + a, s3);
    }
    var last := |s.mem.list| - 1;
    var a, s3 := AllCalled(c, s1, w, last);
    WorksOn(c, s0, w, 5, s1, a);
    var b;
    b, s2 := CallbackReturns(c, s3, w);
    WorksOn(c, s0, w, 5 + a, s3, b);
    WorksOn(c, s1, w, a, s3, b);
    n := 5 + a + b;
    JobsKept(c, s1, w, a + b, s2);
  }

  lemma {:induction false} JobsKept(c: Config, s: State, w: Thread, n: nat, s2: State)
    requires Works(c, s, w, n) == Some(s2)
    ensures s2.mem.jobs == s.mem.jobs
    decreases n
  {
    if n > 0 { JobsKept(c, Do(c, s, Work(w)).value, w, n - 1, s2); }
  }

  /**
   The thread field is never reset: once a worker has served the object, one in any other thread takes its job and
   leaves without looking at the list.
   */
  lemma {:induction false} OtherThreadLeaves(c: Config, s: State, w: Thread) returns (s2: State)
    requires s.mem.jobs > 0 && w != LOOP && w !in s.workers && s.mem.holder.None?
    requires s.mem.thread.Some? && s.mem.thread != Some(w)
    ensures Do(c, s, Begin(w)).Some? && Works(c, Do(c, s, Begin(w)).value, w, 3) == Some(s2)
    ensures s2 == s.(mem := s.mem.(jobs := s.mem.jobs - 1))
  {
    hide Works;
    var s0 := Do(c, s, Begin(w)).value;
    StartWork(c, s0, w);
    s2 := NextWork(c, s0, w, 0, s0);
    s2 := NextWork(c, s0, w, 1, s2);
    s2 := NextWork(c, s0, w, 2, s2);
  }
}
