/**
 The event queue of one watched object: the event loop thread lists reported watches, worker threads
 run their callbacks. A transition system with one step per access to shared data that another
 thread can get in between of; loading and storing the word of pending events are steps of their own
 where no lock keeps the other side out.
 */
module EventQueue {
  import opened Bytes
  import opened Chain

  type Thread = nat

  const LOOP: Thread := 0

  /** The events that can be watched for. */
  datatype Watch = Readable | Pri | Writeable | Error | Close

  /** The bits epoll reports. */
  datatype Bit = In | PriIn | Out | Err | Hup | RdHup

  function Value(i: Watch): set<Bit> {
    match i
    case Readable => {In}
    case Pri => {PriIn}
    case Writeable => {Out}
    case Error => {Err}
    case Close => {Hup, RdHup}
  }

  /** The watches in the order of their registration, and whether the context has a signal callback. */
  datatype Config = Config(watches: seq<Watch>, signal: bool) {
    predicate Valid() {
      Distinct(watches)
    }
  }

  /**
   events: the pending bits. rlist and busy: the watches with the status flags RLIST and PENDING. list:
   the reported events. thread: who processes them. holder: who has the REVENTS flag. jobs: calls of the
   worker handed to the thread pool. waiting, kept for the record only: the watches epoll has reported
   since their callback last began, whether the loop took the report or masked it.
   */
  datatype Memory = Memory(events: set<Bit>, rlist: set<Watch>, busy: set<Watch>, list: seq<Watch>,
                           thread: Option<Thread>, holder: Option<Thread>, jobs: nat, waiting: set<Watch>)

  /** The loop thread; k is a position among the watches, count the number of events queued. */
  datatype LoopPc =
    | Idle
    | Mask(report: set<Bit>)
    | LoadReport(added: set<Bit>)
    | StoreReport(added: set<Bit>, word: set<Bit>)
    | Scan(k: nat, count: nat)
    | Check(k: nat, count: nat)
    | LoadClear(k: nat, count: nat)
    | StoreClear(k: nat, count: nat, word: set<Bit>)
    | Lock(k: nat, count: nat)
    | Act(k: nat, count: nat)
    | Unlock(k: nat, count: nat)
    | Post(count: nat)

  /** A worker; i is the watch whose callback it runs. */
  datatype WorkPc =
    | Enter
    | Entered
    | Pick
    | Picked(i: Watch)
    | Start(i: Watch)
    | Running(i: Watch)
    | Return(i: Watch)
    | Recheck(i: Watch)
    | LoadBit(i: Watch)
    | StoreBit(i: Watch, word: set<Bit>)
    | Again(i: Watch)
    | Drop(i: Watch)
    | Leave

  datatype State = State(mem: Memory, loop: LoopPc, workers: map<Thread, WorkPc>)

  datatype LoopMoved = LoopMoved(mem: Memory, pc: LoopPc)

  datatype WorkMoved = WorkMoved(mem: Memory, rest: Option<WorkPc>)

  /** Puts a watch on the list of reported events and takes its bits. */
  function Listed(m: Memory, i: Watch): Memory {
    m.(rlist := m.rlist + {i}, list := m.list + [i], events := m.events - Value(i))
  }

  /** One of the bits of i is in the word. */
  predicate Has(word: set<Bit>, i: Watch) {
    word * Value(i) != {}
  }

  function Reported(added: set<Bit>): set<Watch> {
    set i: Watch | Has(added, i)
  }

  /** One turn of BEVENTLOOP_backend_start, with BEVENT_bevent_queue_events and the actions it calls. */
  function LoopMove(c: Config, m: Memory, p: LoopPc): Option<LoopMoved> {
    match p
    case Idle => None
    case Mask(report) =>
      Some(LoopMoved(m.(waiting := m.waiting + Reported(report * m.events)),
                     if report - m.events == {} then Idle else LoadReport(report - m.events)))
    case LoadReport(added) => Some(LoopMoved(m, StoreReport(added, m.events)))
    case StoreReport(added, word) =>
      Some(LoopMoved(m.(events := word + added, waiting := m.waiting + Reported(added)), Scan(0, 0)))
    case Scan(k, count) =>
      Some(LoopMoved(m, if k >= |c.watches| || m.events == {} then Post(count) else Check(k, count)))
    case Check(k, count) =>
      if k >= |c.watches| then None
      else if !Has(m.events, c.watches[k]) then Some(LoopMoved(m, Scan(k + 1, count)))
      else
        (match c.watches[k]
         case Writeable => Some(LoopMoved(m, LoadClear(k, count)))
         case Error => Some(LoopMoved(m, if c.signal then Scan(k + 1, count) else Lock(k, count)))
         case Close => Some(LoopMoved(m, if c.signal then Scan(k + 1, count) else Lock(k, count)))
         case _ => Some(LoopMoved(m, Lock(k, count))))
    case LoadClear(k, count) => Some(LoopMoved(m, StoreClear(k, count, m.events)))
    case StoreClear(k, count, word) => Some(LoopMoved(m.(events := word - Value(Writeable)), Scan(k + 1, count)))
    case Lock(k, count) =>
      if m.holder.Some? then None else Some(LoopMoved(m.(holder := Some(LOOP)), Act(k, count)))
    case Act(k, count) =>
      if k >= |c.watches| then None
      else
        var i := c.watches[k];
        if i.Error? || i.Close? then
          Some(LoopMoved(if m.list == [] then Listed(m, i) else m, Unlock(k, count + 1)))
        else if i in m.rlist then
          Some(LoopMoved(if c.signal then m else m.(events := m.events + Value(i)), Unlock(k, count)))
        else Some(LoopMoved(Listed(m, i), Unlock(k, count + 1)))
    case Unlock(k, count) => Some(LoopMoved(m.(holder := None), Scan(k + 1, count)))
    case Post(count) => Some(LoopMoved(if count > 0 then m.(jobs := m.jobs + 1) else m, Idle))
  }

  /** BEVENT_process_events_thread, run by thread w. The thread field is never reset. */
  function WorkMove(m: Memory, w: Thread, p: WorkPc): Option<WorkMoved> {
    match p
    case Enter => if m.holder.Some? then None else Some(WorkMoved(m.(holder := Some(w)), Some(Entered)))
    case Entered =>
      if m.thread.Some? && m.thread.value != w then Some(WorkMoved(m, Some(Leave)))
      else Some(WorkMoved(m.(thread := Some(w)), Some(Pick)))
    case Pick =>
      if m.list == [] then Some(WorkMoved(m, Some(Leave)))
      else Some(WorkMoved(m.(busy := m.busy + {m.list[0]}), Some(Picked(m.list[0]))))
    case Picked(i) => Some(WorkMoved(m.(holder := None), Some(Start(i))))
    case Start(i) => Some(WorkMoved(m.(waiting := m.waiting - {i}), Some(Running(i))))
    case Running(i) => Some(WorkMoved(m, Some(Return(i))))
    case Return(i) => if m.holder.Some? then None else Some(WorkMoved(m.(holder := Some(w)), Some(Recheck(i))))
    case Recheck(i) =>
      Some(WorkMoved(m, Some(if i !in m.rlist then Leave else if Has(m.events, i) then LoadBit(i) else Drop(i))))
    case LoadBit(i) => Some(WorkMoved(m, Some(StoreBit(i, m.events))))
    case StoreBit(i, word) => Some(WorkMoved(m.(events := word - Value(i)), Some(Again(i))))
    case Again(i) => Some(WorkMoved(m.(holder := None), Some(Start(i))))
    case Drop(i) =>
      var left := if i in m.list then Delete(m.list, i) else m.list;
      Some(WorkMoved(m.(rlist := m.rlist - {i}, busy := m.busy - {i}, list := left), Some(if left == [] then Leave else Pick)))
    case Leave => Some(WorkMoved(m.(holder := None), None))
  }

  /** epoll reports bits to the waiting loop; the loop goes on; a thread takes a job; a worker goes on. */
  datatype Action = Report(bits: set<Bit>) | Loop | Begin(w: Thread) | Work(w: Thread)

  function Do(c: Config, s: State, a: Action): Option<State> {
    match a
    case Report(bits) => if s.loop.Idle? then Some(s.(loop := Mask(bits))) else None
    case Loop =>
      (match LoopMove(c, s.mem, s.loop) case None => None case Some(v) => Some(s.(mem := v.mem, loop := v.pc)))
    case Begin(w) =>
      if s.mem.jobs == 0 || w == LOOP || w in s.workers then None
      else Some(s.(mem := s.mem.(jobs := s.mem.jobs - 1), workers := s.workers[w := Enter]))
    case Work(w) =>
      if w !in s.workers then None
      else match WorkMove(s.mem, w, s.workers[w])
        case None => None
        case Some(v) => Some(s.(mem := v.mem, workers := if v.rest.None? then s.workers - {w} else s.workers[w := v.rest.value]))
  }

  function Initial(): State {
    State(Memory({}, {}, {}, [], None, None, 0, {}), Idle, map[])
  }

  function Exec(c: Config, s: State, run: seq<Action>): Option<State>
    decreases |run|
  {
    if run == [] then Some(s)
    else match Do(c, s, run[0]) case None => None case Some(s2) => Exec(c, s2, run[1..])
  }

  // What every run keeps

  predicate LoopHolds(p: LoopPc) {
    p.Act? || p.Unlock?
  }

  predicate WorkHolds(p: WorkPc) {
    p.Entered? || p.Pick? || p.Picked? || p.Recheck? || p.LoadBit? || p.StoreBit? || p.Again? || p.Drop? || p.Leave?
  }

  /** The worker has been let in. */
  predicate Serves(p: WorkPc) {
    !(p.Enter? || p.Entered? || p.Leave?)
  }

  predicate HasWatch(p: WorkPc) {
    Serves(p) && !p.Pick?
  }

  predicate ListOk(m: Memory) {
    Distinct(m.list) && (forall i :: i in m.rlist <==> i in m.list) && m.busy <= m.rlist
  }

  predicate WorkerOk(m: Memory, w: Thread, p: WorkPc) {
    && w != LOOP
    && (WorkHolds(p) ==> m.holder == Some(w))
    && (Serves(p) ==> m.thread == Some(w))
    && (HasWatch(p) ==> p.i in m.list && p.i in m.busy)
  }

  predicate LoopOk(m: Memory, p: LoopPc) {
    LoopHolds(p) ==> m.holder == Some(LOOP)
  }

  ghost predicate Inv(s: State) {
    && ListOk(s.mem) && LoopOk(s.mem, s.loop)
    && forall w :: w in s.workers ==> WorkerOk(s.mem, w, s.workers[w])
  }

  lemma ListGrows(m: Memory, i: Watch)
    requires ListOk(m) && i !in m.list
    ensures ListOk(Listed(m, i)) && forall j :: j in m.list ==> j in Listed(m, i).list
  {}

  lemma LoopMoveKeeps(c: Config, s: State)
    requires Inv(s) && LoopMove(c, s.mem, s.loop).Some?
    ensures var v := LoopMove(c, s.mem, s.loop).value; Inv(s.(mem := v.mem, loop := v.pc))
  {
    hide Distinct, Value, Reported;
    var v := LoopMove(c, s.mem, s.loop).value;
    if s.loop.Act? {
      var i := c.watches[s.loop.k];
      if i !in s.mem.list { ListGrows(s.mem, i); }
    }
    forall w | w in s.workers ensures WorkerOk(v.mem, w, s.workers[w]) {
      assert WorkerOk(s.mem, w, s.workers[w]);
    }
  }

  lemma WatchDropped(m: Memory, i: Watch)
    requires ListOk(m) && i in m.list
    ensures
      var left := Delete(m.list, i);
      ListOk(m.(rlist := m.rlist - {i}, busy := m.busy - {i}, list := left)) && forall j :: j in left <==> j in m.list && j != i
  {
    hide Index, Distinct, Delete;
    forall j ensures j in Delete(m.list, i) <==> j in m.list && j != i { IndexDeleted(m.list, i, j); }
    IndexDeleted(m.list, i, i);
  }

  lemma WorkMoveKeeps(c: Config, s: State, w: Thread)
    requires Inv(s) && w in s.workers && WorkMove(s.mem, w, s.workers[w]).Some?
    ensures Inv(Do(c, s, Work(w)).value)
  {
    hide Distinct, Value, Delete;
    var p := s.workers[w];
    var v := WorkMove(s.mem, w, p).value;
    var s2 := Do(c, s, Work(w)).value;
    assert WorkerOk(s.mem, w, p);
    if p.Drop? { WatchDropped(s.mem, p.i); }
    forall u | u in s2.workers ensures WorkerOk(s2.mem, u, s2.workers[u]) {
      if u != w { assert WorkerOk(s.mem, u, s.workers[u]); }
    }
  }

  lemma DoKeeps(c: Config, s: State, a: Action)
    requires Inv(s) && Do(c, s, a).Some?
    ensures Inv(Do(c, s, a).value)
  {
    hide ListOk, LoopMove, WorkMove;
    match a
    case Loop => LoopMoveKeeps(c, s);
    case Work(w) => WorkMoveKeeps(c, s, w);
    case Report(_) =>
    case Begin(w) => BeginKeeps(c, s, w);
  }

  lemma BeginKeeps(c: Config, s: State, w: Thread)
    requires Inv(s) && Do(c, s, Begin(w)).Some?
    ensures Inv(Do(c, s, Begin(w)).value)
  {
    var s2 := Do(c, s, Begin(w)).value;
    forall u | u in s2.workers ensures WorkerOk(s2.mem, u, s2.workers[u]) {
      if u != w { assert WorkerOk(s.mem, u, s.workers[u]); }
    }
  }

  lemma {:induction false} ExecKeeps(c: Config, s: State, run: seq<Action>)
    requires Inv(s) && Exec(c, s, run).Some?
    ensures Inv(Exec(c, s, run).value)
    decreases |run|
  {
    hide Inv, Do;
    if run != [] {
      DoKeeps(c, s, run[0]);
      ExecKeeps(c, Do(c, s, run[0]).value, run[1..]);
    }
  }

  /**
   In every run, torn updates included: a watch has the RLIST flag exactly when it is on the list, at most
   once; a callback runs only for a listed watch marked PENDING, as only listed ones are; and no two
   callbacks of the object overlap.
   */
  lemma {:induction false} QueueSafety(c: Config, run: seq<Action>)
    requires Exec(c, Initial(), run).Some?
    ensures
      var s := Exec(c, Initial(), run).value;
      && Distinct(s.mem.list) && (forall i :: i in s.mem.rlist <==> i in s.mem.list)
      && (forall w :: w in s.workers && s.workers[w].Running? ==> s.workers[w].i in s.mem.list && s.workers[w].i in s.mem.busy)
      && s.mem.busy <= s.mem.rlist
      && (forall w, u :: w in s.workers && u in s.workers && s.workers[w].Running? && s.workers[u].Running? ==> w == u)
  {
    assert Inv(Initial());
    ExecKeeps(c, Initial(), run);
    hide Exec;
    var s := Exec(c, Initial(), run).value;
    assert forall w :: w in s.workers ==> WorkerOk(s.mem, w, s.workers[w]);
  }
}
