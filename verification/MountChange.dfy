/**
 Who reads the mount table: any number of threads call MOUNTINFO_read_mount_table when the table has
 changed, one of them reads, the others leave word that it has to read again. A transition system
 with one step per change of the shared fields.
 */
module MountChange {
  import opened Bytes

  type Thread = nat

  /** Where a call stands. From Claim to Clear it is the reader. */
  datatype Pc =
    | Enter | Test | Mark | LeaveMarked
    | Claim | Claimed | Read | Reading | Finish | Check | Again | Clear
    | LeaveCleared

  /**
   holder: who has the THREAD flag; thread and changed: the field and the CHANGED bit it guards. For the
   record only: reader, the thread that set the field, and news, the threads whose last call came after
   the last read began.
   */
  datatype Memory = Memory(holder: Option<Thread>, thread: bool, changed: bool, reader: Option<Thread>, news: set<Thread>)

  datatype State = State(mem: Memory, calls: map<Thread, Pc>)

  datatype Moved = Moved(mem: Memory, rest: Option<Pc>)

  function Move(m: Memory, t: Thread, p: Pc): Option<Moved> {
    match p
    case Enter => if m.holder.Some? then None else Some(Moved(m.(holder := Some(t)), Some(Test)))
    case Test => Some(Moved(m, Some(if m.thread then Mark else Claim)))
    case Mark => Some(Moved(m.(changed := true), Some(LeaveMarked)))
    case LeaveMarked => Some(Moved(m.(holder := None), None))
    case Claim => Some(Moved(m.(thread := true, reader := Some(t)), Some(Claimed)))
    case Claimed => Some(Moved(m.(holder := None), Some(Read)))
    case Read => Some(Moved(m.(news := {}), Some(Reading)))
    case Reading => Some(Moved(m, Some(Finish)))
    case Finish => if m.holder.Some? then None else Some(Moved(m.(holder := Some(t)), Some(Check)))
    case Check => Some(Moved(if m.changed then m.(changed := false) else m, Some(if m.changed then Again else Clear)))
    case Again => Some(Moved(m.(holder := None), Some(Read)))
    case Clear => Some(Moved(m.(thread := false, reader := None), Some(LeaveCleared)))
    case LeaveCleared => Some(Moved(m.(holder := None), None))
  }

  /** A thread calls because the table has changed; a call goes on. */
  datatype Action = Call(t: Thread) | Step(t: Thread)

  function Do(s: State, a: Action): Option<State> {
    match a
    case Call(t) =>
      if t in s.calls then None
      else Some(State(s.mem.(news := s.mem.news + {t}), s.calls[t := Enter]))
    case Step(t) =>
      if t !in s.calls then None
      else match Move(s.mem, t, s.calls[t])
        case None => None
        case Some(v) => Some(State(v.mem, if v.rest.None? then s.calls - {t} else s.calls[t := v.rest.value]))
  }

  function Initial(): State {
    State(Memory(None, false, false, None, {}), map[])
  }

  function Exec(s: State, run: seq<Action>): Option<State>
    decreases |run|
  {
    if run == [] then Some(s)
    else match Do(s, run[0]) case None => None case Some(s2) => Exec(s2, run[1..])
  }

  predicate Holds(p: Pc) {
    !(p.Enter? || p.Read? || p.Reading? || p.Finish?)
  }

  predicate IsReader(p: Pc) {
    p.Claimed? || p.Read? || p.Reading? || p.Finish? || p.Check? || p.Again? || p.Clear?
  }

  /** On its way in: its notification has not been dealt with yet. */
  predicate Entering(p: Pc) {
    p.Enter? || p.Test? || p.Mark? || p.Claim?
  }

  /** The reader will begin another read before it clears the thread field. */
  predicate WillRead(s: State) {
    && s.mem.reader.Some? && s.mem.reader.value in s.calls
    && var p := s.calls[s.mem.reader.value];
       IsReader(p) && (p.Claimed? || p.Read? || p.Again? || (s.mem.changed && !p.Clear?))
  }

  predicate CallOk(m: Memory, t: Thread, p: Pc) {
    && (Holds(p) ==> m.holder == Some(t))
    && (IsReader(p) <==> m.reader == Some(t))
    && (p.Clear? ==> !m.changed)
    && (p.Mark? ==> m.thread)
    && (p.Claim? ==> !m.thread && !m.changed)
  }

  ghost predicate Inv(s: State) {
    && (forall t :: t in s.calls ==> CallOk(s.mem, t, s.calls[t]))
    && (s.mem.thread <==> s.mem.reader.Some?)
    && (s.mem.reader.Some? ==> s.mem.reader.value in s.calls)
    && (s.mem.changed ==> s.mem.thread)
    && (forall t :: t in s.mem.news ==> (t in s.calls && Entering(s.calls[t])) || WillRead(s))
  }

  lemma CallsKept(s: State, a: Action, t: Thread)
    requires Inv(s) && Do(s, a).Some? && t in Do(s, a).value.calls
    ensures CallOk(Do(s, a).value.mem, t, Do(s, a).value.calls[t])
  {
    if a.Step? { assert CallOk(s.mem, a.t, s.calls[a.t]); }
    if t != a.t { assert CallOk(s.mem, t, s.calls[t]); }
  }

  lemma NewsKept(s: State, a: Action, t: Thread)
    requires Inv(s) && Do(s, a).Some? && t in Do(s, a).value.mem.news
    ensures var s2 := Do(s, a).value; (t in s2.calls && Entering(s2.calls[t])) || WillRead(s2)
  {
    if a.Step? { assert CallOk(s.mem, a.t, s.calls[a.t]); }
    if s.mem.reader.Some? { assert CallOk(s.mem, s.mem.reader.value, s.calls[s.mem.reader.value]); }
    if t in s.mem.news { assert (t in s.calls && Entering(s.calls[t])) || WillRead(s); }
  }

  lemma DoKeeps(s: State, a: Action)
    requires Inv(s) && Do(s, a).Some?
    ensures Inv(Do(s, a).value)
  {
    var s2 := Do(s, a).value;
    forall t | t in s2.calls ensures CallOk(s2.mem, t, s2.calls[t]) { CallsKept(s, a, t); }
    forall t | t in s2.mem.news ensures (t in s2.calls && Entering(s2.calls[t])) || WillRead(s2) { NewsKept(s, a, t); }
    if a.Step? { assert CallOk(s.mem, a.t, s.calls[a.t]); }
    hide WillRead;
  }

  lemma {:induction false} ExecKeeps(s: State, run: seq<Action>)
    requires Inv(s) && Exec(s, run).Some?
    ensures Inv(Exec(s, run).value)
    decreases |run|
  {
    hide Inv, Do;
    if run != [] {
      DoKeeps(s, run[0]);
      ExecKeeps(Do(s, run[0]).value, run[1..]);
    }
  }

  /**
   No change of the table is lost. In every run at most one thread reads; a notification newer than the last
   read is either still on its way in, or the reader will read again before it clears the field; and
   when the field is about to be cleared, no notification but one on its way in is unanswered.
   */
  lemma {:induction false} NoLostChange(run: seq<Action>)
    requires Exec(Initial(), run).Some?
    ensures
      var s := Exec(Initial(), run).value;
      && (forall t, u :: t in s.calls && u in s.calls && IsReader(s.calls[t]) && IsReader(s.calls[u]) ==> t == u)
      && (forall t :: t in s.mem.news && !(t in s.calls && Entering(s.calls[t])) ==> WillRead(s))
      && (forall t :: t in s.calls && s.calls[t].Clear? ==>
            forall u :: u in s.mem.news ==> u in s.calls && Entering(s.calls[u]))
  {
    assert Inv(Initial());
    ExecKeeps(Initial(), run);
    hide Exec;
    var s := Exec(Initial(), run).value;
    forall t | t in s.calls ensures CallOk(s.mem, t, s.calls[t]) {}
  }

  /** Only a call that has come so far has the THREAD flag. */
  predicate HolderOk(s: State) {
    s.mem.holder.Some? ==> s.mem.holder.value in s.calls && Holds(s.calls[s.mem.holder.value])
  }

  lemma {:induction false} HolderKept(s: State, a: Action)
    requires Inv(s) && HolderOk(s) && Do(s, a).Some?
    ensures HolderOk(Do(s, a).value)
  {
    hide WillRead;
    if a.Step? { assert CallOk(s.mem, a.t, s.calls[a.t]); }
  }

  lemma {:induction false} ExecHolder(s: State, run: seq<Action>)
    requires Inv(s) && HolderOk(s) && Exec(s, run).Some?
    ensures Inv(Exec(s, run).value) && HolderOk(Exec(s, run).value)
    decreases |run|
  {
    hide Inv, HolderOk, Do;
    if run != [] {
      DoKeeps(s, run[0]);
      HolderKept(s, run[0]);
      ExecHolder(Do(s, run[0]).value, run[1..]);
    }
  }

  /** When all calls have returned, every change has been read, the field and its bit are clear, and the flag is free. */
  lemma {:induction false} AllReadAtRest(run: seq<Action>)
    requires Exec(Initial(), run).Some? && Exec(Initial(), run).value.calls == map[]
    ensures Exec(Initial(), run).value == Initial()
  {
    assert Inv(Initial());
    ExecHolder(Initial(), run);
    hide Exec;
    var s := Exec(Initial(), run).value;
    assert !WillRead(s);
    assert s.mem.news == {};
  }

  /** n steps of the call of thread t. */
  function Steps(s: State, t: Thread, n: nat): Option<State>
    decreases n
  {
    if n == 0 then Some(s)
    else match Do(s, Step(t)) case None => None case Some(s2) => Steps(s2, t, n - 1)
  }

  lemma {:induction false} StepsOn(s: State, t: Thread, n: nat, s2: State, m: nat)
    requires Steps(s, t, n) == Some(s2)
    ensures Steps(s, t, n + m) == Steps(s2, t, m)
    decreases n
  {
    hide Do;
    if n > 0 { StepsOn(Do(s, Step(t)).value, t, n - 1, s2, m); }
  }

  lemma {:induction false} NextStep(s: State, t: Thread, n: nat, s2: State) returns (s3: State)
    requires Steps(s, t, n) == Some(s2) && Do(s2, Step(t)).Some?
    ensures s3 == Do(s2, Step(t)).value && Steps(s, t, n + 1) == Some(s3)
  {
    hide Do;
    StepsOn(s, t, n, s2, 1);
    s3 := Do(s2, Step(t)).value;
    assert Steps(s3, t, 0) == Some(s3);
  }

  /** The call of thread t is reading, and nobody else calls. */
  function ReadingAlone(t: Thread): State {
    State(Memory(None, true, false, Some(t), {}), map[t := Reading])
  }

  lemma {:induction false} CallReads(t: Thread)
    ensures Do(Initial(), Call(t)).Some? && Steps(Do(Initial(), Call(t)).value, t, 5) == Some(ReadingAlone(t))
  {
    hide Steps;
    var s0 := Do(Initial(), Call(t)).value;
    NoStep(s0, t);
    var s := NextStep(s0, t, 0, s0);
    s := NextStep(s0, t, 1, s);
    s := NextStep(s0, t, 2, s);
    s := NextStep(s0, t, 3, s);
    s := NextStep(s0, t, 4, s);
    assert s.calls == map[t := Reading];
  }

  lemma {:induction false} CallReturns(t: Thread)
    ensures Steps(ReadingAlone(t), t, 5) == Some(Initial())
  {
    hide Steps;
    var s0 := ReadingAlone(t);
    NoStep(s0, t);
    var s := NextStep(s0, t, 0, s0);
    s := NextStep(s0, t, 1, s);
    s := NextStep(s0, t, 2, s);
    s := NextStep(s0, t, 3, s);
    s := NextStep(s0, t, 4, s);
  }

  /** A call that runs alone reads the table once, and leaves everything as it was. */
  lemma {:induction false} CallAlone(t: Thread)
    ensures Do(Initial(), Call(t)).Some?
    ensures Steps(Do(Initial(), Call(t)).value, t, 5) == Some(ReadingAlone(t))
    ensures Steps(Do(Initial(), Call(t)).value, t, 10) == Some(Initial())
  {
    hide Steps, Do;
    CallReads(t);
    CallReturns(t);
    StepsOn(Do(Initial(), Call(t)).value, t, 5, ReadingAlone(t), 5);
  }

  lemma {:induction false} NoStep(s: State, t: Thread)
    ensures Steps(s, t, 0) == Some(s)
  {}
}
