/**
 The locked list when the others are at rest: no flag is left behind, and an operation that runs alone comes
 to its end with the effect its caller asked for.
 */
module ListAlone {
  import opened Bytes
  import opened Chain
  import opened LockedList

  /** Every flag that is set is held by a running operation. */
  ghost predicate FlagsHeld(s: State) {
    forall f :: f in s.mem.flags ==> exists t :: t in s.threads && f in Holds(s.threads[t])
  }

  /** What a step leaves set was set by others, or is held by the operation still. */
  ghost predicate LeavesHeld(m: Memory, r: Running, v: Moved) {
    forall f :: f in v.mem.flags ==> (f in m.flags && f !in Holds(r)) || (v.rest.Some? && f in Holds(v.rest.value))
  }

  lemma {:induction false} AddHeld(m: Memory, r: Running)
    requires !r.op.Remove? && AddingPc(r.pc) && MoveAdd(m, r).Some?
    ensures LeavesHeld(m, r, MoveAdd(m, r).value)
  {
    hide InsertAfter;
  }

  lemma {:induction false} RemoveTakesHeld(m: Memory, r: Running)
    requires r.op.Remove? && MoveRemove(m, r).Some?
    requires r.pc.LockOwnNext? || r.pc.LockOwnPrev? || r.pc.ReadNext? || r.pc.ReadPrev? || r.pc.LockNextsPrev?
          || r.pc.LockPrevsNext? || r.pc.LinkBack? || r.pc.LinkForth?
    ensures LeavesHeld(m, r, MoveRemove(m, r).value)
  {
    hide Delete;
  }

  lemma {:induction false} RemoveCountsHeld(m: Memory, r: Running)
    requires r.op.Remove? && MoveRemove(m, r).Some?
    requires r.pc.Reset? || r.pc.LockHeader? || r.pc.ReadCount? || r.pc.WriteCount? || r.pc.UnlockHeader?
    ensures LeavesHeld(m, r, MoveRemove(m, r).value)
  {}

  lemma {:induction false} RemoveGivesHeld(m: Memory, r: Running)
    requires r.op.Remove? && MoveRemove(m, r).Some?
    requires r.pc.UnlockPrevsNext? || r.pc.UnlockNextsPrev? || r.pc.UnlockOwnPrev? || r.pc.UnlockOwnNext?
    ensures LeavesHeld(m, r, MoveRemove(m, r).value)
  {}

  lemma {:induction false} RemoveHeld(m: Memory, r: Running)
    requires r.op.Remove? && RemovingPc(r.pc) && MoveRemove(m, r).Some?
    ensures LeavesHeld(m, r, MoveRemove(m, r).value)
  {
    hide LeavesHeld, MoveRemove;
    if r.pc.Reset? || r.pc.LockHeader? || r.pc.ReadCount? || r.pc.WriteCount? || r.pc.UnlockHeader? { RemoveCountsHeld(m, r); }
    else if r.pc.UnlockPrevsNext? || r.pc.UnlockNextsPrev? || r.pc.UnlockOwnPrev? || r.pc.UnlockOwnNext? { RemoveGivesHeld(m, r); }
    else { RemoveTakesHeld(m, r); }
  }

  lemma {:induction false} MoveHeld(s: State, t: Thread)
    requires Inv(s) && Enabled(s, Step(t))
    ensures LeavesHeld(s.mem, s.threads[t], Move(s.mem, s.threads[t]).value)
  {
    hide Inv, LeavesHeld, MoveAdd, MoveRemove, AddingPc, RemovingPc;
    PcFits(s, t);
    var r := s.threads[t];
    if r.op.Remove? { RemoveHeld(s.mem, r); } else { AddHeld(s.mem, r); }
  }

  lemma PcFits(s: State, t: Thread)
    requires Inv(s) && t in s.threads
    ensures var r := s.threads[t]; if r.op.Remove? then RemovingPc(r.pc) else AddingPc(r.pc)
  {
    hide WellFormed, FlagsOk, PairsOk, LinksOk, CountOk, Cells, Adj, Holds;
    assert Place(s.mem.chain, s.threads[t]);
  }

  lemma {:induction false} StepHeld(s: State, t: Thread)
    requires Inv(s) && FlagsHeld(s) && Enabled(s, Step(t))
    ensures FlagsHeld(Do(s, Step(t)))
  {
    hide Inv, Holds, Move;
    MoveHeld(s, t);
    var r, s2 := s.threads[t], Do(s, Step(t));
    forall f | f in s2.mem.flags ensures exists u :: u in s2.threads && f in Holds(s2.threads[u]) {
      if f in s.mem.flags && f !in Holds(r) {
        var u :| u in s.threads && f in Holds(s.threads[u]);
        assert u in s2.threads && s2.threads[u] == s.threads[u];
      } else {
        assert t in s2.threads && f in Holds(s2.threads[t]);
      }
    }
  }

  lemma {:induction false} StartHeld(s: State, t: Thread, op: Op)
    requires FlagsHeld(s) && Enabled(s, Start(t, op))
    ensures FlagsHeld(Do(s, Start(t, op)))
  {
    hide Holds, CanBegin;
    var s2 := Do(s, Start(t, op));
    forall f | f in s2.mem.flags ensures exists u :: u in s2.threads && f in Holds(s2.threads[u]) {
      var u :| u in s.threads && f in Holds(s.threads[u]);
      assert s2.threads[u] == s.threads[u];
    }
  }

  lemma {:induction false} ExecHeld(s: State, acts: seq<Action>)
    requires Inv(s) && FlagsHeld(s) && Exec(s, acts).Some?
    ensures Inv(Exec(s, acts).value) && FlagsHeld(Exec(s, acts).value)
    decreases |acts|
  {
    hide Inv, FlagsHeld, Do, Enabled;
    if acts != [] {
      ActionKept(s, acts[0]);
      match acts[0] {
        case Start(t, op) => StartHeld(s, t, op);
        case Step(t) => StepHeld(s, t);
      }
      ExecHeld(Do(s, acts[0]), acts[1..]);
    }
  }

  /** Whenever no operation is running, no flag is set. */
  lemma {:induction false} RestIsFree(acts: seq<Action>)
    requires Exec(Initial(), acts).Some?
    ensures var s := Exec(Initial(), acts).value; s.threads == map[] ==> s.mem.flags == {}
  {
    InitialInv();
    ExecHeld(Initial(), acts);
  }

  // One operation alone

  /** Nothing runs but one operation of thread t. */
  predicate Only(s: State, t: Thread) {
    s.threads.Keys == {t}
  }

  lemma OnlyFlags(s: State, t: Thread)
    requires Only(s, t) && FlagsHeld(s)
    ensures s.mem.flags <= Holds(s.threads[t])
  {}

  /** The flags an operation waits for are not its own. */
  lemma {:induction false} AddGoesOn(m: Memory, r: Running)
    requires !r.op.Remove? && AddingPc(r.pc) && m.flags <= Holds(r)
    ensures MoveAdd(m, r).Some?
  {
    hide InsertAfter;
  }

  lemma {:induction false} RemoveGoesOn(m: Memory, r: Running)
    requires r.op.Remove? && RemovingPc(r.pc) && m.flags <= Holds(r)
    requires r.pc == LockNextsPrev || r.pc == LockPrevsNext ==> r.n != r.op.e && r.p != r.op.e
    ensures MoveRemove(m, r).Some?
  {
    hide Delete;
  }

  lemma NeighboursApart(s: State, t: Thread)
    requires Inv(s) && t in s.threads
    ensures var r := s.threads[t];
      r.op.Remove? && (r.pc == LockNextsPrev || r.pc == LockPrevsNext) ==> r.n != r.op.e && r.p != r.op.e
  {
    hide FlagsOk, PairsOk, LinksOk, CountOk, Cells, Adj, Holds;
    var r := s.threads[t];
    assert Place(s.mem.chain, r);
    if r.op.Remove? && (r.pc == LockNextsPrev || r.pc == LockPrevsNext) {
      AdjApart(s.mem.chain, r.op.e, r.n);
      AdjApart(s.mem.chain, r.p, r.op.e);
    }
  }

  lemma {:induction false} AloneGoesOn(s: State, t: Thread)
    requires Inv(s) && FlagsHeld(s) && Only(s, t)
    ensures Enabled(s, Step(t))
  {
    hide Inv, FlagsHeld, Holds, MoveAdd, MoveRemove, AddingPc, RemovingPc;
    OnlyFlags(s, t);
    PcFits(s, t);
    NeighboursApart(s, t);
    var r := s.threads[t];
    if r.op.Remove? { RemoveGoesOn(s.mem, r); } else { AddGoesOn(s.mem, r); }
  }

  /** Steps left. */
  function Rank(pc: Pc): nat {
    match pc
    case Init => 14
    case LockFirst => 13
    case ReadFirst => 12
    case LockSecond => 11
    case Write1 => 10
    case Write2 => 9
    case Write3 => 8
    case Write4 => 7
    case LockOwnNext => 17
    case LockOwnPrev => 16
    case ReadNext => 15
    case ReadPrev => 14
    case LockNextsPrev => 13
    case LockPrevsNext => 12
    case LinkBack => 11
    case LinkForth => 10
    case Reset => 9
    case LockHeader => 8
    case ReadCount => 7
    case WriteCount => 6
    case UnlockHeader => 5
    case UnlockSecond => 2
    case UnlockFirst => 1
    case UnlockPrevsNext => 4
    case UnlockNextsPrev => 3
    case UnlockOwnPrev => 2
    case UnlockOwnNext => 1
  }

  /** The LockHeader step of an add comes after Write4. */
  function StepsLeft(r: Running): nat {
    if r.op.Remove? then Rank(r.pc)
    else if Rank(r.pc) >= 7 && r.pc != LockHeader && r.pc != ReadCount then Rank(r.pc) + 2
    else Rank(r.pc)
  }

  lemma {:induction false} FewerToAdd(m: Memory, r: Running)
    requires !r.op.Remove? && MoveAdd(m, r).Some?
    ensures var v := MoveAdd(m, r).value; v.rest.Some? ==> v.rest.value.op == r.op && StepsLeft(v.rest.value) < StepsLeft(r)
  {
    hide InsertAfter, InitElement, First, Second, At;
  }

  lemma {:induction false} FewerToRemove(m: Memory, r: Running)
    requires r.op.Remove? && MoveRemove(m, r).Some?
    ensures var v := MoveRemove(m, r).value; v.rest.Some? ==> v.rest.value.op == r.op && StepsLeft(v.rest.value) < StepsLeft(r)
  {
    hide Delete, InitElement;
  }

  lemma {:induction false} FewerSteps(m: Memory, r: Running)
    requires Move(m, r).Some?
    ensures var v := Move(m, r).value; v.rest.Some? ==> v.rest.value.op == r.op && StepsLeft(v.rest.value) < StepsLeft(r)
  {
    hide MoveAdd, MoveRemove, StepsLeft;
    if r.op.Remove? { FewerToRemove(m, r); } else { FewerToAdd(m, r); }
  }

  /** The order of the list once the operation has had its effect. */
  function After(c: seq<Node>, op: Op): seq<Node>
    requires if op.Remove? then op.e in c else op.at in c
  {
    match op
    case AddAfter(at, e) => InsertAfter(c, at, e)
    case AddBefore(at, e) => InsertBefore(c, at, e)
    case Remove(e) => Delete(c, e)
  }

  predicate Fits(c: seq<Node>, op: Op) {
    if op.Remove? then op.e in c else op.at in c
  }

  /** The operation has had its effect on the order c, or has not yet, as its place tells. */
  predicate Effect(c: seq<Node>, r: Running, c2: seq<Node>) {
    Fits(c, r.op) && c2 == if Joined(r) == r.op.Remove? then c else After(c, r.op)
  }

  /** What the effect of a step depends on. */
  lemma EffectFacts(m: Memory, r: Running)
    requires Place(m.chain, r)
    ensures if r.op.Remove? then RemovingPc(r.pc) else AddingPc(r.pc)
    ensures r.pc == Write4 ==> r.p in m.chain && Adj(m.chain, r.p, r.n) && r.op.at == if r.op.AddAfter? then r.p else r.n
    ensures r.pc == LinkForth ==> r.op.e in m.chain
  {
    AdjIn(m.chain, r.p, r.n);
    hide Adj, Holds;
  }

  lemma {:induction false} AddEffect(c: seq<Node>, m: Memory, r: Running)
    requires WellFormed(m.chain) && !r.op.Remove? && Place(m.chain, r) && MoveAdd(m, r).Some? && Effect(c, r, m.chain)
    ensures var v := MoveAdd(m, r).value;
      if v.rest.Some? then Effect(c, v.rest.value, v.mem.chain) else v.mem.chain == After(c, r.op)
  {
    hide Adj, Place, Holds, InsertAfter, InsertBefore, WellFormed, Lock, Unlock, InitElement;
    EffectFacts(m, r);
    LockShape();
    if r.pc == Write4 && r.op.AddBefore? { BeforeIsAfter(m.chain, r.p, r.n, r.op.e); }
  }

  /** Taking a flag, giving it back and clearing an element leave the order alone. */
  lemma LockShape()
    ensures forall m, f, r :: Lock(m, f, r).Some? ==> Lock(m, f, r).value.mem.chain == m.chain && Lock(m, f, r).value.rest == Some(r)
    ensures forall m, f, r :: Unlock(m, f, r).Some? && Unlock(m, f, r).value.mem.chain == m.chain && Unlock(m, f, r).value.rest == r
    ensures forall m, e, owned :: InitElement(m, e, owned).chain == m.chain
  {}

  lemma {:induction false} RemoveEffect(c: seq<Node>, m: Memory, r: Running)
    requires r.op.Remove? && Place(m.chain, r) && MoveRemove(m, r).Some? && Effect(c, r, m.chain)
    ensures var v := MoveRemove(m, r).value;
      if v.rest.Some? then Effect(c, v.rest.value, v.mem.chain) else v.mem.chain == After(c, r.op)
  {
    hide Adj, Place, Holds, Delete, Lock, Unlock, InitElement;
    EffectFacts(m, r);
    LockShape();
  }

  lemma {:induction false} MoveEffect(c: seq<Node>, m: Memory, r: Running)
    requires WellFormed(m.chain) && Place(m.chain, r) && Move(m, r).Some? && Effect(c, r, m.chain)
    ensures var v := Move(m, r).value;
      if v.rest.Some? then Effect(c, v.rest.value, v.mem.chain) else v.mem.chain == After(c, r.op)
  {
    hide Place, WellFormed, Effect, After, MoveAdd, MoveRemove;
    if r.op.Remove? { RemoveEffect(c, m, r); } else { AddEffect(c, m, r); }
    EffectFits(c, r, m.chain);
  }

  /** n steps of thread t. */
  function Steps(s: State, t: Thread, n: nat): Option<State>
    decreases n
  {
    if n == 0 then Some(s)
    else if Enabled(s, Step(t)) then Steps(Do(s, Step(t)), t, n - 1)
    else None
  }

  lemma StepKeeps(s: State, t: Thread, c: seq<Node>)
    requires Inv(s) && FlagsHeld(s) && Only(s, t) && Effect(c, s.threads[t], s.mem.chain)
    ensures Enabled(s, Step(t)) && Inv(Do(s, Step(t))) && FlagsHeld(Do(s, Step(t)))
    ensures var s2 := Do(s, Step(t));
      if t in s2.threads then
        && Only(s2, t) && s2.threads[t].op == s.threads[t].op
        && Effect(c, s2.threads[t], s2.mem.chain) && StepsLeft(s2.threads[t]) < StepsLeft(s.threads[t])
      else s2.threads == map[] && s2.mem.chain == After(c, s.threads[t].op)
  {
    hide Inv, FlagsHeld, Effect, Move, StepsLeft, Place, Cells, After;
    AloneGoesOn(s, t);
    ActionKept(s, Step(t));
    StepHeld(s, t);
    InvHere(s, t);
    FewerSteps(s.mem, s.threads[t]);
    MoveEffect(c, s.mem, s.threads[t]);
    EffectFits(c, s.threads[t], s.mem.chain);
  }

  lemma EffectFits(c: seq<Node>, r: Running, c2: seq<Node>)
    requires Effect(c, r, c2)
    ensures Fits(c, r.op)
  {}

  lemma {:induction false} AloneCompletes(s: State, t: Thread, c: seq<Node>) returns (n: nat, s2: State)
    requires Inv(s) && FlagsHeld(s) && Only(s, t) && Effect(c, s.threads[t], s.mem.chain)
    ensures Fits(c, s.threads[t].op)
    ensures Steps(s, t, n) == Some(s2) && s2.threads == map[] && Inv(s2) && FlagsHeld(s2)
    ensures s2.mem.chain == After(c, s.threads[t].op)
    decreases StepsLeft(s.threads[t])
  {
    hide Inv, FlagsHeld, Effect, Enabled, Do, StepsLeft, After;
    EffectFits(c, s.threads[t], s.mem.chain);
    StepKeeps(s, t, c);
    var s1 := Do(s, Step(t));
    if t in s1.threads {
      n, s2 := AloneCompletes(s1, t, c);
    } else {
      n, s2 := 0, s1;
    }
    n := n + 1;
  }

  lemma StartEffect(s: State, t: Thread, op: Op)
    requires Enabled(s, Start(t, op)) && s.threads == map[]
    ensures var s2 := Do(s, Start(t, op)); Only(s2, t) && s2.threads[t].op == op && Effect(s.mem.chain, s2.threads[t], s2.mem.chain)
  {}

  /**
   From any state that a run comes to with nothing running: every operation the caller may begin comes to its
   end when its thread goes on alone, with the element right behind or right before the one named, or gone, and with
   the links, the count and the flags in order again.
   */
  lemma {:induction false} OperationAlone(acts: seq<Action>, t: Thread, op: Op) returns (n: nat, s2: State)
    requires Exec(Initial(), acts).Some? && Exec(Initial(), acts).value.threads == map[]
    requires CanBegin(Exec(Initial(), acts).value, op)
    ensures var s := Exec(Initial(), acts).value;
      && Enabled(s, Start(t, op)) && Steps(Do(s, Start(t, op)), t, n) == Some(s2) && s2.threads == map[]
      && Fits(s.mem.chain, op) && s2.mem.chain == After(s.mem.chain, op)
      && Walks(s2.mem, s2.mem.chain) && s2.mem.count == |s2.mem.chain| - 2 && s2.mem.flags == {}
  {
    hide Exec, Inv, Effect, After, Steps, CanBegin;
    InitialInv();
    ExecHeld(Initial(), acts);
    var s := Exec(Initial(), acts).value;
    ActionKept(s, Start(t, op));
    StartHeld(s, t, op);
    StartEffect(s, t, op);
    n, s2 := AloneCompletes(Do(s, Start(t, op)), t, s.mem.chain);
    AtRest(s2);
  }

  lemma AtRest(s: State)
    requires Inv(s) && FlagsHeld(s) && s.threads == map[]
    ensures Walks(s.mem, s.mem.chain) && s.mem.count == |s.mem.chain| - 2 && s.mem.flags == {}
  {
    hide Walks, CountOk, LinksOk;
    RestWalks(s);
    RestCount(s);
  }
}
