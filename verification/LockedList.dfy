/**
 The fine-grained locked list: the link between two neighbours is guarded by the NEXT flag of the
 first and the PREV flag of the second, each taken on its own. A transition system with one step
 per flag taken or given back, per shared pointer read or written, and per access to the count.
 Any number of threads run add and remove operations on one list.
 */
module LockedList {
  import opened Bytes
  import opened Chain

  type Thread = nat

  /** The NULL pointer. */
  const NIL: Node := -1

  datatype Side = Next | Prev | Self

  datatype Flag = Flag(node: Node, side: Side)

  /** The SELF bit in the lock word of the list header. */
  const HEADER: Flag := Flag(HEAD, Self)

  datatype Op = AddAfter(at: Node, e: Node) | AddBefore(at: Node, e: Node) | Remove(e: Node)

  /** The next step of a running operation; those from LockHeader to UnlockHeader are shared by all. */
  datatype Pc =
    // adding
    | Init | LockFirst | ReadFirst | LockSecond | Write1 | Write2 | Write3 | Write4
    // removing
    | LockOwnNext | LockOwnPrev | ReadNext | ReadPrev | LockNextsPrev | LockPrevsNext | LinkBack | LinkForth | Reset
    // the count
    | LockHeader | ReadCount | WriteCount | UnlockHeader
    // adding
    | UnlockSecond | UnlockFirst
    // removing
    | UnlockPrevsNext | UnlockNextsPrev | UnlockOwnPrev | UnlockOwnNext

  /** A running operation with its local variables p, n and the count it has read. */
  datatype Running = Running(op: Op, pc: Pc, p: Node, n: Node, seen: int)

  /**
   The shared memory, and chain, which records the order of the list: an element joins it with the
   last pointer written for it, and leaves it when p->n is set past it.
   */
  datatype Memory = Memory(next: map<Node, Node>, prev: map<Node, Node>, listed: set<Node>, flags: set<Flag>,
                           count: int, chain: seq<Node>)

  datatype State = State(mem: Memory, threads: map<Thread, Running>)

  function At(m: map<Node, Node>, x: Node): Node {
    if x in m then m[x] else NIL
  }

  /** The flag of the element the caller names. */
  function First(op: Op): Flag {
    match op
    case AddAfter(at, _) => Flag(at, Next)
    case AddBefore(at, _) => Flag(at, Prev)
    case Remove(e) => Flag(e, Next)
  }

  /** The flag on the other side of the link. */
  function Second(r: Running): Flag {
    match r.op
    case AddAfter(_, _) => Flag(r.n, Prev)
    case AddBefore(_, _) => Flag(r.p, Next)
    case Remove(e) => Flag(e, Prev)
  }

  /** The outcome of a step: the memory, and the operation unless it has returned. */
  datatype Moved = Moved(mem: Memory, rest: Option<Running>)

  /** EVENT_signal_lock_flag: waits until the bit is clear, then sets it. */
  function Lock(m: Memory, f: Flag, r: Running): Option<Moved> {
    if f in m.flags then None else Some(Moved(m.(flags := m.flags + {f}), Some(r)))
  }

  function Unlock(m: Memory, f: Flag, r: Option<Running>): Option<Moved> {
    Some(Moved(m.(flags := m.flags - {f}), r))
  }

  /** LIST_element_init. */
  function InitElement(m: Memory, e: Node, owned: bool): Memory {
    m.(next := m.next[e := NIL], prev := m.prev[e := NIL], listed := if owned then m.listed + {e} else m.listed - {e},
       flags := m.flags - {Flag(e, Next), Flag(e, Prev)})
  }

  /** The steps of cb_list_element_insert_after_locked and cb_list_element_insert_before_locked. */
  function MoveAdd(m: Memory, r: Running): Option<Moved>
    requires !r.op.Remove?
  {
    var e, after := r.op.e, r.op.AddAfter?;
    match r.pc
    case Init => Some(Moved(InitElement(m, e, true), Some(r.(pc := LockFirst))))
    case LockFirst => Lock(m, First(r.op), r.(pc := ReadFirst))
    case ReadFirst =>
      Some(Moved(m, Some(if after then r.(p := r.op.at, n := At(m.next, r.op.at), pc := LockSecond)
                         else r.(n := r.op.at, p := At(m.prev, r.op.at), pc := LockSecond))))
    case LockSecond => Lock(m, Second(r), r.(pc := Write1))
    case Write1 =>
      Some(Moved(if after then m.(prev := m.prev[r.n := e]) else m.(next := m.next[r.p := e]), Some(r.(pc := Write2))))
    case Write2 =>
      Some(Moved(if after then m.(next := m.next[r.p := e]) else m.(prev := m.prev[r.n := e]), Some(r.(pc := Write3))))
    case Write3 =>
      Some(Moved(if after then m.(prev := m.prev[e := r.p]) else m.(next := m.next[e := r.n]), Some(r.(pc := Write4))))
    case Write4 =>
      var joined := if r.p in m.chain then InsertAfter(m.chain, r.p, e) else m.chain;
      Some(Moved((if after then m.(next := m.next[e := r.n]) else m.(prev := m.prev[e := r.p])).(chain := joined),
                 Some(r.(pc := LockHeader))))
    case LockHeader => Lock(m, HEADER, r.(pc := ReadCount))
    case ReadCount => Some(Moved(m, Some(r.(seen := m.count, pc := WriteCount))))
    case WriteCount => Some(Moved(m.(count := r.seen + 1), Some(r.(pc := UnlockHeader))))
    case UnlockHeader => Unlock(m, HEADER, Some(r.(pc := UnlockSecond)))
    case UnlockSecond => Unlock(m, Second(r), Some(r.(pc := UnlockFirst)))
    case UnlockFirst => Unlock(m, First(r.op), None)
    case _ => None
  }

  /** The steps of cb_list_element_remove_locked. */
  function MoveRemove(m: Memory, r: Running): Option<Moved>
    requires r.op.Remove?
  {
    var e := r.op.e;
    match r.pc
    case LockOwnNext => Lock(m, Flag(e, Next), r.(pc := LockOwnPrev))
    case LockOwnPrev => Lock(m, Flag(e, Prev), r.(pc := ReadNext))
    case ReadNext => Some(Moved(m, Some(r.(n := At(m.next, e), pc := ReadPrev))))
    case ReadPrev => Some(Moved(m, Some(r.(p := At(m.prev, e), pc := LockNextsPrev))))
    case LockNextsPrev => Lock(m, Flag(r.n, Prev), r.(pc := LockPrevsNext))
    case LockPrevsNext => Lock(m, Flag(r.p, Next), r.(pc := LinkBack))
    case LinkBack => Some(Moved(m.(prev := m.prev[r.n := r.p]), Some(r.(pc := LinkForth))))
    case LinkForth =>
      var left := if e in m.chain then Delete(m.chain, e) else m.chain;
      Some(Moved(m.(next := m.next[r.p := r.n], chain := left), Some(r.(pc := Reset))))
    case Reset => Some(Moved(InitElement(m, e, false), Some(r.(pc := LockHeader))))
    case LockHeader => Lock(m, HEADER, r.(pc := ReadCount))
    case ReadCount => Some(Moved(m, Some(r.(seen := m.count, pc := WriteCount))))
    case WriteCount => Some(Moved(m.(count := r.seen - 1), Some(r.(pc := UnlockHeader))))
    case UnlockHeader => Unlock(m, HEADER, Some(r.(pc := UnlockPrevsNext)))
    case UnlockPrevsNext => Unlock(m, Flag(r.p, Next), Some(r.(pc := UnlockNextsPrev)))
    case UnlockNextsPrev => Unlock(m, Flag(r.n, Prev), Some(r.(pc := UnlockOwnPrev)))
    case UnlockOwnPrev => Unlock(m, Flag(e, Prev), Some(r.(pc := UnlockOwnNext)))
    case UnlockOwnNext => Unlock(m, Flag(e, Next), None)
    case _ => None
  }

  function Move(m: Memory, r: Running): Option<Moved> {
    if r.op.Remove? then MoveRemove(m, r) else MoveAdd(m, r)
  }

  /**
   What callers owe the list: an element is in at most one running operation, the element an add
   names is listed and stays so, and what is removed has been added.
   */
  predicate CanBegin(s: State, op: Op) {
    && op.e != HEAD && op.e != TAIL && op.e != NIL
    && (forall u :: u in s.threads ==> s.threads[u].op.e != op.e)
    && match op
       case Remove(e) =>
         e in s.mem.chain && forall u :: u in s.threads && !s.threads[u].op.Remove? ==> s.threads[u].op.at != e
       case AddAfter(at, e) =>
         e !in s.mem.chain && at in s.mem.chain && at != TAIL && forall u :: u in s.threads ==> s.threads[u].op.e != at
       case AddBefore(at, e) =>
         e !in s.mem.chain && at in s.mem.chain && at != HEAD && forall u :: u in s.threads ==> s.threads[u].op.e != at
  }

  datatype Action = Start(t: Thread, op: Op) | Step(t: Thread)

  predicate Enabled(s: State, a: Action) {
    match a
    case Start(t, op) => t !in s.threads && CanBegin(s, op)
    case Step(t) => t in s.threads && Move(s.mem, s.threads[t]).Some?
  }

  /** Some thread begins an operation or takes its next step. */
  function Do(s: State, a: Action): State
    requires Enabled(s, a)
  {
    match a
    case Start(t, op) =>
      s.(threads := s.threads[t := Running(op, if op.Remove? then LockOwnNext else Init, NIL, NIL, 0)])
    case Step(t) =>
      var moved := Move(s.mem, s.threads[t]).value;
      State(moved.mem, if moved.rest.Some? then s.threads[t := moved.rest.value] else s.threads - {t})
  }

  // ----- the invariant -----

  /** The flags an operation has taken and not given back. */
  function Holds(r: Running): set<Flag> {
    var own := {Flag(r.op.e, Next), Flag(r.op.e, Prev)};
    var pair := if r.op.Remove? then {Flag(r.n, Prev), Flag(r.p, Next)} else {First(r.op), Second(r)};
    match r.pc
    case Init | LockFirst | LockOwnNext | UnlockOwnPrev | UnlockOwnNext => {}
    case ReadFirst | LockSecond | UnlockFirst => {First(r.op)}
    case LockOwnPrev => {Flag(r.op.e, Next)}
    case ReadNext | ReadPrev | LockNextsPrev => own
    case LockPrevsNext => own + {Flag(r.n, Prev)}
    case LinkBack | LinkForth | Reset => own + pair
    case Write1 | Write2 | Write3 | Write4 | LockHeader | UnlockSecond | UnlockPrevsNext => pair
    case ReadCount | WriteCount | UnlockHeader => pair + {HEADER}
    case UnlockNextsPrev => {Flag(r.n, Prev)}
  }

  predicate AddingPc(pc: Pc) {
    pc in {Init, LockFirst, ReadFirst, LockSecond, Write1, Write2, Write3, Write4, LockHeader, ReadCount, WriteCount,
           UnlockHeader, UnlockSecond, UnlockFirst}
  }

  predicate RemovingPc(pc: Pc) {
    !(pc in {Init, LockFirst, ReadFirst, LockSecond, Write1, Write2, Write3, Write4, UnlockSecond, UnlockFirst})
  }

  /** The element of an operation is in the list at this point. */
  predicate Joined(r: Running) {
    if r.op.Remove? then
      r.pc in {LockOwnNext, LockOwnPrev, ReadNext, ReadPrev, LockNextsPrev, LockPrevsNext, LinkBack, LinkForth}
    else !(r.pc in {Init, LockFirst, ReadFirst, LockSecond, Write1, Write2, Write3, Write4})
  }

  /** Where an operation stands in the list. */
  ghost predicate Place(c: seq<Node>, r: Running) {
    && (if r.op.Remove? then RemovingPc(r.pc) else AddingPc(r.pc))
    && r.op.e != HEAD && r.op.e != TAIL && r.op.e != NIL
    && (r.op.e in c <==> Joined(r))
    && (r.op.AddAfter? ==> r.op.at in c && r.op.at != TAIL)
    && (r.op.AddBefore? ==> r.op.at in c && r.op.at != HEAD)
    && (!r.op.Remove? ==> r.op.at != r.op.e)
    && (!r.op.Remove? && r.pc in {LockSecond, Write1, Write2, Write3, Write4} ==>
          Adj(c, r.p, r.n) && r.op.at == if r.op.AddAfter? then r.p else r.n)
    && (!r.op.Remove? && r.pc in {LockHeader, ReadCount, WriteCount, UnlockHeader, UnlockSecond} ==>
          r.op.at == if r.op.AddAfter? then r.p else r.n)
    && (r.op.Remove? && r.pc in {ReadPrev, LockNextsPrev, LockPrevsNext, LinkBack, LinkForth} ==> Adj(c, r.op.e, r.n))
    && (r.op.Remove? && r.pc in {LockNextsPrev, LockPrevsNext, LinkBack, LinkForth} ==> Adj(c, r.p, r.op.e))
    && (r.pc == Reset ==> r.p != r.op.e && r.n != r.op.e)
    && forall f :: f in Holds(r) ==> f == HEADER || (f.side != Self && (f.node in c || f.node == r.op.e))
  }

  /** What an operation has written so far and still relies on. */
  ghost predicate Cells(m: Memory, r: Running) {
    var e := r.op.e;
    && (r.op.AddAfter? ==>
         && (r.pc in {Write2, Write3, Write4} ==> At(m.prev, r.n) == e)
         && (r.pc in {Write3, Write4} ==> At(m.next, r.p) == e)
         && (r.pc == Write4 ==> At(m.prev, e) == r.p))
    && (r.op.AddBefore? ==>
         && (r.pc in {Write2, Write3, Write4} ==> At(m.next, r.p) == e)
         && (r.pc in {Write3, Write4} ==> At(m.prev, r.n) == e)
         && (r.pc == Write4 ==> At(m.next, e) == r.n))
    && (r.op.Remove? && r.pc == LinkForth ==> At(m.prev, r.n) == r.p)
    && (r.op.Remove? && !Joined(r) && r.pc != Reset ==> At(m.next, e) == NIL && At(m.prev, e) == NIL && e !in m.listed)
    && (!r.op.Remove? && r.pc != Init ==> e in m.listed)
    && (r.pc == WriteCount ==> r.seen == m.count)
  }

  /** The operation is rewriting the link from x to y. */
  predicate Mid(r: Running, x: Node, y: Node) {
    if r.op.Remove? then r.pc == LinkForth && x == r.op.e && y == r.n
    else r.pc in {Write2, Write3, Write4} && x == r.p && y == r.n
  }

  ghost predicate FlagsOk(s: State) {
    && (forall t :: t in s.threads ==> Holds(s.threads[t]) <= s.mem.flags)
    && (forall t, u :: t in s.threads && u in s.threads && t != u ==> Holds(s.threads[t]) !! Holds(s.threads[u]))
  }

  ghost predicate PairsOk(s: State) {
    forall t, u :: t in s.threads && u in s.threads && t != u ==>
      && s.threads[t].op.e != s.threads[u].op.e
      && (!s.threads[t].op.Remove? ==> s.threads[t].op.at != s.threads[u].op.e)
  }

  ghost predicate LocalsOk(s: State) {
    forall t :: t in s.threads ==> Place(s.mem.chain, s.threads[t]) && Cells(s.mem, s.threads[t])
  }

  ghost predicate LinkOk(m: Memory, x: Node, y: Node) {
    At(m.next, x) == y && At(m.prev, y) == x
  }

  ghost predicate LinksOk(s: State) {
    forall x, y :: Adj(s.mem.chain, x, y) ==> LinkOk(s.mem, x, y) || exists t :: t in s.threads && Mid(s.threads[t], x, y)
  }

  /** 1 for an operation whose element is in the list and not counted, -1 for the opposite. */
  function Owes(r: Running): int {
    if !r.op.Remove? && r.pc in {LockHeader, ReadCount, WriteCount} then 1
    else if r.op.Remove? && r.pc in {Reset, LockHeader, ReadCount, WriteCount} then -1
    else 0
  }

  /** Operations whose element joined the list and is not counted yet. */
  function Uncounted(s: State): set<Thread> {
    set t | t in s.threads && Owes(s.threads[t]) == 1
  }

  /** Operations whose element left the list and is still counted. */
  function Overcounted(s: State): set<Thread> {
    set t | t in s.threads && Owes(s.threads[t]) == -1
  }

  /** The count is right up to what running operations still owe it. */
  ghost predicate CountOk(s: State) {
    s.mem.count + |Uncounted(s)| - |Overcounted(s)| == |s.mem.chain| - 2
  }

  ghost predicate Inv(s: State) {
    && WellFormed(s.mem.chain) && NIL !in s.mem.chain
    && FlagsOk(s) && PairsOk(s) && LocalsOk(s) && LinksOk(s) && CountOk(s)
    && forall x :: x in s.mem.chain && x != HEAD && x != TAIL ==> x in s.mem.listed
  }

  // ----- one step, seen by its own thread and by the others -----

  /** What a step may do to memory: only cells whose flag its operation holds, and its own element. */
  ghost predicate Frame(m: Memory, r: Running, m2: Memory) {
    var e := r.op.e;
    && (forall x :: At(m2.next, x) != At(m.next, x) ==> Flag(x, Next) in Holds(r) || (x == e && e !in m.chain))
    && (forall x :: At(m2.prev, x) != At(m.prev, x) ==> Flag(x, Prev) in Holds(r) || (x == e && e !in m.chain))
    && (forall x :: x != e ==> (x in m2.listed <==> x in m.listed))
    && (m2.count != m.count ==> HEADER in Holds(r))
    && (forall f :: f in m.flags && f !in m2.flags ==> f in Holds(r) || (f.node == e && e !in m.chain && f.side != Self))
    && (m2.chain == m.chain || Joins(m, r, m2) || Leaves(m, r, m2))
  }

  ghost predicate Joins(m: Memory, r: Running, m2: Memory) {
    && Adj(m.chain, r.p, r.n) && Flag(r.p, Next) in Holds(r) && Flag(r.n, Prev) in Holds(r)
    && r.op.e !in m.chain && m2.chain == InsertAfter(m.chain, r.p, r.op.e)
  }

  ghost predicate Leaves(m: Memory, r: Running, m2: Memory) {
    && Adj(m.chain, r.p, r.op.e) && Adj(m.chain, r.op.e, r.n)
    && {Flag(r.p, Next), Flag(r.n, Prev), Flag(r.op.e, Next), Flag(r.op.e, Prev)} <= Holds(r)
    && m2.chain == Delete(m.chain, r.op.e)
  }

  lemma FrameAdd(m: Memory, r: Running)
    requires !r.op.Remove? && Place(m.chain, r) && MoveAdd(m, r).Some?
    ensures Frame(m, r, MoveAdd(m, r).value.mem)
  {
    hide InsertAfter, Adj;
  }

  lemma FrameRemove(m: Memory, r: Running)
    requires r.op.Remove? && Place(m.chain, r) && MoveRemove(m, r).Some?
    ensures Frame(m, r, MoveRemove(m, r).value.mem)
  {
    hide Delete, Adj;
  }

  /** The neighbours a step is about to read are there. */
  ghost predicate Reads(m: Memory, r: Running) {
    && (r.op.AddAfter? && r.pc == ReadFirst ==> Adj(m.chain, r.op.at, At(m.next, r.op.at)))
    && (r.op.AddBefore? && r.pc == ReadFirst ==> Adj(m.chain, At(m.prev, r.op.at), r.op.at))
    && (r.pc == ReadNext ==> Adj(m.chain, r.op.e, At(m.next, r.op.e)))
    && (r.pc == ReadPrev ==> Adj(m.chain, At(m.prev, r.op.e), r.op.e))
  }

  /** What a step does to the operation itself. */
  ghost predicate OwnKept(m: Memory, r: Running, v: Moved) {
    v.rest.Some? ==>
      var r2 := v.rest.value;
      && r2.op == r.op && Place(v.mem.chain, r2) && Cells(v.mem, r2) && Holds(r2) <= v.mem.flags
      && forall f :: f in Holds(r2) ==> f in Holds(r) || f !in m.flags
  }

  lemma AdjIn(c: seq<Node>, x: Node, y: Node)
    ensures Adj(c, x, y) ==> x in c && y in c
  {}

  lemma OwnAddLocks(m: Memory, r: Running)
    requires !r.op.Remove? && r.pc in {Init, LockFirst, ReadFirst, LockSecond} && MoveAdd(m, r).Some?
    requires WellFormed(m.chain) && Place(m.chain, r) && Cells(m, r) && Holds(r) <= m.flags && Reads(m, r)
    ensures OwnKept(m, r, MoveAdd(m, r).value)
  {
    AdjIn(m.chain, r.p, r.n);
    hide InsertAfter, Adj, WellFormed;
  }

  lemma OwnAddWrites(m: Memory, r: Running)
    requires !r.op.Remove? && r.pc in {Write1, Write2} && MoveAdd(m, r).Some?
    requires WellFormed(m.chain) && Place(m.chain, r) && Cells(m, r) && Holds(r) <= m.flags && Reads(m, r)
    ensures OwnKept(m, r, MoveAdd(m, r).value)
  {
    AdjMembers(m.chain, r.p, r.n);
    hide InsertAfter, Adj, WellFormed;
  }

  lemma OwnAddPoints(m: Memory, r: Running)
    requires !r.op.Remove? && r.pc in {Write3} && MoveAdd(m, r).Some?
    requires WellFormed(m.chain) && Place(m.chain, r) && Cells(m, r) && Holds(r) <= m.flags && Reads(m, r)
    ensures OwnKept(m, r, MoveAdd(m, r).value)
  {
    AdjMembers(m.chain, r.p, r.n);
    hide InsertAfter, Adj, WellFormed;
  }

  lemma OwnAddJoins(m: Memory, r: Running)
    requires !r.op.Remove? && r.pc in {Write4} && MoveAdd(m, r).Some?
    requires WellFormed(m.chain) && Place(m.chain, r) && Cells(m, r) && Holds(r) <= m.flags && Reads(m, r)
    ensures OwnKept(m, r, MoveAdd(m, r).value)
  {
    Inserted(m.chain, r.p, r.n, r.op.e);
    AdjMembers(m.chain, r.p, r.n);
    hide InsertAfter, Adj, WellFormed, Reads;
  }

  lemma OwnAddCounts(m: Memory, r: Running)
    requires !r.op.Remove? && r.pc in {LockHeader, ReadCount} && MoveAdd(m, r).Some?
    requires WellFormed(m.chain) && Place(m.chain, r) && Cells(m, r) && Holds(r) <= m.flags && Reads(m, r)
    ensures OwnKept(m, r, MoveAdd(m, r).value)
  {
    hide InsertAfter, Adj, WellFormed;
  }

  lemma OwnAddTallies(m: Memory, r: Running)
    requires !r.op.Remove? && r.pc in {WriteCount, UnlockHeader} && MoveAdd(m, r).Some?
    requires WellFormed(m.chain) && Place(m.chain, r) && Cells(m, r) && Holds(r) <= m.flags && Reads(m, r)
    ensures OwnKept(m, r, MoveAdd(m, r).value)
  {
    hide InsertAfter, Adj, WellFormed;
  }

  lemma OwnAddUnlocks(m: Memory, r: Running)
    requires !r.op.Remove? && r.pc in {UnlockSecond, UnlockFirst} && MoveAdd(m, r).Some?
    requires WellFormed(m.chain) && Place(m.chain, r) && Cells(m, r) && Holds(r) <= m.flags && Reads(m, r)
    ensures OwnKept(m, r, MoveAdd(m, r).value)
  {
    hide InsertAfter, Adj, WellFormed;
  }

  lemma OwnRemoveLocks(m: Memory, r: Running)
    requires r.op.Remove? && r.pc in {LockOwnNext, LockOwnPrev, ReadNext, ReadPrev} && MoveRemove(m, r).Some?
    requires WellFormed(m.chain) && Place(m.chain, r) && Cells(m, r) && Holds(r) <= m.flags && Reads(m, r)
    ensures OwnKept(m, r, MoveRemove(m, r).value)
  {
    hide Delete, Adj, WellFormed;
  }

  lemma OwnRemoveMoreLocks(m: Memory, r: Running)
    requires r.op.Remove? && r.pc in {LockNextsPrev, LockPrevsNext} && MoveRemove(m, r).Some?
    requires WellFormed(m.chain) && Place(m.chain, r) && Cells(m, r) && Holds(r) <= m.flags && Reads(m, r)
    ensures OwnKept(m, r, MoveRemove(m, r).value)
  {
    AdjIn(m.chain, r.op.e, r.n);
    AdjIn(m.chain, r.p, r.op.e);
    hide Delete, Adj, WellFormed;
  }

  lemma OwnRemoveLinks(m: Memory, r: Running)
    requires r.op.Remove? && r.pc in {LinkBack} && MoveRemove(m, r).Some?
    requires WellFormed(m.chain) && Place(m.chain, r) && Cells(m, r) && Holds(r) <= m.flags && Reads(m, r)
    ensures OwnKept(m, r, MoveRemove(m, r).value)
  {
    AdjMembers(m.chain, r.p, r.op.e);
    AdjMembers(m.chain, r.op.e, r.n);
    hide Delete, Adj, WellFormed;
  }

  lemma OwnRemoveLeaves(m: Memory, r: Running)
    requires r.op.Remove? && r.pc in {LinkForth} && MoveRemove(m, r).Some?
    requires WellFormed(m.chain) && Place(m.chain, r) && Cells(m, r) && Holds(r) <= m.flags && Reads(m, r)
    ensures OwnKept(m, r, MoveRemove(m, r).value)
  {
    Deleted(m.chain, r.p, r.op.e, r.n);
    AdjMembers(m.chain, r.p, r.op.e);
    AdjMembers(m.chain, r.op.e, r.n);
    hide Delete, Adj, WellFormed;
  }

  lemma OwnRemoveResets(m: Memory, r: Running)
    requires r.op.Remove? && r.pc in {Reset} && MoveRemove(m, r).Some?
    requires WellFormed(m.chain) && Place(m.chain, r) && Cells(m, r) && Holds(r) <= m.flags && Reads(m, r)
    ensures OwnKept(m, r, MoveRemove(m, r).value)
  {
    hide Delete, Adj, WellFormed;
  }

  lemma OwnRemoveCounts(m: Memory, r: Running)
    requires r.op.Remove? && r.pc in {LockHeader, ReadCount} && MoveRemove(m, r).Some?
    requires WellFormed(m.chain) && Place(m.chain, r) && Cells(m, r) && Holds(r) <= m.flags && Reads(m, r)
    ensures OwnKept(m, r, MoveRemove(m, r).value)
  {
    hide Delete, Adj, WellFormed;
  }

  lemma OwnRemoveTallies(m: Memory, r: Running)
    requires r.op.Remove? && r.pc in {WriteCount, UnlockHeader} && MoveRemove(m, r).Some?
    requires WellFormed(m.chain) && Place(m.chain, r) && Cells(m, r) && Holds(r) <= m.flags && Reads(m, r)
    ensures OwnKept(m, r, MoveRemove(m, r).value)
  {
    hide Delete, Adj, WellFormed;
  }

  lemma OwnRemoveUnlocks(m: Memory, r: Running)
    requires r.op.Remove? && r.pc in {UnlockPrevsNext, UnlockNextsPrev, UnlockOwnPrev, UnlockOwnNext} && MoveRemove(m, r).Some?
    requires WellFormed(m.chain) && Place(m.chain, r) && Cells(m, r) && Holds(r) <= m.flags && Reads(m, r)
    ensures OwnKept(m, r, MoveRemove(m, r).value)
  {
    hide Delete, Adj, WellFormed, Reads;
  }

  /** Two operations that cannot disturb each other: no shared flag, no shared element. */
  ghost predicate Apart(r: Running, u: Running) {
    Holds(r) !! Holds(u) && r.op.e != u.op.e && (!u.op.Remove? ==> u.op.at != r.op.e)
  }

  /** The facts a thread relies on survive when its neighbours do. */
  lemma PlaceFrame(c: seq<Node>, c2: seq<Node>, u: Running)
    requires Place(c, u) && (u.op.e in c <==> u.op.e in c2)
    requires !u.op.Remove? && u.op.at in c ==> u.op.at in c2
    requires !u.op.Remove? && u.pc in {LockSecond, Write1, Write2, Write3, Write4} ==> Adj(c2, u.p, u.n)
    requires u.op.Remove? && u.pc in {ReadPrev, LockNextsPrev, LockPrevsNext, LinkBack, LinkForth} ==> Adj(c2, u.op.e, u.n)
    requires u.op.Remove? && u.pc in {LockNextsPrev, LockPrevsNext, LinkBack, LinkForth} ==> Adj(c2, u.p, u.op.e)
    requires forall f :: f in Holds(u) && f.node in c ==> f == HEADER || f.node in c2
    ensures Place(c2, u)
  {
    hide Adj, Holds;
  }

  lemma StillAdj(c: seq<Node>, x: Node, y: Node, e: Node, a: Node, b: Node)
    requires WellFormed(c) && Adj(c, x, y) && e !in c
    ensures Adj(c, a, b) && (a != x || b != y) ==> Adj(InsertAfter(c, x, e), a, b)
  {
    InsertedAdj(c, x, y, e, a, b);
    if Adj(c, a, b) { AdjUnique(c, x, y, a, b); }
  }

  lemma JoinsFacts(m: Memory, r: Running, m2: Memory)
    requires WellFormed(m.chain) && Joins(m, r, m2)
    ensures Adj(m.chain, r.p, r.n) && r.op.e !in m.chain && r.p in m.chain && m2.chain == InsertAfter(m.chain, r.p, r.op.e)
    ensures forall z :: z in m2.chain <==> z in m.chain || z == r.op.e
  {
    forall z ensures z in m2.chain <==> z in m.chain || z == r.op.e { IndexInserted(m.chain, r.p, r.op.e, z); }
  }

  /** Whoever relies on a link does not rely on the one that is being split. */
  lemma JoinsApart(m: Memory, r: Running, m2: Memory, u: Running)
    requires Joins(m, r, m2) && Apart(r, u) && Place(m.chain, u)
    ensures u.op.e != r.op.e
    ensures !u.op.Remove? && u.pc in {LockSecond, Write1, Write2, Write3, Write4} ==>
              Adj(m.chain, u.p, u.n) && (u.p != r.p || u.n != r.n)
    ensures u.op.Remove? && u.pc in {ReadPrev, LockNextsPrev, LockPrevsNext, LinkBack, LinkForth} ==>
              Adj(m.chain, u.op.e, u.n) && u.op.e != r.p
    ensures u.op.Remove? && u.pc in {LockNextsPrev, LockPrevsNext, LinkBack, LinkForth} ==>
              Adj(m.chain, u.p, u.op.e) && u.op.e != r.n
  {
    hide Adj, InsertAfter;
  }

  lemma OtherJoins(m: Memory, r: Running, m2: Memory, u: Running)
    requires WellFormed(m.chain) && Joins(m, r, m2) && Apart(r, u) && Place(m.chain, u)
    ensures Place(m2.chain, u)
  {
    hide *;
    JoinsFacts(m, r, m2);
    StillAdj(m.chain, r.p, r.n, r.op.e, u.p, u.n);
    StillAdj(m.chain, r.p, r.n, r.op.e, u.op.e, u.n);
    StillAdj(m.chain, r.p, r.n, r.op.e, u.p, u.op.e);
    JoinsApart(m, r, m2, u);
    PlaceFrame(m.chain, m2.chain, u);
  }

  lemma LeavesFacts(m: Memory, r: Running, m2: Memory)
    requires WellFormed(m.chain) && Leaves(m, r, m2)
    ensures Adj(m.chain, r.p, r.op.e) && Adj(m.chain, r.op.e, r.n) && r.op.e in m.chain && m2.chain == Delete(m.chain, r.op.e)
    ensures forall z :: z in m2.chain <==> z in m.chain && z != r.op.e
    ensures forall a, b :: Adj(m2.chain, a, b) <==> (Adj(m.chain, a, b) && a != r.op.e && b != r.op.e) || (a == r.p && b == r.n)
  {
    Deleted(m.chain, r.p, r.op.e, r.n);
  }

  /** Nobody else relies on the element that leaves. */
  lemma LeavesApart(m: Memory, r: Running, m2: Memory, u: Running)
    requires Leaves(m, r, m2) && Apart(r, u) && Place(m.chain, u)
    ensures u.op.e != r.op.e && (!u.op.Remove? ==> u.op.at != r.op.e)
    ensures !u.op.Remove? && u.pc in {LockSecond, Write1, Write2, Write3, Write4} ==>
              Adj(m.chain, u.p, u.n) && u.p != r.op.e && u.n != r.op.e
    ensures u.op.Remove? && u.pc in {ReadPrev, LockNextsPrev, LockPrevsNext, LinkBack, LinkForth} ==>
              Adj(m.chain, u.op.e, u.n) && u.n != r.op.e
    ensures u.op.Remove? && u.pc in {LockNextsPrev, LockPrevsNext, LinkBack, LinkForth} ==>
              Adj(m.chain, u.p, u.op.e) && u.p != r.op.e
    ensures forall f :: f in Holds(u) && f != HEADER ==> f.node != r.op.e
  {
    var e := r.op.e;
    if Adj(m.chain, u.p, u.n) { AdjUnique(m.chain, r.p, e, u.p, u.n); AdjUnique(m.chain, e, r.n, u.p, u.n); }
    if Adj(m.chain, u.op.e, u.n) { AdjUnique(m.chain, r.p, e, u.op.e, u.n); }
    if Adj(m.chain, u.p, u.op.e) { AdjUnique(m.chain, e, r.n, u.p, u.op.e); }
    hide Adj, Delete;
  }

  lemma OtherLeaves(m: Memory, r: Running, m2: Memory, u: Running)
    requires WellFormed(m.chain) && Leaves(m, r, m2) && Apart(r, u) && Place(m.chain, u)
    ensures Place(m2.chain, u)
  {
    hide *;
    LeavesFacts(m, r, m2);
    LeavesApart(m, r, m2, u);
    PlaceFrame(m.chain, m2.chain, u);
  }

  lemma OtherCells(m: Memory, r: Running, m2: Memory, u: Running)
    requires Frame(m, r, m2) && Apart(r, u) && Place(m.chain, r) && Place(m.chain, u) && Cells(m, u)
    ensures Cells(m2, u)
  {
    hide Delete, InsertAfter, Adj, WellFormed;
  }

  /** A link with a free flag is in order, and so is one whose flag is held by an operation that is not rewriting it. */
  lemma LinkInOrder(s: State, x: Node, y: Node, t: Thread)
    requires FlagsOk(s) && LocalsOk(s) && LinksOk(s) && Adj(s.mem.chain, x, y)
    requires
      || Flag(x, Next) !in s.mem.flags || Flag(y, Prev) !in s.mem.flags
      || (t in s.threads && !Mid(s.threads[t], x, y) &&
          (Flag(x, Next) in Holds(s.threads[t]) || Flag(y, Prev) in Holds(s.threads[t])))
    ensures LinkOk(s.mem, x, y)
  {
    hide Adj, Holds, Cells;
    if !LinkOk(s.mem, x, y) {
      var u :| u in s.threads && Mid(s.threads[u], x, y);
      MidHolds(s.threads[u], x, y);
    }
  }

  lemma MidHolds(r: Running, x: Node, y: Node)
    requires Mid(r, x, y) && (r.op.AddAfter? ==> r.op.at == r.p) && (r.op.AddBefore? ==> r.op.at == r.n)
    ensures Flag(x, Next) in Holds(r) && Flag(y, Prev) in Holds(r)
  {}

  /** The neighbours a step reads are the current ones: the flag it holds keeps them so. */
  lemma ReadsReady(s: State, t: Thread)
    requires Inv(s) && t in s.threads
    ensures Reads(s.mem, s.threads[t])
  {
    hide Adj, Distinct, FlagsOk, LinksOk, CountOk, PairsOk, Cells;
    var r, c := s.threads[t], s.mem.chain;
    if r.pc == ReadFirst && r.op.AddAfter? {
      var y := HasNext(c, r.op.at);
      LinkInOrder(s, r.op.at, y, t);
    } else if r.pc == ReadFirst && r.op.AddBefore? {
      var x := HasPrev(c, r.op.at);
      LinkInOrder(s, x, r.op.at, t);
    } else if r.pc == ReadNext {
      var y := HasNext(c, r.op.e);
      LinkInOrder(s, r.op.e, y, t);
    } else if r.pc == ReadPrev {
      var x := HasPrev(c, r.op.e);
      LinkInOrder(s, x, r.op.e, t);
    }
  }

  /** The link from x to y after a step: in order, or the one the step is rewriting. */
  ghost predicate LinkKept(v: Moved, x: Node, y: Node) {
    LinkOk(v.mem, x, y) || (v.rest.Some? && Mid(v.rest.value, x, y))
  }

  lemma AddLinksQuiet(m: Memory, r: Running, x: Node, y: Node)
    requires !r.op.Remove? && MoveAdd(m, r).Some? && Place(m.chain, r)
    requires !(r.pc in {Write1, Write2, Write3, Write4})
    requires Adj(m.chain, x, y) && LinkOk(m, x, y)
    ensures LinkKept(MoveAdd(m, r).value, x, y)
  {
    AdjIn(m.chain, x, y);
    hide Adj, Holds;
  }

  lemma AddLinksWrite(m: Memory, r: Running, x: Node, y: Node)
    requires !r.op.Remove? && Place(m.chain, r) && r.pc in {Write1, Write2, Write3} && Cells(m, r)
    requires Adj(m.chain, x, y) && (LinkOk(m, x, y) || Mid(r, x, y))
    ensures LinkKept(MoveAdd(m, r).value, x, y)
  {
    AdjIn(m.chain, x, y);
    AdjUnique(m.chain, r.p, r.n, x, y);
    hide Adj, Holds;
  }

  lemma AddLinksJoin(m: Memory, r: Running, x: Node, y: Node)
    requires !r.op.Remove? && WellFormed(m.chain) && Place(m.chain, r) && r.pc == Write4 && Cells(m, r)
    requires Adj(MoveAdd(m, r).value.mem.chain, x, y)
    requires Adj(m.chain, x, y) ==> LinkOk(m, x, y) || Mid(r, x, y)
    ensures LinkKept(MoveAdd(m, r).value, x, y)
  {
    InsertedAdj(m.chain, r.p, r.n, r.op.e, x, y);
    AdjIn(m.chain, r.p, r.n);
    AdjIn(m.chain, x, y);
    AdjMembers(m.chain, r.p, r.n);
    hide Adj, Holds, InsertAfter, WellFormed;
  }

  /** A link in order stays so, or is the one the step is rewriting; new links are in order. */
  lemma AddLinks(m: Memory, r: Running, x: Node, y: Node)
    requires !r.op.Remove? && MoveAdd(m, r).Some? && WellFormed(m.chain) && Place(m.chain, r) && Cells(m, r)
    requires Adj(MoveAdd(m, r).value.mem.chain, x, y)
    requires Adj(m.chain, x, y) ==> LinkOk(m, x, y) || Mid(r, x, y)
    ensures LinkKept(MoveAdd(m, r).value, x, y)
  {
    hide Adj, Holds, InsertAfter, WellFormed, Place, Cells, LinkOk, LinkKept;
    if r.pc == Write4 {
      AddLinksJoin(m, r, x, y);
    } else if r.pc in {Write1, Write2, Write3} {
      AddLinksWrite(m, r, x, y);
    } else {
      AddLinksQuiet(m, r, x, y);
    }
  }

  lemma RemoveLinksLeave(m: Memory, r: Running, x: Node, y: Node)
    requires r.op.Remove? && WellFormed(m.chain) && Place(m.chain, r) && r.pc == LinkForth && Cells(m, r)
    requires Adj(MoveRemove(m, r).value.mem.chain, x, y)
    requires Adj(m.chain, x, y) ==> LinkOk(m, x, y) || Mid(r, x, y)
    ensures LinkKept(MoveRemove(m, r).value, x, y)
  {
    DeletedAdj(m.chain, r.p, r.op.e, r.n, x, y);
    if Adj(m.chain, x, y) { AdjUnique(m.chain, r.p, r.op.e, x, y); }
    hide Adj, Holds, Delete, WellFormed;
  }

  lemma RemoveLinksOther(m: Memory, r: Running, x: Node, y: Node)
    requires r.op.Remove? && MoveRemove(m, r).Some? && Place(m.chain, r) && r.pc != LinkForth
    requires Adj(m.chain, x, y) && LinkOk(m, x, y)
    ensures LinkKept(MoveRemove(m, r).value, x, y)
  {
    AdjIn(m.chain, x, y);
    if r.pc == LinkBack { AdjUnique(m.chain, r.op.e, r.n, x, y); }
    hide Adj, Holds;
  }

  lemma RemoveLinks(m: Memory, r: Running, x: Node, y: Node)
    requires r.op.Remove? && MoveRemove(m, r).Some? && WellFormed(m.chain) && Place(m.chain, r) && Cells(m, r)
    requires Adj(MoveRemove(m, r).value.mem.chain, x, y)
    requires Adj(m.chain, x, y) ==> LinkOk(m, x, y) || Mid(r, x, y)
    ensures LinkKept(MoveRemove(m, r).value, x, y)
  {
    hide Adj, Holds, Delete, WellFormed, Place, Cells, LinkOk, LinkKept;
    if r.pc == LinkForth {
      RemoveLinksLeave(m, r, x, y);
    } else {
      RemoveLinksOther(m, r, x, y);
    }
  }

  // ----- whole states -----

  lemma OwnMove(m: Memory, r: Running)
    requires Move(m, r).Some?
    requires WellFormed(m.chain) && Place(m.chain, r) && Cells(m, r) && Holds(r) <= m.flags && Reads(m, r)
    ensures OwnKept(m, r, Move(m, r).value) && Frame(m, r, Move(m, r).value.mem)
  {
    hide Place, Cells, Holds, WellFormed, Reads, OwnKept, Frame;
    if r.op.Remove? {
      FrameRemove(m, r);
      if r.pc in {LockOwnNext, LockOwnPrev, ReadNext, ReadPrev} { OwnRemoveLocks(m, r); }
      else if r.pc in {LockNextsPrev, LockPrevsNext} { OwnRemoveMoreLocks(m, r); }
      else if r.pc == LinkBack { OwnRemoveLinks(m, r); }
      else if r.pc == LinkForth { OwnRemoveLeaves(m, r); }
      else if r.pc == Reset { OwnRemoveResets(m, r); }
      else if r.pc in {LockHeader, ReadCount} { OwnRemoveCounts(m, r); }
      else if r.pc in {WriteCount, UnlockHeader} { OwnRemoveTallies(m, r); }
      else { OwnRemoveUnlocks(m, r); }
    } else {
      FrameAdd(m, r);
      if r.pc in {Init, LockFirst, ReadFirst, LockSecond} { OwnAddLocks(m, r); }
      else if r.pc in {Write1, Write2} { OwnAddWrites(m, r); }
      else if r.pc == Write3 { OwnAddPoints(m, r); }
      else if r.pc == Write4 { OwnAddJoins(m, r); }
      else if r.pc in {LockHeader, ReadCount} { OwnAddCounts(m, r); }
      else if r.pc in {WriteCount, UnlockHeader} { OwnAddTallies(m, r); }
      else { OwnAddUnlocks(m, r); }
    }
  }

  lemma ThreadsApart(s: State, t: Thread, u: Thread)
    requires FlagsOk(s) && PairsOk(s) && t in s.threads && u in s.threads && t != u
    ensures Apart(s.threads[t], s.threads[u])
  {
    hide Holds;
  }

  /** The step of one thread as the state sees it. */
  lemma OthersKept(s: State, t: Thread, u: Thread)
    requires Inv(s) && t in s.threads && Move(s.mem, s.threads[t]).Some? && u in s.threads && u != t
    ensures var m2 := Move(s.mem, s.threads[t]).value.mem;
            Place(m2.chain, s.threads[u]) && Cells(m2, s.threads[u]) && Holds(s.threads[u]) <= m2.flags
  {
    hide Move, Holds, Place, Cells, WellFormed, LinksOk, CountOk, Adj, Joins, Leaves;
    var r, m2 := s.threads[t], Move(s.mem, s.threads[t]).value.mem;
    ReadsReady(s, t);
    OwnMove(s.mem, r);
    ThreadsApart(s, t, u);
    OtherCells(s.mem, r, m2, s.threads[u]);
    OtherFlags(s.mem, r, m2, s.threads[u]);
    if Joins(s.mem, r, m2) {
      OtherJoins(s.mem, r, m2, s.threads[u]);
    } else if Leaves(s.mem, r, m2) {
      OtherLeaves(s.mem, r, m2, s.threads[u]);
    }
  }

  lemma OtherFlags(m: Memory, r: Running, m2: Memory, u: Running)
    requires Frame(m, r, m2) && Apart(r, u) && Place(m.chain, u) && Holds(u) <= m.flags
    ensures Holds(u) <= m2.flags
  {
    hide Holds, Joins, Leaves;
  }

  lemma StepLocals(s: State, t: Thread)
    requires Inv(s) && Enabled(s, Step(t))
    ensures var s2 := Do(s, Step(t)); LocalsOk(s2) && FlagsOk(s2) && PairsOk(s2)
  {
    hide Move, Holds, Place, Cells, WellFormed, LinksOk, CountOk, Frame;
    var r, s2 := s.threads[t], Do(s, Step(t));
    ReadsReady(s, t);
    OwnMove(s.mem, r);
    forall u | u in s.threads && u != t
      ensures Place(s2.mem.chain, s.threads[u]) && Cells(s2.mem, s.threads[u]) && Holds(s.threads[u]) <= s2.mem.flags
    {
      OthersKept(s, t, u);
    }
  }

  lemma StepLinks(s: State, t: Thread)
    requires Inv(s) && Enabled(s, Step(t))
    ensures LinksOk(Do(s, Step(t)))
  {
    hide Place, Cells, Holds, LinkOk, Mid, Adj, WellFormed, FlagsOk, PairsOk, CountOk, MoveAdd, MoveRemove;
    var r, s2 := s.threads[t], Do(s, Step(t));
    forall x, y | Adj(s2.mem.chain, x, y)
      ensures LinkOk(s2.mem, x, y) || exists u :: u in s2.threads && Mid(s2.threads[u], x, y)
    {
      if u :| u in s.threads && u != t && Mid(s.threads[u], x, y) {
        assert u in s2.threads && s2.threads[u] == s.threads[u];
      } else {
        if r.op.Remove? { RemoveLinks(s.mem, r, x, y); } else { AddLinks(s.mem, r, x, y); }
        KeptHere(s2, t, Move(s.mem, r).value, x, y);
      }
    }
  }

  lemma KeptHere(s2: State, t: Thread, v: Moved, x: Node, y: Node)
    requires s2.mem == v.mem && LinkKept(v, x, y)
    requires v.rest.Some? ==> t in s2.threads && s2.threads[t] == v.rest.value
    ensures LinkOk(s2.mem, x, y) || exists u :: u in s2.threads && Mid(s2.threads[u], x, y)
  {
    hide LinkOk, Mid;
  }

  /** What the count depends on. */
  lemma CountFacts(m: Memory, r: Running)
    requires Place(m.chain, r) && Cells(m, r)
    ensures if r.op.Remove? then RemovingPc(r.pc) else AddingPc(r.pc)
    ensures r.pc == Write4 ==> r.p in m.chain
    ensures r.pc == LinkForth ==> r.op.e in m.chain
    ensures r.pc == WriteCount ==> r.seen == m.count
  {
    AdjIn(m.chain, r.p, r.n);
    hide Adj, Holds;
  }

  lemma CountMoveAdd(m: Memory, r: Running)
    requires !r.op.Remove? && MoveAdd(m, r).Some? && Place(m.chain, r) && Cells(m, r)
    ensures var v := MoveAdd(m, r).value;
            v.mem.count - |v.mem.chain| + (if v.rest.Some? then Owes(v.rest.value) else 0) == m.count - |m.chain| + Owes(r)
  {
    hide InsertAfter, Place, Cells;
    CountFacts(m, r);
  }

  lemma CountMoveRemove(m: Memory, r: Running)
    requires r.op.Remove? && MoveRemove(m, r).Some? && Place(m.chain, r) && Cells(m, r)
    ensures var v := MoveRemove(m, r).value;
            v.mem.count - |v.mem.chain| + (if v.rest.Some? then Owes(v.rest.value) else 0) == m.count - |m.chain| + Owes(r)
  {
    hide Delete, Place, Cells;
    CountFacts(m, r);
  }

  lemma CountMove(m: Memory, r: Running)
    requires Move(m, r).Some? && Place(m.chain, r) && Cells(m, r)
    ensures var v := Move(m, r).value;
            v.mem.count - |v.mem.chain| + (if v.rest.Some? then Owes(v.rest.value) else 0) == m.count - |m.chain| + Owes(r)
  {
    hide MoveAdd, MoveRemove, Place, Cells, Owes;
    if r.op.Remove? { CountMoveRemove(m, r); } else { CountMoveAdd(m, r); }
  }

  /** The two states differ in the operation of t at most. */
  ghost predicate Elsewhere(s: State, t: Thread, s2: State) {
    s.threads - {t} == s2.threads - {t}
  }

  function OwedBy(s: State, t: Thread): int {
    if t in s.threads then Owes(s.threads[t]) else 0
  }

  lemma UncountedElsewhere(s: State, t: Thread, s2: State)
    requires Elsewhere(s, t, s2)
    ensures Uncounted(s2) - {t} == Uncounted(s) - {t} && Overcounted(s2) - {t} == Overcounted(s) - {t}
  {
    hide Owes;
    forall u | u != t
      ensures u in Uncounted(s2) <==> u in Uncounted(s)
      ensures u in Overcounted(s2) <==> u in Overcounted(s)
    {
      assert u in s.threads <==> u in s.threads - {t};
      assert u in s2.threads <==> u in s2.threads - {t};
      assert u in s.threads ==> s.threads[u] == (s.threads - {t})[u];
      assert u in s2.threads ==> s2.threads[u] == (s2.threads - {t})[u];
    }
  }

  lemma OwedSets(s: State, t: Thread, s2: State)
    requires Elsewhere(s, t, s2)
    ensures |Uncounted(s2)| - |Overcounted(s2)| - OwedBy(s2, t) == |Uncounted(s)| - |Overcounted(s)| - OwedBy(s, t)
  {
    UncountedElsewhere(s, t, s2);
    OwedHere(s, t);
    OwedHere(s2, t);
    hide *;
  }

  lemma OwedHere(s: State, t: Thread)
    ensures |Uncounted(s)| - |Overcounted(s)| == |Uncounted(s) - {t}| - |Overcounted(s) - {t}| + OwedBy(s, t)
  {
    if t in s.threads { OwesRange(s.threads[t]); }
    hide Owes;
    CardWithout(Uncounted(s), t);
    CardWithout(Overcounted(s), t);
  }

  lemma OwesRange(r: Running)
    ensures -1 <= Owes(r) <= 1
  {}

  lemma CardWithout(a: set<Thread>, t: Thread)
    ensures |a| == |a - {t}| + if t in a then 1 else 0
  {
    if t !in a { assert a - {t} == a; }
  }

  lemma StepCount(s: State, t: Thread)
    requires Inv(s) && Enabled(s, Step(t))
    ensures CountOk(Do(s, Step(t)))
  {
    hide Move, Place, Cells, Holds, WellFormed, FlagsOk, PairsOk, LinksOk, Uncounted, Overcounted, Owes;
    var s2 := Do(s, Step(t));
    CountMove(s.mem, s.threads[t]);
    assert s.threads - {t} == s2.threads - {t};
    OwedSets(s, t, s2);
  }

  /** Everything that is in the list is marked as listed in it. */
  lemma StepListed(s: State, t: Thread)
    requires Inv(s) && Enabled(s, Step(t))
    ensures var m2 := Do(s, Step(t)).mem;
      && WellFormed(m2.chain) && NIL !in m2.chain
      && forall x :: x in m2.chain && x != HEAD && x != TAIL ==> x in m2.listed
  {
    hide Move, Holds, PairsOk, LinksOk, CountOk, Adj, WellFormed, InsertAfter, Delete;
    var r, m, m2 := s.threads[t], s.mem, Do(s, Step(t)).mem;
    ReadsReady(s, t);
    OwnMove(m, r);
    if Joins(m, r, m2) {
      Inserted(m.chain, r.p, r.n, r.op.e);
    } else if Leaves(m, r, m2) {
      Deleted(m.chain, r.p, r.op.e, r.n);
    }
    ListedMove(m, r);
  }

  lemma ListedFacts(m: Memory, r: Running)
    requires Place(m.chain, r) && Cells(m, r)
    ensures !r.op.Remove? && r.pc != Init ==> r.op.e in m.listed
    ensures r.pc == Reset ==> r.op.e !in m.chain
    ensures r.op.Remove? && r.pc == LinkForth ==> Adj(m.chain, r.p, r.op.e) && Adj(m.chain, r.op.e, r.n)
    ensures if r.op.Remove? then RemovingPc(r.pc) else AddingPc(r.pc)
  {
    hide Adj, Holds;
  }

  lemma ListedMove(m: Memory, r: Running)
    requires Move(m, r).Some? && Place(m.chain, r) && Cells(m, r)
    requires WellFormed(m.chain) && (r.op.e in m.chain ==> r.op.e in m.listed)
    ensures var m2 := Move(m, r).value.mem; r.op.e in m2.chain ==> r.op.e in m2.listed
  {
    hide InsertAfter, Delete, Adj, Place, Cells, WellFormed;
    ListedFacts(m, r);
    if r.op.Remove? && r.pc == LinkForth { Deleted(m.chain, r.p, r.op.e, r.n); }
  }

  lemma StartPlace(s: State, op: Op, r: Running)
    requires Inv(s) && CanBegin(s, op)
    requires r == Running(op, if op.Remove? then LockOwnNext else Init, NIL, NIL, 0)
    ensures Place(s.mem.chain, r) && Cells(s.mem, r) && Holds(r) == {} && Owes(r) == 0
    ensures forall x, y :: !Mid(r, x, y)
  {
    hide Adj, WellFormed, FlagsOk, PairsOk, LocalsOk, LinksOk, CountOk;
  }

  lemma StartThreads(s: State, t: Thread, op: Op)
    requires FlagsOk(s) && PairsOk(s) && LocalsOk(s) && Enabled(s, Start(t, op))
    requires var r := Do(s, Start(t, op)).threads[t]; Place(s.mem.chain, r) && Cells(s.mem, r) && Holds(r) == {}
    ensures var s2 := Do(s, Start(t, op)); FlagsOk(s2) && PairsOk(s2) && LocalsOk(s2)
  {
    AnchorsBusy(s, op);
    hide Place, Cells, Holds, WellFormed;
  }

  /** No running add names the element of a new operation. */
  lemma AnchorsBusy(s: State, op: Op)
    requires LocalsOk(s) && CanBegin(s, op)
    ensures forall u :: u in s.threads && !s.threads[u].op.Remove? ==> s.threads[u].op.at != op.e
  {
    hide Cells, Holds, Adj;
  }

  lemma StartLinks(s: State, t: Thread, op: Op)
    requires LinksOk(s) && Enabled(s, Start(t, op))
    ensures LinksOk(Do(s, Start(t, op)))
  {
    hide LinkOk, Mid, Adj, CanBegin;
    var s2 := Do(s, Start(t, op));
    forall x, y | Adj(s2.mem.chain, x, y)
      ensures LinkOk(s2.mem, x, y) || exists u :: u in s2.threads && Mid(s2.threads[u], x, y)
    {
      if u :| u in s.threads && Mid(s.threads[u], x, y) {
        assert u in s2.threads && s2.threads[u] == s.threads[u];
      }
    }
  }

  lemma StartCount(s: State, t: Thread, op: Op)
    requires CountOk(s) && Enabled(s, Start(t, op)) && Owes(Do(s, Start(t, op)).threads[t]) == 0
    ensures CountOk(Do(s, Start(t, op)))
  {
    hide CanBegin, Owes, Uncounted, Overcounted;
    var s2 := Do(s, Start(t, op));
    assert s.threads - {t} == s2.threads - {t};
    OwedSets(s, t, s2);
  }

  lemma StartKept(s: State, t: Thread, op: Op)
    requires Inv(s) && Enabled(s, Start(t, op))
    ensures Inv(Do(s, Start(t, op)))
  {
    hide FlagsOk, PairsOk, LocalsOk, LinksOk, CountOk, WellFormed, CanBegin, Place, Cells, Holds, Owes;
    StartPlace(s, op, Do(s, Start(t, op)).threads[t]);
    StartThreads(s, t, op);
    StartLinks(s, t, op);
    StartCount(s, t, op);
  }

  /** Every action of every thread keeps the invariant. */
  lemma ActionKept(s: State, a: Action)
    requires Inv(s) && Enabled(s, a)
    ensures Inv(Do(s, a))
  {
    match a
    case Start(t, op) => StartKept(s, t, op);
    case Step(t) =>
      hide FlagsOk, PairsOk, LocalsOk, LinksOk, CountOk, Do, WellFormed;
      StepLocals(s, t);
      StepLinks(s, t);
      StepCount(s, t);
      StepListed(s, t);
  }

  /** LIST_header_init, with no operation running. */
  function Initial(): State {
    State(Memory(map[HEAD := TAIL, TAIL := HEAD], map[HEAD := TAIL, TAIL := HEAD], {}, {}, 0, [HEAD, TAIL]), map[])
  }

  lemma InitialInv()
    ensures Inv(Initial())
  {
    var s := Initial();
    assert s.mem.chain[1..] == [TAIL];
    forall x, y | Adj(s.mem.chain, x, y) ensures x == HEAD && y == TAIL {
      AdjMembers(s.mem.chain, x, y);
    }
    assert Uncounted(s) == {} && Overcounted(s) == {};
  }

  /** The state after the given actions in this order, if each could be taken. */
  function Exec(s: State, acts: seq<Action>): Option<State>
    decreases |acts|
  {
    if acts == [] then Some(s)
    else if Enabled(s, acts[0]) then Exec(Do(s, acts[0]), acts[1..])
    else None
  }

  /** What the callers have asked for: elements whose latest operation is an add. */
  function Wanted(acts: seq<Action>, wanted: set<Node>): set<Node>
    decreases |acts|
  {
    if acts == [] then wanted
    else
      var next := match acts[0]
                  case Step(_) => wanted
                  case Start(_, op) => if op.Remove? then wanted - {op.e} else wanted + {op.e};
      Wanted(acts[1..], next)
  }

  /** The elements of running operations. */
  function Busy(s: State): set<Node> {
    set t | t in s.threads :: s.threads[t].op.e
  }

  /** Elements at rest are in the list exactly when they are wanted there. */
  ghost predicate Settled(s: State, wanted: set<Node>) {
    && (forall e :: e != HEAD && e != TAIL && e !in Busy(s) ==> (e in s.mem.chain <==> e in wanted))
    && (forall u :: u in s.threads ==> (s.threads[u].op.e in wanted <==> !s.threads[u].op.Remove?))
  }

  lemma SettledStep(s: State, t: Thread, wanted: set<Node>)
    requires Inv(s) && Enabled(s, Step(t)) && Settled(s, wanted)
    ensures Settled(Do(s, Step(t)), wanted)
  {
    var r, s2 := s.threads[t], Do(s, Step(t));
    hide *;
    InvHere(s, t);
    ReadsReady(s, t);
    OwnMove(s.mem, r);
    DoneJoined(s.mem, r);
    ChainElsewhere(s.mem, r, s2.mem);
    BusyStep(s, t);
    SettledThreads(s, t, wanted);
  }

  /** The thread that steps, as the invariant sees it. */
  lemma InvHere(s: State, t: Thread)
    requires Inv(s) && Enabled(s, Step(t))
    ensures var r, m := s.threads[t], s.mem;
      && Move(m, r).Some? && WellFormed(m.chain) && Place(m.chain, r) && Cells(m, r) && Holds(r) <= m.flags
      && Do(s, Step(t)).mem == Move(m, r).value.mem
  {}

  lemma BusyStep(s: State, t: Thread)
    requires Enabled(s, Step(t)) && Place(s.mem.chain, s.threads[t])
    ensures forall e :: e in Busy(s) ==>
      e in Busy(Do(s, Step(t))) || (e == s.threads[t].op.e && Move(s.mem, s.threads[t]).value.rest.None?)
  {
    DoneJoined(s.mem, s.threads[t]);
    hide Move, Place;
    var s2 := Do(s, Step(t));
    forall e | e in Busy(s)
      ensures e in Busy(s2) || (e == s.threads[t].op.e && Move(s.mem, s.threads[t]).value.rest.None?)
    {
      var u :| u in s.threads && s.threads[u].op.e == e;
      if u in s2.threads {
        assert s2.threads[u].op.e == e;
      }
    }
  }

  lemma SettledThreads(s: State, t: Thread, wanted: set<Node>)
    requires Enabled(s, Step(t)) && Settled(s, wanted) && Place(s.mem.chain, s.threads[t])
    requires
      var r, s2, v := s.threads[t], Do(s, Step(t)), Move(s.mem, s.threads[t]).value;
      && (forall e :: e != r.op.e ==> (e in s2.mem.chain <==> e in s.mem.chain))
      && (forall e :: e in Busy(s) ==> e in Busy(s2) || (e == r.op.e && v.rest.None?))
    ensures Settled(Do(s, Step(t)), wanted)
  {
    var r, s2 := s.threads[t], Do(s, Step(t));
    DoneJoined(s.mem, r);
    assert r.op.e in Busy(s);
    hide Move, Place;
    if t in s2.threads { assert s2.threads[t].op.e in Busy(s2); }
    hide Busy;
  }

  /** An operation that returns has done its work. */
  lemma DoneJoined(m: Memory, r: Running)
    requires Move(m, r).Some? && Place(m.chain, r)
    ensures var v := Move(m, r).value;
      && (v.rest.None? ==> v.mem.chain == m.chain && (r.op.e in m.chain <==> !r.op.Remove?))
      && (v.rest.Some? ==> v.rest.value.op == r.op)
  {
    hide Adj, Holds, InsertAfter, Delete;
  }

  lemma ChainElsewhere(m: Memory, r: Running, m2: Memory)
    requires WellFormed(m.chain) && Frame(m, r, m2)
    ensures forall e :: e != r.op.e ==> (e in m2.chain <==> e in m.chain)
  {
    if Joins(m, r, m2) {
      Inserted(m.chain, r.p, r.n, r.op.e);
    } else if Leaves(m, r, m2) {
      Deleted(m.chain, r.p, r.op.e, r.n);
    }
    hide Adj, Holds, InsertAfter, Delete;
  }

  lemma BusyStart(s: State, t: Thread, op: Op)
    requires Enabled(s, Start(t, op))
    ensures Busy(Do(s, Start(t, op))) == Busy(s) + {op.e} && op.e !in Busy(s)
  {
    var s2 := Do(s, Start(t, op));
    assert s2.threads[t].op.e == op.e;
    forall e | e in Busy(s) ensures e in Busy(s2) {
      var u :| u in s.threads && s.threads[u].op.e == e;
      assert s2.threads[u].op.e == e;
    }
  }

  lemma SettledStart(s: State, t: Thread, op: Op, wanted: set<Node>)
    requires Enabled(s, Start(t, op)) && Settled(s, wanted)
    ensures Settled(Do(s, Start(t, op)), if op.Remove? then wanted - {op.e} else wanted + {op.e})
  {
    BusyStart(s, t, op);
    var s2, wanted2 := Do(s, Start(t, op)), if op.Remove? then wanted - {op.e} else wanted + {op.e};
    forall u | u in s2.threads ensures s2.threads[u].op.e in wanted2 <==> !s2.threads[u].op.Remove? {
      if u != t { assert s2.threads[u] == s.threads[u] && s.threads[u].op.e != op.e; }
    }
    hide Busy, CanBegin;
  }

  lemma {:induction false} ExecKept(s: State, acts: seq<Action>, wanted: set<Node>)
    requires Inv(s) && Settled(s, wanted) && Exec(s, acts).Some?
    ensures Inv(Exec(s, acts).value) && Settled(Exec(s, acts).value, Wanted(acts, wanted))
    decreases |acts|
  {
    hide Inv, Settled, Do, Enabled;
    if acts != [] {
      ActionKept(s, acts[0]);
      match acts[0]
      case Start(t, op) =>
        SettledStart(s, t, op, wanted);
        ExecKept(Do(s, acts[0]), acts[1..], if op.Remove? then wanted - {op.e} else wanted + {op.e});
      case Step(t) =>
        SettledStep(s, t, wanted);
        ExecKept(Do(s, acts[0]), acts[1..], wanted);
    }
  }

  /** The flags as they are: every one that an operation has taken is set, and no two have taken the same. */
  ghost predicate FlagsExclusive(s: State) {
    && (forall t :: t in s.threads ==> Holds(s.threads[t]) <= s.mem.flags)
    && (forall t, u :: t in s.threads && u in s.threads && t != u ==> Holds(s.threads[t]) !! Holds(s.threads[u]))
  }

  /** A link with a free flag is in order. */
  ghost predicate FreeLinksInOrder(s: State) {
    forall x, y :: Adj(s.mem.chain, x, y) && (Flag(x, Next) !in s.mem.flags || Flag(y, Prev) !in s.mem.flags) ==>
      At(s.mem.next, x) == y && At(s.mem.prev, y) == x
  }

  /** Following next from the head, and prev from the tail, visits exactly c. */
  predicate Walks(m: Memory, c: seq<Node>) {
    && |c| >= 2 && c[0] == HEAD && c[|c| - 1] == TAIL
    && forall i :: 0 <= i < |c| - 1 ==> At(m.next, c[i]) == c[i + 1] && At(m.prev, c[i + 1]) == c[i]
  }

  /**
   Safety of the locked list in every interleaving of adds and removes on a list made by
   LIST_header_init: flags exclude each other, links with a free flag are in order, and whenever no
   operation is running the list holds exactly the elements that were added and not removed, the
   walks in both directions agree, and the count is the length.
   */
  lemma {:induction false} ListSafety(acts: seq<Action>)
    requires Exec(Initial(), acts).Some?
    ensures
      var s := Exec(Initial(), acts).value;
      && FlagsExclusive(s) && FreeLinksInOrder(s)
      && (s.threads == map[] ==>
            && Walks(s.mem, s.mem.chain) && Distinct(s.mem.chain)
            && s.mem.count == |s.mem.chain| - 2
            && forall e :: e != HEAD && e != TAIL ==> (e in s.mem.chain <==> e in Wanted(acts, {})))
  {
    InitialInv();
    InitialSettled();
    ExecKept(Initial(), acts, {});
    var s := Exec(Initial(), acts).value;
    LinksAreInOrder(s);
    hide Exec, Wanted, Adj, LinksOk, LocalsOk, Holds, FreeLinksInOrder, Index;
    if s.threads == map[] {
      RestWalks(s);
      RestCount(s);
      assert Busy(s) == {};
    }
  }

  lemma InitialSettled()
    ensures Settled(Initial(), {})
  {}

  lemma LinksAreInOrder(s: State)
    requires FlagsOk(s) && LocalsOk(s) && LinksOk(s)
    ensures FreeLinksInOrder(s)
  {
    forall x, y | Adj(s.mem.chain, x, y) && (Flag(x, Next) !in s.mem.flags || Flag(y, Prev) !in s.mem.flags)
      ensures At(s.mem.next, x) == y && At(s.mem.prev, y) == x
    {
      LinkInOrder(s, x, y, 0);
    }
  }

  lemma RestWalks(s: State)
    requires LinksOk(s) && WellFormed(s.mem.chain) && s.threads == map[]
    ensures Walks(s.mem, s.mem.chain)
  {
    hide Index;
    var c := s.mem.chain;
    forall i | 0 <= i < |c| - 1 ensures At(s.mem.next, c[i]) == c[i + 1] && At(s.mem.prev, c[i + 1]) == c[i] {
      IndexAt(c, i);
      IndexAt(c, i + 1);
      assert Adj(c, c[i], c[i + 1]);
    }
  }

  lemma RestCount(s: State)
    requires CountOk(s) && s.threads == map[]
    ensures s.mem.count == |s.mem.chain| - 2
  {
    assert Uncounted(s) == {} && Overcounted(s) == {};
  }

  /**
   What a step does to the order of the list: nothing, or it puts the element of an add right behind
   or right before the element the caller named, or it takes out the element of a remove.
   */
  lemma StepOrder(s: State, t: Thread)
    requires LocalsOk(s) && Enabled(s, Step(t))
    ensures
      var op, c, c2 := s.threads[t].op, s.mem.chain, Do(s, Step(t)).mem.chain;
      || c2 == c
      || (op.AddAfter? && op.e !in c && op.at in c && c2 == InsertAfter(c, op.at, op.e))
      || (op.AddBefore? && op.e !in c && exists p :: Adj(c, p, op.at) && c2 == InsertAfter(c, p, op.e))
      || (op.Remove? && op.e in c && c2 == Delete(c, op.e))
  {
    var r := s.threads[t];
    assert Place(s.mem.chain, r);
    MoveOrder(s.mem, r);
    hide Move, Adj, Place, InsertAfter, Delete, Cells;
  }

  lemma MoveOrder(m: Memory, r: Running)
    requires Place(m.chain, r) && Move(m, r).Some?
    ensures
      var op, c, c2 := r.op, m.chain, Move(m, r).value.mem.chain;
      || c2 == c
      || (op.AddAfter? && op.e !in c && op.at in c && c2 == InsertAfter(c, op.at, op.e))
      || (op.AddBefore? && op.e !in c && Adj(c, r.p, op.at) && c2 == InsertAfter(c, r.p, op.e))
      || (op.Remove? && op.e in c && c2 == Delete(c, op.e))
  {
    AdjIn(m.chain, r.p, r.n);
    AdjIn(m.chain, r.p, r.op.e);
    hide Adj, InsertAfter, Delete, Holds;
  }
}
