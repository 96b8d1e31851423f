/**
 Which stores lose a report of input, in the protocol of EventQueue. The word of pending events is not
 only changed under the lock, so a store can wipe out a bit set since its load, or revive one
 cleared since. Only some of these stores do harm; the theorems say which, and what comes of it.
 */
module EventLoss {
  import opened Bytes
  import opened Chain
  import opened EventQueue

  /** A registered watch for input, of a context without a signal callback. */
  predicate Kept(c: Config, i: Watch) {
    (i.Readable? || i.Pri?) && i in c.watches && !c.signal
  }

  /** The bit epoll reports for a watch; for Close one of its two. */
  function BitOf(i: Watch): Bit {
    match i
    case Readable => In
    case Pri => PriIn
    case Writeable => Out
    case Error => Err
    case Close => Hup
  }

  lemma HasBit(i: Watch)
    requires i.Readable? || i.Pri?
    ensures forall word: set<Bit> :: Has(word, i) <==> BitOf(i) in word
  {
    forall word: set<Bit> ensures Has(word, i) <==> BitOf(i) in word {
      if BitOf(i) in word { assert BitOf(i) in word * Value(i); }
    }
  }

  lemma OtherBits(i: Watch)
    requires i.Readable? || i.Pri?
    ensures forall j :: BitOf(i) in Value(j) <==> j == i
  {}

  /** How many of the watches the loop has dealt with in its current pass. */
  function Passed(c: Config, p: LoopPc): nat {
    match p
    case Scan(k, _) => k
    case Check(k, _) => k
    case LoadClear(k, _) => k
    case StoreClear(k, _, _) => k
    case Lock(k, _) => k
    case Act(k, _) => k
    case Unlock(k, _) => k + 1
    case _ => |c.watches|
  }

  predicate Ahead(c: Config, p: LoopPc, i: Watch)
    requires i in c.watches
  {
    Index(c.watches, i) >= Passed(c, p)
  }

  predicate InBounds(c: Config, p: LoopPc) {
    match p
    case Check(k, _) => k < |c.watches|
    case LoadClear(k, _) => k < |c.watches| && c.watches[k].Writeable?
    case StoreClear(k, _, _) => k < |c.watches| && c.watches[k].Writeable?
    case Lock(k, _) => k < |c.watches|
    case Act(k, _) => k < |c.watches|
    case Unlock(k, _) => k < |c.watches|
    case _ => true
  }

  predicate Pending(s: State, i: Watch) {
    Has(s.mem.events, i)
  }

  /** Where the thread stands that has the REVENTS flag, if it is a worker. */
  function Holding(s: State): (p: Option<WorkPc>)
    ensures p.Some? ==> s.mem.holder.Some? && s.mem.holder.value in s.workers
  {
    if s.mem.holder.Some? && s.mem.holder.value in s.workers then Some(s.workers[s.mem.holder.value]) else None
  }

  /** The callback of i has begun and its worker has not yet decided what comes next. */
  predicate Underway(p: WorkPc, i: Watch) {
    (p.Running? || p.Return? || p.Recheck? || p.LoadBit? || p.StoreBit? || p.Drop?) && p.i == i
  }

  /** The same of the worker in the thread field; no other can have come so far. */
  predicate Served(s: State, i: Watch) {
    s.mem.thread.Some? && s.mem.thread.value in s.workers && Underway(s.workers[s.mem.thread.value], i)
  }

  /** Whatever the others store, the loop will come to i and find its bit set, or does not look at it any more. */
  predicate InHand(c: Config, p: LoopPc, i: Watch)
    requires i in c.watches
  {
    match p
    case LoadReport(added) => Has(added, i)
    case StoreReport(added, word) => Has(added, i) || Has(word, i)
    case StoreClear(_, _, word) => Ahead(c, p, i) && Has(word, i)
    case Lock(k, _) => k < |c.watches| && c.watches[k] == i
    case Act(k, _) => k < |c.watches| && c.watches[k] == i
    case _ => false
  }

  /** The loop will act on i, unless the bit is wiped out before. */
  predicate Coming(c: Config, s: State, i: Watch)
    requires i in c.watches
  {
    InHand(c, s.loop, i) || (Pending(s, i) && (s.loop.LoadReport? || Ahead(c, s.loop, i)))
  }

  /** A worker is about to store a word without the bit of i. */
  predicate Wiping(s: State, i: Watch) {
    match Holding(s)
    case Some(p) => p.StoreBit? && !Has(p.word, i)
    case None => false
  }

  predicate Dropping(s: State, i: Watch) {
    Holding(s) == Some(Drop(i))
  }

  /** Nothing reported for i is lost: what the loop has not in view is listed and has its callback before it. */
  predicate Accounted(c: Config, s: State, i: Watch)
    requires i in c.watches
  {
    && (Pending(s, i) ==> Coming(c, s, i) || i in s.mem.list || Wiping(s, i))
    && (i in s.mem.waiting && !Coming(c, s, i) ==> i in s.mem.list && (Pending(s, i) || !Served(s, i)))
    && (Dropping(s, i) && Pending(s, i) ==> Coming(c, s, i))
  }

  // The exact condition

  /** A worker's store for another watch wipes out a report of i, which is not listed. */
  predicate WipesReport(c: Config, s: State, w: Thread, i: Watch)
    requires i in c.watches
  {
    && w in s.workers && s.workers[w].StoreBit? && s.workers[w].i != i && !Has(s.workers[w].word, i)
    && Pending(s, i) && i in s.mem.waiting && i !in s.mem.list && !InHand(c, s.loop, i)
  }

  /** The loop's store for a writeable object revives the bit of i behind itself, where no callback will clear it. */
  predicate RevivesBit(c: Config, s: State, i: Watch)
    requires i in c.watches
  {
    && s.loop.StoreClear? && Has(s.loop.word, i) && !Pending(s, i) && !Ahead(c, s.loop, i)
    && if i in s.mem.list then Dropping(s, i) else !Wiping(s, i)
  }

  /** A report of i is masked although i is not listed, and nothing else is reported with it. */
  predicate MasksReport(s: State, i: Watch) {
    && s.loop.Mask? && s.loop.report <= s.mem.events && Has(s.loop.report, i) && i !in s.mem.list
  }

  predicate Harmful(c: Config, s: State, a: Action, i: Watch)
    requires i in c.watches
  {
    match a
    case Work(w) => WipesReport(c, s, w, i)
    case Loop => RevivesBit(c, s, i) || MasksReport(s, i)
    case _ => false
  }

  /** What holds of torn stores in every run: the loop's never wipe out a bit, and a worker's never revive one. */
  predicate WordsOk(s: State, i: Watch) {
    && (s.loop.StoreReport? || s.loop.StoreClear? ==> Pending(s, i) ==> Has(s.loop.word, i))
    && (match Holding(s)
        case Some(p) => p.StoreBit? && Has(p.word, i) ==> Pending(s, i)
        case None => true)
  }

  /** Only a thread that has come so far has the REVENTS flag. */
  predicate HolderOk(s: State) {
    s.mem.holder.Some? ==>
      if s.mem.holder.value == LOOP then LoopHolds(s.loop)
      else s.mem.holder.value in s.workers && WorkHolds(s.workers[s.mem.holder.value])
  }

  /** All that is known of the states of a run. */
  ghost predicate Known(c: Config, s: State, i: Watch) {
    c.Valid() && Kept(c, i) && Inv(s) && InBounds(c, s.loop) && WordsOk(s, i) && HolderOk(s)
  }

  lemma DoBounds(c: Config, s: State, a: Action)
    requires InBounds(c, s.loop) && Do(c, s, a).Some?
    ensures InBounds(c, Do(c, s, a).value.loop)
  {
    hide WorkMove, Has;
  }

  lemma DoHolder(c: Config, s: State, a: Action)
    requires Inv(s) && HolderOk(s) && Do(c, s, a).Some?
    ensures HolderOk(Do(c, s, a).value)
  {
    hide Has, ListOk, Delete, Reported, Value;
    forall w | w in s.workers ensures WorkerOk(s.mem, w, s.workers[w]) {}
  }

  /** A worker at a place that holds the flag is the holder, and one past the entry is in the thread field. */
  lemma WorkerFacts(s: State, w: Thread)
    requires Inv(s) && w in s.workers
    ensures WorkHolds(s.workers[w]) ==> s.mem.holder == Some(w) && Holding(s) == Some(s.workers[w])
    ensures Serves(s.workers[w]) ==> s.mem.thread == Some(w)
    ensures HasWatch(s.workers[w]) ==> s.workers[w].i in s.mem.list
    ensures w != LOOP
  {
    hide ListOk, LoopOk;
    assert WorkerOk(s.mem, w, s.workers[w]);
  }

  lemma HolderFacts(s: State)
    requires Inv(s)
    ensures Holding(s).Some? ==> s.mem.holder != Some(LOOP)
    ensures LoopHolds(s.loop) ==> s.mem.holder == Some(LOOP) && Holding(s).None?
    ensures s.mem.holder.Some? && s.mem.holder.value in s.workers && HasWatch(s.workers[s.mem.holder.value]) ==>
      s.workers[s.mem.holder.value].i in s.mem.list
  {
    hide ListOk;
    assert LOOP !in s.workers by {
      assert forall w :: w in s.workers ==> WorkerOk(s.mem, w, s.workers[w]);
    }
    if Holding(s).Some? { WorkerFacts(s, s.mem.holder.value); }
  }

  lemma ServedListed(s: State, i: Watch)
    requires Inv(s)
    ensures Served(s, i) ==> i in s.mem.list
  {
    if s.mem.thread.Some? && s.mem.thread.value in s.workers { WorkerFacts(s, s.mem.thread.value); }
  }

  lemma LoopWords(c: Config, s: State, i: Watch)
    requires Known(c, s, i) && Do(c, s, Loop).Some?
    ensures WordsOk(Do(c, s, Loop).value, i)
  {
    hide Value, Has, Distinct, ListOk, Reported;
    HasBit(i);
    OtherBits(i);
    HolderFacts(s);
  }

  lemma WorkWords(c: Config, s: State, w: Thread, i: Watch)
    requires Known(c, s, i) && Do(c, s, Work(w)).Some?
    ensures WordsOk(Do(c, s, Work(w)).value, i)
  {
    hide Value, Has, Distinct, ListOk, Delete, Reported;
    HasBit(i);
    OtherBits(i);
    WorkerFacts(s, w);
  }

  lemma DoKnown(c: Config, s: State, a: Action, i: Watch)
    requires Known(c, s, i) && Do(c, s, a).Some?
    ensures Known(c, Do(c, s, a).value, i)
  {
    DoKeeps(c, s, a);
    DoBounds(c, s, a);
    DoHolder(c, s, a);
    match a {
      case Loop => LoopWords(c, s, i);
      case Work(w) => WorkWords(c, s, w, i);
      case Report(_) => hide Inv, HolderOk;
      case Begin(w) => hide Inv, HolderOk;
    }
  }

  /** The position of i among the watches, against that of the one the loop is at. */
  lemma {:induction false} Positions(c: Config, p: LoopPc, i: Watch)
    requires c.Valid() && i in c.watches && InBounds(c, p)
    ensures p.Check? || p.StoreClear? || p.Lock? || p.Act? || p.Unlock? ==>
      p.k < |c.watches| && (c.watches[p.k] == i <==> Index(c.watches, i) == p.k)
  {
    hide Index, Distinct;
    assert c.watches[Index(c.watches, i)] == i;
    if p.Check? || p.StoreClear? || p.Lock? || p.Act? || p.Unlock? { IndexAt(c.watches, p.k); }
  }

  /** Listing a watch, under the lock. */
  lemma ActAccounts(c: Config, s: State, i: Watch)
    requires Known(c, s, i) && Accounted(c, s, i) && s.loop.Act?
    ensures Accounted(c, Do(c, s, Loop).value, i)
  {
    hide Value, Has, Distinct, Index, HolderOk, WordsOk;
    HasBit(i);
    OtherBits(i);
    HolderFacts(s);
    ServedListed(s, i);
    Positions(c, s.loop, i);
  }

  lemma NothingNew(report: set<Bit>, events: set<Bit>)
    ensures report <= events <==> report - events == {}
  {
    forall b | b in report && report - events == {} ensures b in events { assert b !in report - events; }
  }

  /** Masking a report, and storing the word of pending bits. */
  lemma StoreAccounts(c: Config, s: State, i: Watch)
    requires Known(c, s, i) && Accounted(c, s, i) && (s.loop.Mask? || s.loop.StoreReport? || s.loop.StoreClear?)
    ensures Accounted(c, Do(c, s, Loop).value, i) <==> !Harmful(c, s, Loop, i)
  {
    hide Value, Has, Distinct, ListOk, Index, HolderOk;
    HasBit(i);
    OtherBits(i);
    HolderFacts(s);
    Positions(c, s.loop, i);
    if s.loop.Mask? { NothingNew(s.loop.report, s.mem.events); }
  }

  /** A step of the loop leaves everything accounted for if and only if it does no harm. */
  lemma LoopAccounts(c: Config, s: State, i: Watch)
    requires Known(c, s, i) && Accounted(c, s, i) && Do(c, s, Loop).Some?
    ensures Accounted(c, Do(c, s, Loop).value, i) <==> !Harmful(c, s, Loop, i)
  {
    hide Value, Has, Distinct, ListOk, Index, HolderOk;
    if s.loop.Act? {
      ActAccounts(c, s, i);
    } else if s.loop.Mask? || s.loop.StoreReport? || s.loop.StoreClear? {
      StoreAccounts(c, s, i);
    } else {
      HasBit(i);
      HolderFacts(s);
      Positions(c, s.loop, i);
    }
  }

  /** So does a step of a worker. */
  lemma WorkAccounts(c: Config, s: State, w: Thread, i: Watch)
    requires Known(c, s, i) && Accounted(c, s, i) && Do(c, s, Work(w)).Some?
    ensures Accounted(c, Do(c, s, Work(w)).value, i) <==> !Harmful(c, s, Work(w), i)
  {
    hide Value, Has, Distinct, Delete, Index, HolderOk, Ahead, InHand;
    HasBit(i);
    OtherBits(i);
    WorkerFacts(s, w);
    HolderFacts(s);
    ServedListed(s, i);
    var p := s.workers[w];
    if p.Drop? { WatchDropped(s.mem, p.i); }
  }

  lemma DoAccounts(c: Config, s: State, a: Action, i: Watch)
    requires Known(c, s, i) && Accounted(c, s, i) && Do(c, s, a).Some?
    ensures Accounted(c, Do(c, s, a).value, i) <==> !Harmful(c, s, a, i)
  {
    match a {
      case Loop => LoopAccounts(c, s, i);
      case Work(w) => WorkAccounts(c, s, w, i);
      case Report(_) => hide Has, Inv;
      case Begin(w) => BeginAccounts(c, s, w, i);
    }
  }

  lemma BeginAccounts(c: Config, s: State, w: Thread, i: Watch)
    requires Known(c, s, i) && Accounted(c, s, i) && Do(c, s, Begin(w)).Some?
    ensures Accounted(c, Do(c, s, Begin(w)).value, i)
  {
    hide Has, Inv, HolderOk, Index;
  }

  // Whole runs

  /** No step of the run does harm. */
  predicate Harmless(c: Config, s: State, run: seq<Action>, i: Watch)
    requires i in c.watches
    decreases |run|
  {
    run == [] || (!Harmful(c, s, run[0], i) && match Do(c, s, run[0]) case None => true case Some(s2) => Harmless(c, s2, run[1..], i))
  }

  lemma {:induction false} RunAccounts(c: Config, s: State, run: seq<Action>, i: Watch)
    requires Known(c, s, i) && Exec(c, s, run).Some?
    ensures Known(c, Exec(c, s, run).value, i)
    ensures Accounted(c, s, i) && Harmless(c, s, run, i) ==> Accounted(c, Exec(c, s, run).value, i)
    decreases |run|
  {
    hide Inv, InBounds, WordsOk, HolderOk, Do, Accounted, Harmful;
    if run != [] {
      DoKnown(c, s, run[0], i);
      if Accounted(c, s, i) { DoAccounts(c, s, run[0], i); }
      RunAccounts(c, Do(c, s, run[0]).value, run[1..], i);
    }
  }

  lemma AtFirst(c: Config, i: Watch)
    requires c.Valid() && Kept(c, i)
    ensures Known(c, Initial(), i) && Accounted(c, Initial(), i)
  {}

  /** Between two reports, with nobody changing the queue. */
  predicate AtRest(s: State) {
    s.loop.Idle? && s.mem.holder.None?
  }

  /** At rest, being accounted for is what a caller expects of the queue. */
  lemma AccountedAtRest(c: Config, s: State, i: Watch)
    requires Known(c, s, i) && AtRest(s)
    ensures Accounted(c, s, i) <==>
      && (Pending(s, i) || i in s.mem.waiting ==> i in s.mem.list)
      && (i in s.mem.waiting && !Pending(s, i) ==> forall w :: w in s.workers ==> !Underway(s.workers[w], i))
  {
    hide Has, ListOk, WordsOk, HolderOk;
    assert Index(c.watches, i) < |c.watches|;
    forall w | w in s.workers ensures Underway(s.workers[w], i) ==> Served(s, i) { WorkerFacts(s, w); }
  }

  /**
   So in a run that does no harm, whenever the loop is between two reports and nobody has the lock: if i is
   pending, or was reported after its callback last began, it is listed; and in the second case, unless it is
   pending and so called back again, its callback is still to begin.
   */
  lemma {:induction false} ReportsKept(c: Config, run: seq<Action>, i: Watch)
    requires c.Valid() && Kept(c, i) && Exec(c, Initial(), run).Some? && Harmless(c, Initial(), run, i)
    ensures
      var s := Exec(c, Initial(), run).value;
      AtRest(s) ==>
        && (Pending(s, i) || i in s.mem.waiting ==> i in s.mem.list)
        && (i in s.mem.waiting && !Pending(s, i) ==> forall w :: w in s.workers ==> !Underway(s.workers[w], i))
  {
    hide Known, Accounted, Exec, Pending, Underway, AtRest;
    AtFirst(c, i);
    RunAccounts(c, Initial(), run, i);
    var s := Exec(c, Initial(), run).value;
    if AtRest(s) { AccountedAtRest(c, s, i); }
  }

  // What harm leads to

  /** Between two reports i is off the list, with a report not answered by a callback, or its bit there to stay. */
  predicate Lost(s: State, i: Watch) {
    s.loop.Idle? && i !in s.mem.list && (i in s.mem.waiting || (Pending(s, i) && !Wiping(s, i)))
  }

  lemma AccountedNotLost(c: Config, s: State, i: Watch)
    requires Known(c, s, i) && Accounted(c, s, i)
    ensures !Lost(s, i)
  {
    hide Has, Inv, WordsOk, HolderOk;
    assert Index(c.watches, i) < |c.watches|;
  }

  /** i is out of view of the loop and off the list, or about to be, with a report or its bit left behind for good. */
  predicate Missed(c: Config, s: State, i: Watch)
    requires i in c.watches
  {
    && !s.loop.Mask? && !Coming(c, s, i) && (i !in s.mem.list || Dropping(s, i))
    && if Pending(s, i) then !Wiping(s, i)
       else i in s.mem.waiting && !(s.loop.StoreClear? && Has(s.loop.word, i))
  }

  lemma LoopHarms(c: Config, s: State, i: Watch)
    requires Known(c, s, i) && Accounted(c, s, i) && Do(c, s, Loop).Some? && Harmful(c, s, Loop, i)
    ensures var s2 := Do(c, s, Loop).value; Lost(s2, i) || Missed(c, s2, i)
  {
    hide Value, Has, Distinct, ListOk, Index, HolderOk;
    HasBit(i);
    OtherBits(i);
    HolderFacts(s);
    Positions(c, s.loop, i);
    if s.loop.Mask? { NothingNew(s.loop.report, s.mem.events); }
  }

  lemma WorkHarms(c: Config, s: State, w: Thread, i: Watch)
    requires Known(c, s, i) && Accounted(c, s, i) && Do(c, s, Work(w)).Some? && Harmful(c, s, Work(w), i)
    ensures Missed(c, Do(c, s, Work(w)).value, i)
  {
    hide Value, Has, Distinct, ListOk, Index, HolderOk;
    HasBit(i);
    OtherBits(i);
    HolderFacts(s);
    WorkerFacts(s, w);
  }

  /** Going on does no further harm. */
  lemma MissedHarmless(c: Config, s: State, i: Watch)
    requires Known(c, s, i) && Missed(c, s, i)
    ensures !Harmful(c, s, Loop, i)
    ensures Holding(s).Some? ==> !Harmful(c, s, Work(s.mem.holder.value), i)
  {
    hide Has, Inv, WordsOk, HolderOk;
  }

  lemma ActMisses(c: Config, s: State, i: Watch)
    requires Known(c, s, i) && Missed(c, s, i) && s.loop.Act?
    ensures Missed(c, Do(c, s, Loop).value, i)
  {
    hide Value, Has, Distinct, ListOk, Index, HolderOk, WordsOk;
    HasBit(i);
    OtherBits(i);
    HolderFacts(s);
    Positions(c, s.loop, i);
  }

  /** The loop on its own goes on missing i. */
  lemma LoopMisses(c: Config, s: State, i: Watch)
    requires Known(c, s, i) && Missed(c, s, i) && Do(c, s, Loop).Some?
    ensures Missed(c, Do(c, s, Loop).value, i)
  {
    hide Value, Has, Distinct, ListOk, Index, HolderOk;
    if s.loop.Act? {
      ActMisses(c, s, i);
    } else {
      HasBit(i);
      OtherBits(i);
      HolderFacts(s);
      Positions(c, s.loop, i);
    }
  }

  /** So does the worker that has the lock. */
  lemma WorkMisses(c: Config, s: State, i: Watch)
    requires Known(c, s, i) && Missed(c, s, i) && Holding(s).Some? && Do(c, s, Work(s.mem.holder.value)).Some?
    ensures Missed(c, Do(c, s, Work(s.mem.holder.value)).value, i)
  {
    hide Value, Has, Distinct, Delete, Index, HolderOk, Ahead, InHand;
    HasBit(i);
    OtherBits(i);
    WorkerFacts(s, s.mem.holder.value);
    HolderFacts(s);
    var p := s.workers[s.mem.holder.value];
    if p.Drop? { WatchDropped(s.mem, p.i); }
  }

  /** Steps left in the pass of the loop. */
  function LoopRank(c: Config, p: LoopPc): nat {
    var n := |c.watches|;
    match p
    case Idle => 0
    case Post(_) => 1
    case Scan(k, _) => if k >= n then 2 else 2 + 6 * (n - k)
    case Check(k, _) => if k >= n then 0 else 1 + 6 * (n - k)
    case LoadClear(k, _) => if k >= n then 0 else 6 * (n - k)
    case StoreClear(k, _, _) => if k >= n then 0 else 6 * (n - k) - 1
    case Lock(k, _) => if k >= n then 0 else 6 * (n - k)
    case Act(k, _) => if k >= n then 0 else 6 * (n - k) - 1
    case Unlock(k, _) => if k >= n then 0 else 6 * (n - k) - 2
    case StoreReport(_, _) => 3 + 6 * n
    case LoadReport(_) => 4 + 6 * n
    case Mask(_) => 5 + 6 * n
  }

  /** Steps left until the worker that has the lock gives it back. */
  function HoldRank(s: State): nat {
    match Holding(s)
    case None => 0
    case Some(p) =>
      match p
      case Leave => 1
      case Again(_) => 1
      case Picked(_) => 1
      case Pick => 2
      case Entered => 3
      case Drop(_) => 3
      case StoreBit(_, _) => 2
      case LoadBit(_) => 3
      case Recheck(_) => 4
      case _ => 0
  }

  lemma LoopGoesOn(c: Config, s: State, i: Watch)
    requires Known(c, s, i) && Holding(s).None? && !s.loop.Idle?
    ensures Do(c, s, Loop).Some? && LoopRank(c, Do(c, s, Loop).value.loop) < LoopRank(c, s.loop)
  {
    hide Has, Inv, WordsOk;
  }

  lemma HolderGoesOn(c: Config, s: State, i: Watch)
    requires Known(c, s, i) && Holding(s).Some?
    ensures Do(c, s, Work(s.mem.holder.value)).Some?
    ensures var s2 := Do(c, s, Work(s.mem.holder.value)).value; s2.loop == s.loop && HoldRank(s2) < HoldRank(s)
  {
    hide Has, ListOk, WordsOk, Delete;
    HolderFacts(s);
    WorkerFacts(s, s.mem.holder.value);
  }

  /** Steps of the loop and of workers only, with no report and no new worker. */
  predicate Quiet(run: seq<Action>) {
    forall k :: 0 <= k < |run| ==> run[k].Loop? || run[k].Work?
  }

  /** Left to itself, the queue comes to rest without i. */
  lemma {:induction false} MissedAtRest(c: Config, s: State, i: Watch) returns (rest: seq<Action>)
    requires Known(c, s, i) && i in c.watches && Missed(c, s, i)
    ensures Quiet(rest) && Harmless(c, s, rest, i) && Exec(c, s, rest).Some?
    ensures AtRest(Exec(c, s, rest).value) && Lost(Exec(c, s, rest).value, i)
    decreases LoopRank(c, s.loop), HoldRank(s)
  {
    hide *;
    if Holding(s).None? && s.loop.Idle? {
      rest := [];
      RestReached(c, s, i);
    } else {
      var a := if Holding(s).Some? then Work(s.mem.holder.value) else Loop;
      MissedHarmless(c, s, i);
      if Holding(s).Some? {
        HolderGoesOn(c, s, i);
        WorkMisses(c, s, i);
      } else {
        LoopGoesOn(c, s, i);
        LoopMisses(c, s, i);
      }
      DoKnown(c, s, a, i);
      rest := MissedAtRest(c, Do(c, s, a).value, i);
      rest := OneMore(c, s, a, rest, i);
    }
  }

  lemma {:induction false} RestReached(c: Config, s: State, i: Watch)
    requires Known(c, s, i) && Missed(c, s, i) && Holding(s).None? && s.loop.Idle?
    ensures Quiet([]) && Harmless(c, s, [], i) && Exec(c, s, []) == Some(s) && AtRest(s) && Lost(s, i)
  {}

  lemma OneMore(c: Config, s: State, a: Action, rest: seq<Action>, i: Watch) returns (run: seq<Action>)
    requires i in c.watches && Do(c, s, a).Some? && (a.Loop? || a.Work?) && Quiet(rest)
    requires !Harmful(c, s, a, i) && Harmless(c, Do(c, s, a).value, rest, i)
    ensures Quiet(run) && Harmless(c, s, run, i) && Exec(c, s, run) == Exec(c, Do(c, s, a).value, rest)
  {
    hide Do, Harmful;
    run := [a] + rest;
    assert run[1..] == rest;
  }

  /** With no further report and no harmful step, the queue can come to a state in which i is lost. */
  ghost predicate Losing(c: Config, s: State, i: Watch)
    requires i in c.watches
  {
    exists rest :: Quiet(rest) && Harmless(c, s, rest, i) && Exec(c, s, rest).Some? && Lost(Exec(c, s, rest).value, i)
  }

  lemma {:induction false} LosingBy(c: Config, s: State, i: Watch, rest: seq<Action>)
    requires i in c.watches && Quiet(rest) && Harmless(c, s, rest, i) && Exec(c, s, rest).Some?
    requires Lost(Exec(c, s, rest).value, i)
    ensures Losing(c, s, i)
  {}

  /** A harmful step leads to a loss. */
  lemma HarmLoses(c: Config, s: State, a: Action, i: Watch)
    requires Known(c, s, i) && i in c.watches && Accounted(c, s, i) && Do(c, s, a).Some? && Harmful(c, s, a, i)
    ensures Losing(c, Do(c, s, a).value, i)
  {
    hide *;
    OnlyStoresHarm(c, s, a, i);
    if a.Loop? { LoopHarms(c, s, i); } else { WorkHarms(c, s, a.w, i); }
    var s2 := Do(c, s, a).value;
    DoKnown(c, s, a, i);
    if Missed(c, s2, i) {
      var rest := MissedAtRest(c, s2, i);
      LosingBy(c, s2, i, rest);
    } else {
      NoMore(c, s2, i);
      LosingBy(c, s2, i, []);
    }
  }

  lemma OnlyStoresHarm(c: Config, s: State, a: Action, i: Watch)
    requires i in c.watches && Harmful(c, s, a, i)
    ensures a.Loop? || a.Work?
  {}

  lemma {:induction false} NoMore(c: Config, s: State, i: Watch)
    requires i in c.watches
    ensures Quiet([]) && Harmless(c, s, [], i) && Exec(c, s, []) == Some(s)
  {}

  /** Where everything is accounted for, no loss is under way. */
  lemma AccountedNotLosing(c: Config, s: State, i: Watch)
    requires Known(c, s, i) && i in c.watches && Accounted(c, s, i)
    ensures !Losing(c, s, i)
  {
    hide Known, Accounted, Lost, Quiet, Exec, Harmless;
    forall rest | Quiet(rest) && Harmless(c, s, rest, i) && Exec(c, s, rest).Some?
      ensures !Lost(Exec(c, s, rest).value, i)
    {
      RunAccounts(c, s, rest, i);
      AccountedNotLost(c, Exec(c, s, rest).value, i);
    }
  }

  /** No state of the run leads to a loss without a further report or harmful step. */
  ghost predicate NeverLosing(c: Config, s: State, run: seq<Action>, i: Watch)
    requires i in c.watches
    decreases |run|
  {
    && !Losing(c, s, i)
    && (run == [] || match Do(c, s, run[0]) case None => true case Some(s2) => NeverLosing(c, s2, run[1..], i))
  }

  lemma {:induction false} RunLoses(c: Config, s: State, run: seq<Action>, i: Watch)
    requires Known(c, s, i) && i in c.watches && Accounted(c, s, i) && Exec(c, s, run).Some?
    ensures NeverLosing(c, s, run, i) <==> Harmless(c, s, run, i)
    decreases |run|
  {
    hide Known, Do, Accounted, Harmful, Losing;
    AccountedNotLosing(c, s, i);
    if run != [] {
      var s2 := Do(c, s, run[0]).value;
      DoKnown(c, s, run[0], i);
      DoAccounts(c, s, run[0], i);
      if Harmful(c, s, run[0], i) {
        HarmLoses(c, s, run[0], i);
        assert !NeverLosing(c, s2, run[1..], i);
      } else {
        RunLoses(c, s2, run[1..], i);
      }
    }
  }

  /**
   Exactly which stores lose reports. In every run, for a registered input watch of a context without a signal
   callback: no state leads on its own to a loss if and only if no step wipes out a report of the watch, revives
   its bit where no callback will clear it, or masks a report by a bit that is about to be wiped out.
   */
  lemma {:induction false} ReportsKeptExactly(c: Config, run: seq<Action>, i: Watch)
    requires c.Valid() && Kept(c, i) && Exec(c, Initial(), run).Some?
    ensures NeverLosing(c, Initial(), run, i) <==> Harmless(c, Initial(), run, i)
  {
    hide Known, Accounted, Exec, NeverLosing, Harmless;
    AtFirst(c, i);
    RunLoses(c, Initial(), run, i);
  }

  /** From a state at rest with i pending, any number of reports of i alone change nothing. */
  lemma ReportsMasked(c: Config, s: State, i: Watch)
    requires s.loop.Idle? && Pending(s, i) && (i.Readable? || i.Pri?)
    ensures Do(c, s, Report(Value(i))) == Some(s.(loop := Mask(Value(i))))
    ensures Do(c, s.(loop := Mask(Value(i))), Loop) == Some(s.(mem := s.mem.(waiting := s.mem.waiting + {i})))
  {
    hide Has;
    HasBit(i);
    assert Value(i) == {BitOf(i)};
    assert Value(i) * s.mem.events == {BitOf(i)} && Value(i) - s.mem.events == {};
    OneReported(i);
  }

  lemma OneReported(i: Watch)
    requires i.Readable? || i.Pri?
    ensures Reported({BitOf(i)}) == {i}
  {
    OtherBits(i);
    forall j ensures Has({BitOf(i)}, j) <==> j == i {
      if j == i { assert BitOf(i) in {BitOf(i)} * Value(i); }
    }
  }
}
