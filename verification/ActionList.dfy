/** The list of start actions: done in order until one fails, and undone in the opposite order. */
module ActionList {
  import opened Bytes

  datatype Code = Do | Undo

  /** A module of the list with its status flags; failed is OSNS_MODULE_STATUS_ERROR. */
  datatype Module = Module(extern: bool, loaded: bool, hasAction: bool, done: bool, failed: bool)

  /** A call of the action of the module at an index. */
  datatype Call = Call(index: nat, code: Code)

  /** What the action of each module gives. */
  type Outcome = (nat, Code) -> int

  /** Where a pass leaves the list: the modules, the calls made, the index it stopped at, and its result. */
  datatype Pass = Pass(modules: seq<Module>, calls: seq<Call>, at: Option<nat>, result: int)

  predicate Ready(m: Module) {
    (m.extern ==> m.loaded) && m.hasAction
  }

  /** The module after its turn, unless the pass stops there. */
  function AfterTurn(m: Module, code: Code, result: int): Module {
    if !Ready(m) then m
    else if code.Do? then (if result == -1 then m.(failed := true) else m.(done := true))
    else m.(done := false, loaded := m.loaded && !m.extern)
  }

  predicate Called(m: Module, code: Code) {
    Ready(m) && (code.Do? || m.done)
  }

  /** The neighbour of a list element in a direction. */
  function Next(i: nat, count: nat, forward: bool): Option<nat> {
    if forward then (if i + 1 < count then Some(i + 1) else None) else if i > 0 then Some(i - 1) else None
  }

  function ToGo(i: Option<nat>, count: nat, forward: bool): nat {
    if i.None? || i.value >= count then 0 else if forward then count - i.value else i.value + 1
  }

  function Process(modules: seq<Module>, i: Option<nat>, forward: bool, code: Code, outcome: Outcome, result: int): (p: Pass)
    requires i.Some? ==> i.value < |modules|
    ensures |p.modules| == |modules|
    decreases ToGo(i, |modules|, forward)
  {
    if i.None? then Pass(modules, [], None, result)
    else
      var m := modules[i.value];
      var r := if Called(m, code) then outcome(i.value, code) else result;
      var modules2 := modules[i.value := AfterTurn(m, code, r)];
      var call := if Called(m, code) then [Call(i.value, code)] else [];
      if Called(m, code) && code.Do? && r == -1 then Pass(modules2, call, i, r)
      else
        var rest := Process(modules2, Next(i.value, |modules|, forward), forward, code, outcome, r);
        rest.(calls := call + rest.calls)
  }

  /** One turn. */
  function Turn(modules: seq<Module>, i: nat, code: Code, outcome: Outcome, result: int): (p: Pass)
    requires i < |modules|
    ensures |p.modules| == |modules| && (p.at.Some? ==> p.at.value == i)
  {
    var m := modules[i];
    var r := if Called(m, code) then outcome(i, code) else result;
    Pass(modules[i := AfterTurn(m, code, r)], if Called(m, code) then [Call(i, code)] else [],
         if Called(m, code) && code.Do? && r == -1 then Some(i) else None, r)
  }

  lemma {:induction false} ProcessStep(modules: seq<Module>, i: nat, forward: bool, code: Code, outcome: Outcome, result: int)
    requires i < |modules|
    ensures
      var p, t := Process(modules, Some(i), forward, code, outcome, result), Turn(modules, i, code, outcome, result);
      if t.at.Some? then p == t
      else
        var rest := Process(t.modules, Next(i, |modules|, forward), forward, code, outcome, t.result);
        p == rest.(calls := t.calls + rest.calls)
  {}

  class Context {
    const actions: array<Module>
    /** The calls made so far. */
    var calls: seq<Call>

    constructor (modules: seq<Module>)
      ensures actions[..] == modules && calls == [] && fresh(actions)
    {
      actions := new Module[|modules|](i requires 0 <= i < |modules| => modules[i]);
      calls := [];
    }

    /** The body of the loop: whether it breaks, and the result so far. */
    method TakeTurn(i: nat, code: Code, outcome: Outcome, result: int) returns (stop: bool, r: int)
      requires i < actions.Length
      modifies this`calls, actions
      ensures var t := Turn(old(actions[..]), i, code, outcome, result);
        actions[..] == t.modules && calls == old(calls) + t.calls && r == t.result && (stop <==> t.at.Some?)
    {
      stop, r := false, result;
      var m := actions[i];
      if !Ready(m) { return; }
      if code.Do? {
        r := outcome(i, code);
        calls := calls + [Call(i, code)];
        if r == -1 {
          actions[i] := m.(failed := true);
          stop := true;
          return;
        }
        actions[i] := m.(done := true);
      } else {
        if m.done {
          r := outcome(i, code);
          calls := calls + [Call(i, code)];
          actions[i] := m.(done := false);
        }
        if m.extern { actions[i] := actions[i].(loaded := false); }
      }
    }

    /** osns_process_actions_list. */
    method ProcessActions(start: Option<nat>, forward: bool, code: Code, outcome: Outcome)
      returns (list: Option<nat>, result: int, ghost made: seq<Call>)
      requires start.Some? ==> start.value < actions.Length
      modifies this`calls, actions
      ensures Process(old(actions[..]), start, forward, code, outcome, 0) == Pass(actions[..], made, list, result)
      ensures calls == old(calls) + made
    {
      hide Process, Turn, Continues, ToGo, Next;
      result, list, made := 0, start, [];
      ghost var goal := Process(actions[..], start, forward, code, outcome, 0);
      NoCalls(goal);
      while list.Some?
        invariant (list.Some? ==> list.value < actions.Length) && calls == old(calls) + made
        invariant Continues(goal, made, Process(actions[..], list, forward, code, outcome, result))
        decreases ToGo(list, actions.Length, forward)
      {
        ghost var t := Turn(actions[..], list.value, code, outcome, result);
        ghost var rest := Process(actions[..], list, forward, code, outcome, result);
        ProcessStep(actions[..], list.value, forward, code, outcome, result);
        var stop;
        stop, result := TakeTurn(list.value, code, outcome, result);
        Associates(old(calls), made, t.calls);
        if stop {
          LastCalls(goal, made, rest);
          made := made + t.calls;
          return;
        }
        NextNearer(list.value, actions.Length, forward);
        list := Next(list.value, actions.Length, forward);
        MoreCalls(goal, made, rest, t.calls, Process(actions[..], list, forward, code, outcome, result));
        made := made + t.calls;
      }
      ProcessEnd(actions[..], forward, code, outcome, result);
      LastCalls(goal, made, Process(actions[..], list, forward, code, outcome, result));
      assert made + [] == made;
    }
  }

  /** goal is what rest comes to after the calls made. */
  predicate Continues(goal: Pass, made: seq<Call>, rest: Pass) {
    goal == rest.(calls := made + rest.calls)
  }

  lemma MoreCalls(goal: Pass, made: seq<Call>, p: Pass, more: seq<Call>, rest: Pass)
    requires Continues(goal, made, p) && p == rest.(calls := more + rest.calls)
    ensures Continues(goal, made + more, rest)
  {
    assert made + (more + rest.calls) == made + more + rest.calls;
  }

  lemma NextNearer(i: nat, count: nat, forward: bool)
    requires i < count
    ensures var n := Next(i, count, forward);
            (n.Some? ==> n.value < count) && 0 <= ToGo(n, count, forward) < ToGo(Some(i), count, forward)
  {}

  lemma Associates(a: seq<Call>, b: seq<Call>, c: seq<Call>)
    ensures a + b + c == a + (b + c)
  {}

  lemma LastCalls(goal: Pass, made: seq<Call>, rest: Pass)
    requires Continues(goal, made, rest)
    ensures goal == rest.(calls := made + rest.calls)
  {}

  lemma NoCalls(p: Pass)
    ensures Continues(p, [], p)
  {
    assert [] + p.calls == p.calls;
  }

  lemma {:induction false} ProcessEnd(modules: seq<Module>, forward: bool, code: Code, outcome: Outcome, result: int)
    ensures Process(modules, None, forward, code, outcome, result) == Pass(modules, [], None, result)
  {}

  /** The modules marked done among the first n, in order. */
  function DoneBelow(modules: seq<Module>, n: nat): seq<nat>
    requires n <= |modules|
  {
    if n == 0 then [] else DoneBelow(modules, n - 1) + if modules[n - 1].done then [n - 1] else []
  }

  /** The modules whose do did not fail, in the order of the calls. */
  function Succeeded(calls: seq<Call>, outcome: Outcome): seq<nat> {
    if calls == [] then []
    else (if outcome(calls[0].index, Do) == -1 then [] else [calls[0].index]) + Succeeded(calls[1..], outcome)
  }

  /** The undo calls for the given modules, the last of them first. */
  function Reversed(indices: seq<nat>): seq<Call> {
    if indices == [] then [] else [Call(indices[|indices| - 1], Undo)] + Reversed(indices[..|indices| - 1])
  }

  /** What is done can be undone. */
  predicate Undoable(modules: seq<Module>) {
    forall i :: 0 <= i < |modules| && modules[i].done ==> Ready(modules[i])
  }

  predicate NoneDone(modules: seq<Module>, from: nat) {
    forall i :: from <= i < |modules| ==> !modules[i].done
  }

  lemma {:induction false} DoneSame(a: seq<Module>, b: seq<Module>, n: nat)
    requires n <= |a| && n <= |b| && forall i :: 0 <= i < n ==> a[i].done == b[i].done
    ensures DoneBelow(a, n) == DoneBelow(b, n)
  {
    if n > 0 { DoneSame(a, b, n - 1); }
  }

  lemma {:induction false} DoneMore(modules: seq<Module>, n: nat)
    requires n <= |modules| && NoneDone(modules, n)
    ensures DoneBelow(modules, |modules|) == DoneBelow(modules, n)
    decreases |modules| - n
  {
    if n < |modules| { DoneMore(modules, n + 1); }
  }

  /** A do pass from i on marks exactly the modules whose do did not fail. */
  lemma {:induction false} DoPass(modules: seq<Module>, i: Option<nat>, outcome: Outcome, result: int)
    requires (i.Some? ==> i.value < |modules| && NoneDone(modules, i.value)) && Undoable(modules)
    ensures
      var p := Process(modules, i, true, Do, outcome, result);
      && Undoable(p.modules)
      && DoneBelow(p.modules, |modules|) == DoneBelow(modules, if i.Some? then i.value else |modules|) + Succeeded(p.calls, outcome)
    decreases ToGo(i, |modules|, true)
  {
    hide Succeeded, Process, Turn, DoneBelow, Undoable, NoneDone, Ready;
    if i.None? {
      ProcessEnd(modules, true, Do, outcome, result);
      NothingSucceeded(outcome);
      assert DoneBelow(modules, |modules|) + [] == DoneBelow(modules, |modules|);
    } else {
      var n, t := i.value, Turn(modules, i.value, Do, outcome, result);
      ProcessStep(modules, n, true, Do, outcome, result);
      DoTurn(modules, n, outcome, result);
      if t.at.None? {
        var next := Next(n, |modules|, true);
        DoPass(t.modules, next, outcome, t.result);
        var rest := Process(t.modules, next, true, Do, outcome, t.result);
        SucceededJoin(t.calls, rest.calls, outcome);
        assert DoneBelow(modules, n) + (Succeeded(t.calls, outcome) + Succeeded(rest.calls, outcome)) ==
               DoneBelow(modules, n) + Succeeded(t.calls, outcome) + Succeeded(rest.calls, outcome);
      }
    }
  }

  lemma DoTurn(modules: seq<Module>, n: nat, outcome: Outcome, result: int)
    requires n < |modules| && NoneDone(modules, n) && Undoable(modules)
    ensures
      var t := Turn(modules, n, Do, outcome, result);
      && Undoable(t.modules) && NoneDone(t.modules, n + 1)
      && DoneBelow(t.modules, n + 1) == DoneBelow(modules, n) + Succeeded(t.calls, outcome)
      && (t.at.Some? ==> DoneBelow(t.modules, |modules|) == DoneBelow(modules, n) + Succeeded(t.calls, outcome))
  {
    var t := Turn(modules, n, Do, outcome, result);
    DoneSame(modules, t.modules, n);
    NothingSucceeded(outcome);
    OneCall(n, [], outcome);
    assert [Call(n, Do)] + [] == [Call(n, Do)];
    DoneMore(t.modules, n + 1);
  }

  lemma {:induction false} SucceededJoin(a: seq<Call>, b: seq<Call>, outcome: Outcome)
    ensures Succeeded(a + b, outcome) == Succeeded(a, outcome) + Succeeded(b, outcome)
  {
    if a == [] {
      assert a + b == b;
    } else {
      assert (a + b)[1..] == a[1..] + b;
      SucceededJoin(a[1..], b, outcome);
    }
  }

  lemma NothingSucceeded(outcome: Outcome)
    ensures Succeeded([], outcome) == []
  {}

  lemma {:induction false} OneCall(n: nat, rest: seq<Call>, outcome: Outcome)
    ensures Succeeded([Call(n, Do)] + rest, outcome) == (if outcome(n, Do) == -1 then [] else [n]) + Succeeded(rest, outcome)
  {
    assert ([Call(n, Do)] + rest)[1..] == rest;
  }

  /** An undo pass from i down undoes what is marked there, the last first, and leaves none of it marked. */
  lemma {:induction false} UndoPass(modules: seq<Module>, i: Option<nat>, outcome: Outcome, result: int)
    requires (i.Some? ==> i.value < |modules|) && Undoable(modules)
    requires NoneDone(modules, if i.Some? then i.value + 1 else 0)
    ensures
      var p := Process(modules, i, false, Undo, outcome, result);
      p.calls == Reversed(DoneBelow(modules, if i.Some? then i.value + 1 else 0)) && NoneDone(p.modules, 0)
    decreases ToGo(i, |modules|, false)
  {
    hide Process, Turn, DoneBelow, Undoable, NoneDone, Ready, Reversed;
    if i.None? {
      ProcessEnd(modules, false, Undo, outcome, result);
      NothingToUndo(modules);
    } else {
      var n, t := i.value, Turn(modules, i.value, Undo, outcome, result);
      ProcessStep(modules, n, false, Undo, outcome, result);
      UndoTurn(modules, n, outcome, result);
      UndoPass(t.modules, Next(n, |modules|, false), outcome, t.result);
    }
  }

  lemma {:induction false} NothingToUndo(modules: seq<Module>)
    ensures Reversed(DoneBelow(modules, 0)) == []
  {}

  lemma {:induction false} UndoTurn(modules: seq<Module>, n: nat, outcome: Outcome, result: int)
    requires n < |modules| && NoneDone(modules, n + 1) && Undoable(modules)
    ensures
      var t := Turn(modules, n, Undo, outcome, result);
      && t.at.None? && Undoable(t.modules) && NoneDone(t.modules, n)
      && Reversed(DoneBelow(modules, n + 1)) == t.calls + Reversed(DoneBelow(t.modules, n))
  {
    var t := Turn(modules, n, Undo, outcome, result);
    DoneSame(modules, t.modules, n);
    var below := DoneBelow(modules, n);
    assert (below + [n])[..|below|] == below;
    assert below + [] == below && [] + Reversed(below) == Reversed(below);
  }

  function First(modules: seq<Module>): Option<nat> {
    if modules == [] then None else Some(0)
  }

  function Last(modules: seq<Module>): Option<nat> {
    if modules == [] then None else Some(|modules| - 1)
  }

  /**
   For any list and any outcomes: after a do pass, undoing everything calls undo exactly for the modules
   whose do did not fail, in the opposite order, and leaves none marked; undoing once more calls nothing.
   */
  lemma {:induction false} UndoMirrorsDo(modules: seq<Module>, outcome: Outcome)
    requires NoneDone(modules, 0)
    ensures
      var done := Process(modules, First(modules), true, Do, outcome, 0);
      var undone := Process(done.modules, Last(modules), false, Undo, outcome, 0);
      && undone.calls == Reversed(Succeeded(done.calls, outcome))
      && NoneDone(undone.modules, 0)
      && Process(undone.modules, Last(modules), false, Undo, outcome, 0).calls == []
  {
    var done := Process(modules, First(modules), true, Do, outcome, 0);
    var undone := Process(done.modules, Last(modules), false, Undo, outcome, 0);
    DoPass(modules, First(modules), outcome, 0);
    UndoPass(done.modules, Last(modules), outcome, 0);
    UndoPass(undone.modules, Last(modules), outcome, 0);
    DoneMore(undone.modules, 0);
    assert [] + Succeeded(done.calls, outcome) == Succeeded(done.calls, outcome);
    hide Process, Succeeded;
    if modules == [] { DoneMore(modules, 0); }
  }

  /** A do pass goes on until the first failure: that call is its last, and its module is marked. */
  lemma {:induction false} DoStopsAtFailure(modules: seq<Module>, i: Option<nat>, outcome: Outcome, result: int)
    requires i.Some? ==> i.value < |modules|
    ensures
      var p := Process(modules, i, true, Do, outcome, result);
      var n := |p.calls|;
      && (forall k :: 0 <= k < n ==> (outcome(p.calls[k].index, Do) == -1 <==> p.at.Some? && k == n - 1))
      && (p.at.Some? ==> n > 0 && p.calls[n - 1] == Call(p.at.value, Do) && p.result == -1
                         && p.at.value < |modules| && p.modules[p.at.value].failed)
    decreases ToGo(i, |modules|, true)
  {
    hide Process, Called, AfterTurn;
    if i.None? {
      ProcessEnd(modules, true, Do, outcome, result);
    } else {
      var t := Turn(modules, i.value, Do, outcome, result);
      ProcessStep(modules, i.value, true, Do, outcome, result);
      TurnResult(modules, i.value, outcome, result);
      DoStopsAtFailure(t.modules, Next(i.value, |modules|, true), outcome, t.result);
    }
  }

  lemma TurnResult(modules: seq<Module>, i: nat, outcome: Outcome, result: int)
    requires i < |modules|
    ensures
      var t := Turn(modules, i, Do, outcome, result);
      && (t.calls == [] || t.calls == [Call(i, Do)])
      && (t.at.Some? <==> t.calls != [] && outcome(i, Do) == -1)
      && (t.at.Some? ==> t.result == -1 && t.modules[i].failed)
  {}

  /** An undo pass from i down unloads the external modules it could have undone. */
  lemma {:induction false} UndoUnloads(modules: seq<Module>, i: Option<nat>, outcome: Outcome, result: int, k: nat)
    requires (i.Some? ==> i.value < |modules|) && k < |modules| && modules[k].extern && modules[k].hasAction
    requires (i.Some? && k <= i.value) || !modules[k].loaded
    ensures !Process(modules, i, false, Undo, outcome, result).modules[k].loaded
    decreases ToGo(i, |modules|, false)
  {
    if i.Some? {
      var t := Turn(modules, i.value, Undo, outcome, result);
      UndoUnloads(t.modules, Next(i.value, |modules|, false), outcome, t.result, k);
    }
  }

  // What a pass comes to, module by module

  /** A module takes part when it has an action and, if it is external, is loaded. */
  predicate TakesPart(m: Module) {
    m.hasAction && (m.extern ==> m.loaded)
  }

  /** The do calls for the modules from i on and before e, in order. */
  function DoCalls(modules: seq<Module>, i: nat, e: nat): seq<Call>
    requires i <= e <= |modules|
    decreases e - i
  {
    if i == e then [] else (if TakesPart(modules[i]) then [Call(i, Do)] else []) + DoCalls(modules, i + 1, e)
  }

  /** The undo calls for the done modules before n, the last first. */
  function UndoCalls(modules: seq<Module>, n: nat): seq<Call>
    requires n <= |modules|
  {
    if n == 0 then []
    else (if TakesPart(modules[n - 1]) && modules[n - 1].done then [Call(n - 1, Undo)] else []) + UndoCalls(modules, n - 1)
  }

  /** The result of the last call, if there was any. */
  function ResultOf(calls: seq<Call>, outcome: Outcome, before: int): int {
    if calls == [] then before else outcome(calls[|calls| - 1].index, calls[|calls| - 1].code)
  }

  /** The place of a list element, or none behind the last. */
  function PlaceOf(i: nat, n: nat): Option<nat> {
    if i < n then Some(i) else None
  }

  /** The first failure from i on is that of a, or there is none. */
  predicate FirstFailure(modules: seq<Module>, i: nat, outcome: Outcome, a: Option<nat>) {
    && (forall j :: i <= j < (if a.Some? then Min(a.value, |modules|) else |modules|) && TakesPart(modules[j]) ==> outcome(j, Do) != -1)
    && (a.Some? ==> i <= a.value < |modules| && TakesPart(modules[a.value]) && outcome(a.value, Do) == -1)
  }

  /** A module after the pass: marked done, or failed, if it was called. */
  predicate DoneTo(m: Module, called: bool, failed: bool, m2: Module) {
    m2 == if !called then m else if failed then m.(failed := true) else m.(done := true)
  }

  /**
   A do pass from module i on calls, in order, exactly the modules that take part, up to the first that fails;
   it marks those called, and no others, and stops at the failure.
   */
  lemma {:induction false} DoExactly(modules: seq<Module>, i: nat, outcome: Outcome, result: int)
    requires i <= |modules|
    ensures
      var p := Process(modules, PlaceOf(i, |modules|), true, Do, outcome, result);
      && FirstFailure(modules, i, outcome, p.at)
      && p.calls == DoCalls(modules, i, if p.at.Some? then p.at.value + 1 else |modules|)
      && p.result == ResultOf(p.calls, outcome, result)
      && forall j :: 0 <= j < |modules| ==>
           DoneTo(modules[j], i <= j && TakesPart(modules[j]) && (p.at.Some? ==> j <= p.at.value), p.at == Some(j), p.modules[j])
    decreases |modules| - i
  {
    hide Process, Turn, TakesPart, DoneTo, ResultOf, Min;
    var n := |modules|;
    MinIs();
    if i == n {
      ProcessEnd(modules, true, Do, outcome, result);
      NoResult(outcome, result);
      NotCalled(modules);
    } else {
      ProcessStep(modules, i, true, Do, outcome, result);
      var t := Turn(modules, i, Do, outcome, result);
      DoTurnExactly(modules, i, outcome, result);
      NotCalled(modules);
      assert Next(i, n, true) == PlaceOf(i + 1, n);
      if t.at.None? {
        DoExactly(t.modules, i + 1, outcome, t.result);
        var rest := Process(t.modules, PlaceOf(i + 1, n), true, Do, outcome, t.result);
        var e := if rest.at.Some? then rest.at.value + 1 else n;
        DoCallsSame(t.modules, modules, i + 1, e);
        ResultJoins(t.calls, rest.calls, outcome, result);
        NotCalled(t.modules);
        NotCalledOnly(t.modules);
      } else {
        assert DoCalls(modules, i + 1, i + 1) == [];
        assert t.calls + [] == t.calls;
      }
    }
  }

  lemma MinIs()
    ensures forall a: nat, b: nat :: Min(a, b) == if a <= b then a else b
  {}

  lemma NoResult(outcome: Outcome, result: int)
    ensures ResultOf([], outcome, result) == result
  {}

  lemma NotCalled(modules: seq<Module>)
    ensures forall j :: 0 <= j < |modules| ==> DoneTo(modules[j], false, false, modules[j]) && DoneTo(modules[j], false, true, modules[j])
  {}

  lemma NotCalledOnly(modules: seq<Module>)
    ensures forall m: Module, failed, m2: Module :: DoneTo(m, false, failed, m2) ==> m2 == m
  {}

  lemma {:induction false} DoTurnExactly(modules: seq<Module>, i: nat, outcome: Outcome, result: int)
    requires i < |modules|
    ensures
      var t, failed := Turn(modules, i, Do, outcome, result), TakesPart(modules[i]) && outcome(i, Do) == -1;
      && t.at == (if failed then Some(i) else None)
      && t.calls == (if TakesPart(modules[i]) then [Call(i, Do)] else []) && t.result == ResultOf(t.calls, outcome, result)
      && (forall j :: 0 <= j < |modules| && j != i ==> t.modules[j] == modules[j])
      && DoneTo(modules[i], TakesPart(modules[i]), failed, t.modules[i])
  {}

  lemma {:induction false} DoCallsSame(a: seq<Module>, b: seq<Module>, i: nat, e: nat)
    requires i <= e <= |a| == |b| && forall j :: i <= j < e ==> a[j] == b[j]
    ensures DoCalls(a, i, e) == DoCalls(b, i, e)
    decreases e - i
  {
    if i < e { DoCallsSame(a, b, i + 1, e); }
  }

  lemma ResultJoins(a: seq<Call>, b: seq<Call>, outcome: Outcome, result: int)
    ensures ResultOf(a + b, outcome, result) == ResultOf(b, outcome, ResultOf(a, outcome, result))
  {}

  /** A module after an undo pass: not done, and an external one not loaded. */
  predicate UndoneTo(m: Module, passed: bool, m2: Module) {
    m2 == if passed then m.(done := false, loaded := m.loaded && !m.extern) else m
  }

  /**
   An undo pass from module n - 1 down calls exactly the done ones of the modules that take part, the last first;
   it never stops, clears what they are marked with, and unloads the external ones.
   */
  lemma {:induction false} UndoExactly(modules: seq<Module>, n: nat, outcome: Outcome, result: int)
    requires n <= |modules|
    ensures
      var p := Process(modules, if n == 0 then None else Some(n - 1), false, Undo, outcome, result);
      && p.at.None? && p.calls == UndoCalls(modules, n) && p.result == ResultOf(p.calls, outcome, result)
      && forall j :: 0 <= j < |modules| ==> UndoneTo(modules[j], j < n && TakesPart(modules[j]), p.modules[j])
    decreases n
  {
    hide Process, Turn, TakesPart, UndoneTo, ResultOf;
    NotPassed();
    if n == 0 {
      ProcessEnd(modules, false, Undo, outcome, result);
      NoResult(outcome, result);
    } else {
      ProcessStep(modules, n - 1, false, Undo, outcome, result);
      var t := Turn(modules, n - 1, Undo, outcome, result);
      UndoTurnExactly(modules, n - 1, outcome, result);
      UndoExactly(t.modules, n - 1, outcome, t.result);
      UndoCallsSame(t.modules, modules, n - 1);
      ResultJoins(t.calls, UndoCalls(modules, n - 1), outcome, result);
    }
  }

  lemma NotPassed()
    ensures forall m: Module, m2: Module :: UndoneTo(m, false, m2) <==> m2 == m
  {}

  lemma {:induction false} UndoTurnExactly(modules: seq<Module>, i: nat, outcome: Outcome, result: int)
    requires i < |modules|
    ensures
      var t := Turn(modules, i, Undo, outcome, result);
      && t.at.None? && t.calls == (if TakesPart(modules[i]) && modules[i].done then [Call(i, Undo)] else [])
      && t.result == ResultOf(t.calls, outcome, result)
      && (forall j :: 0 <= j < |modules| && j != i ==> t.modules[j] == modules[j])
      && UndoneTo(modules[i], TakesPart(modules[i]), t.modules[i])
  {}

  lemma {:induction false} UndoCallsSame(a: seq<Module>, b: seq<Module>, n: nat)
    requires n <= |a| == |b| && forall j :: 0 <= j < n ==> a[j] == b[j]
    ensures UndoCalls(a, n) == UndoCalls(b, n)
  {
    if n > 0 { UndoCallsSame(a, b, n - 1); }
  }
}
