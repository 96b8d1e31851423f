/**
 The plain intrusive list on the heap: elements linked in both directions between the two sentinels
 that a header holds. The ghost sequence chain is what the links represent.
 */
module PlainList {
  import opened Bytes
  import opened Chain

  /** The operation tables: of the head sentinel, of the tail sentinel, of every other element without
      or with locking, or none. */
  datatype Ops = NoOps | HeadOps | TailOps | DefaultOps | LockedOps

  class Element {
    var h: Header?
    var n: Element?
    var p: Element?
    var ops: Ops
    var use: nat
    var lockflags: nat

    /** An element as LIST_ELEMENT_INIT sets it. */
    constructor ()
      ensures h == null && n == null && p == null && ops == DefaultOps && use == 0 && lockflags == 0
    {
      h, n, p, ops, use, lockflags := null, null, null, DefaultOps, 0, 0;
    }

    /** LIST_element_init. */
    method Init(header: Header?)
      modifies this
      ensures h == header && n == null && p == null && use == 0 && lockflags == 0
      ensures ops == if header == null then NoOps else if header.lockbit then LockedOps else DefaultOps
    {
      h, n, p := header, null, null;
      if header != null {
        ops := if header.lockbit then LockedOps else DefaultOps;
      } else {
        ops := NoOps;
      }
      use, lockflags := 0, 0;
    }
  }

  class Header {
    const head: Element
    const tail: Element
    /** The flag LOCKBIT; lists with it are those of LockedList. */
    const lockbit: bool
    var count: int
    ghost var chain: seq<Element>

    /** The chain runs from head to tail, the links follow it in both directions, and the count is its inner length. */
    ghost predicate Valid()
      reads this, chain
    {
      && !lockbit && |chain| >= 2 && chain[0] == head && chain[|chain| - 1] == tail && Distinct(chain)
      && count == |chain| - 2
      && AllOwned(chain)
      && LinkedBut(chain, {})
    }

    ghost predicate AllOwned(c: seq<Element>)
      reads c
    {
      forall x :: x in c ==> Owned(x)
    }

    predicate Owned(x: Element)
      reads x
    {
      x.h == this && x.ops == if x == head then HeadOps else if x == tail then TailOps else DefaultOps
    }

    /** The elements a user sees, in order. */
    ghost function Listed(): seq<Element>
      reads this
    {
      if |chain| >= 2 then chain[1..|chain| - 1] else []
    }

    lemma Ends()
      requires Valid()
      ensures head in chain && tail in chain && head != tail && Owned(head) && Owned(tail)
      ensures Index(chain, head) == 0 && Index(chain, tail) == |chain| - 1
    {
      IndexAt(chain, 0);
      IndexAt(chain, |chain| - 1);
      assert chain[0] in chain && chain[|chain| - 1] in chain;
    }

    lemma Inner(i: nat)
      requires Valid() && 0 < i < |chain| - 1
      ensures Index(chain, chain[i]) == i && chain[i] !in [head, tail] && Owned(chain[i])
    {
      IndexAt(chain, i);
      assert chain[i] in chain;
    }

    /** LIST_header_init: an empty list, its sentinels linked to each other in a ring. */
    constructor ()
      ensures Valid() && Listed() == [] && fresh(head) && fresh(tail) && head.p == tail && tail.n == head
    {
      hide Header.Valid, Header.Listed;
      var a := new Element();
      var b := new Element();
      head, tail, lockbit, count, chain := a, b, false, 0, [a, b];
      new;
      head.Init(this);
      head.ops := HeadOps;
      tail.Init(this);
      tail.ops := TailOps;
      head.n, head.p, tail.p, tail.n := tail, tail, head, head;
      Ring(this);
    }

    method GetFirst() returns (e: Element?)
      requires Valid()
      ensures e == if Listed() == [] then null else Listed()[0]
    {
      Ends();
      e := GetNext(head);
    }

    method GetLast() returns (e: Element?)
      requires Valid()
      ensures e == if Listed() == [] then null else Listed()[|Listed()| - 1]
    {
      Ends();
      e := GetPrev(tail);
    }

    /** LIST_header_add_last. */
    method AddLast(e: Element)
      requires Valid() && e !in chain
      modifies this, chain, e
      ensures Valid() && Listed() == old(Listed()) + [e]
    {
      Ends();
      AddedLast(chain, e);
      AddBefore(tail, e);
    }

    /** LIST_header_add_first. */
    method AddFirst(e: Element)
      requires Valid() && e !in chain
      modifies this, chain, e
      ensures Valid() && Listed() == [e] + old(Listed())
    {
      Ends();
      AddedFirst(chain, e);
      AddAfter(head, e);
    }

    method RemoveFirst() returns (e: Element?)
      requires Valid()
      modifies this, chain
      ensures Valid() && Listed() == if old(Listed()) == [] then [] else old(Listed())[1..]
      ensures e == if old(Listed()) == [] then null else old(Listed())[0]
      ensures e != null ==> !IsListed(e)
    {
      e := GetFirst();
      if e != null {
        Inner(1);
        FirstGone(chain);
        Remove(e);
      }
    }

    method RemoveLast() returns (e: Element?)
      requires Valid()
      modifies this, chain
      ensures Valid()
      ensures Listed() == if old(Listed()) == [] then [] else old(Listed())[..|old(Listed())| - 1]
      ensures e == if old(Listed()) == [] then null else old(Listed())[|old(Listed())| - 1]
      ensures e != null ==> !IsListed(e)
    {
      e := GetLast();
      if e != null {
        Inner(|chain| - 2);
        LastGone(chain);
        Remove(e);
      }
    }

    /** LIST_search_list_forw: the first element the condition accepts. */
    method SearchForward(condition: Element -> int) returns (e: Element?, ghost at: nat)
      requires Valid()
      ensures e == null ==> forall x :: x in Listed() ==> condition(x) != 1
      ensures e != null ==> (0 < at < |chain| - 1 && e == chain[at] && condition(e) == 1
                             && forall i :: 0 < i < at ==> condition(chain[i]) != 1)
    {
      hide Adj, LinkedBut, Owned;
      e := GetFirst();
      at := 1;
      while e != null
        invariant 1 <= at < |chain|
        invariant e == if at == |chain| - 1 then null else chain[at]
        invariant forall i :: 0 < i < at ==> condition(chain[i]) != 1
        decreases |chain| - at
      {
        Inner(at);
        if condition(e) == 1 { break; }
        e := GetNext(e);
        at := at + 1;
      }
    }

    /** LIST_search_list_back: the last element the condition accepts. */
    method SearchBackward(condition: Element -> int) returns (e: Element?, ghost at: nat)
      requires Valid()
      ensures e == null ==> forall x :: x in Listed() ==> condition(x) != 1
      ensures e != null ==> (0 < at < |chain| - 1 && e == chain[at] && condition(e) == 1
                             && forall i :: at < i < |chain| - 1 ==> condition(chain[i]) != 1)
    {
      hide Adj, LinkedBut, Owned;
      e := GetLast();
      at := |chain| - 2;
      while e != null
        invariant 0 <= at < |chain| - 1
        invariant e == if at == 0 then null else chain[at]
        invariant forall i :: at < i < |chain| - 1 ==> condition(chain[i]) != 1
        decreases at
      {
        Inner(at);
        if condition(e) == 1 { break; }
        e := GetPrev(e);
        at := at - 1;
      }
    }
  }

  predicate Linked(x: Element, y: Element)
    reads x, y
  {
    x.n == y && y.p == x
  }

  /** The links follow the chain, but perhaps those that start at an element of but. */
  ghost predicate LinkedBut(c: seq<Element>, but: set<Element>)
    reads c
  {
    forall x, y :: x in c && y in c && Adj(c, x, y) && x !in but ==> Linked(x, y)
  }

  // The inner part of a chain, when its ends change

  lemma AddedFirst(c: seq<Element>, e: Element)
    requires |c| >= 2
    ensures (c[..1] + [e] + c[1..])[1..|c|] == [e] + c[1..|c| - 1]
  {}

  lemma AddedLast(c: seq<Element>, e: Element)
    requires |c| >= 2
    ensures (c[..|c| - 1] + [e] + c[|c| - 1..])[1..|c|] == c[1..|c| - 1] + [e]
  {}

  lemma FirstGone(c: seq<Element>)
    requires |c| >= 3
    ensures (c[..1] + c[2..])[1..|c| - 2] == c[1..|c| - 1][1..]
  {}

  lemma LastGone(c: seq<Element>)
    requires |c| >= 3
    ensures (c[..|c| - 2] + c[|c| - 1..])[1..|c| - 2] == c[1..|c| - 1][..|c| - 3]
  {}

  /** The two sentinels alone, linked. */
  lemma Ring(h: Header)
    requires h.chain == [h.head, h.tail] && h.head != h.tail && !h.lockbit && h.count == 0
    requires h.Owned(h.head) && h.Owned(h.tail) && Linked(h.head, h.tail)
    ensures h.Valid() && h.Listed() == []
  {
    hide Index, Adj, Distinct;
    TwoDistinct(h.head, h.tail);
    forall x, y | x in h.chain && y in h.chain && Adj(h.chain, x, y) ensures Linked(x, y) { Only(h.head, h.tail, x, y); }
  }

  lemma TwoDistinct(a: Element, b: Element)
    requires a != b
    ensures Distinct([a, b])
  {}

  lemma Only(a: Element, b: Element, x: Element, y: Element)
    requires a != b && Adj([a, b], x, y)
    ensures x == a && y == b
  {
    IndexAt([a, b], 0);
    IndexAt([a, b], 1);
  }

  /** With both links set through e, the chain with e in it is linked. */
  lemma Joined(h: Header, c: seq<Element>, x: Element, y: Element, e: Element)
    requires Distinct(c) && Adj(c, x, y) && e !in c
    requires h.AllOwned(c) && h.Owned(e) && LinkedBut(c, {x}) && Linked(x, e) && Linked(e, y)
    ensures var d := InsertAfter(c, x, e); Distinct(d) && h.AllOwned(d) && LinkedBut(d, {})
  {
    hide Index, Distinct, InsertAfter, Header.Owned;
    var d := InsertAfter(c, x, e);
    forall u | u in d ensures h.Owned(u) { IndexInserted(c, x, e, u); }
    forall u, v | u in d && v in d && Adj(d, u, v) ensures Linked(u, v) {
      InsertedAdj(c, x, y, e, u, v);
      if Adj(c, u, v) && u != x { assert u !in {x}; }
    }
    IndexInserted(c, x, e, x);
  }

  /** With both links set past it, the chain without e is linked. */
  lemma Parted(h: Header, c: seq<Element>, x: Element, e: Element, y: Element)
    requires Distinct(c) && Adj(c, x, e) && Adj(c, e, y)
    requires (forall u :: u in c && u != e ==> h.Owned(u)) && LinkedBut(c, {x, e}) && Linked(x, y)
    ensures var d := Delete(c, e); Distinct(d) && h.AllOwned(d) && LinkedBut(d, {})
  {
    hide Index, Distinct, Delete, Header.Owned;
    var d := Delete(c, e);
    forall u | u in d ensures h.Owned(u) { IndexDeleted(c, e, u); }
    forall u, v | u in d && v in d && Adj(d, u, v) ensures Linked(u, v) {
      DeletedAdj(c, x, e, y, u, v);
      if Adj(c, u, v) {
        AdjUnique(c, u, v, x, e);
        assert u != e && v != e ==> u !in {x, e};
      }
    }
    IndexDeleted(c, e, e);
  }

  /** What get_self of an element's operations gives: itself, or NULL for a sentinel. */
  function Self(e: Element): Element?
    reads e
  {
    if e.ops == DefaultOps then e else null
  }

  /** LIST_element_get_next, by the operations of e. */
  method GetNext(e: Element) returns (r: Element?)
    requires e.h != null && e.h.Valid() && e in e.h.chain
    ensures r == if Index(e.h.chain, e) < |e.h.chain| - 2 then e.h.chain[Index(e.h.chain, e) + 1] else null
  {
    hide Index;
    if e.ops == TailOps { return null; }
    ghost var y := HasNext(e.h.chain, e);
    r := Self(e.n);
  }

  /** LIST_element_get_prev, by the operations of e. */
  method GetPrev(e: Element) returns (r: Element?)
    requires e.h != null && e.h.Valid() && e in e.h.chain
    ensures r == if Index(e.h.chain, e) > 1 then e.h.chain[Index(e.h.chain, e) - 1] else null
  {
    hide Index;
    if e.ops == HeadOps { return null; }
    ghost var x := HasPrev(e.h.chain, e);
    r := Self(e.p);
  }

  predicate IsFirst(e: Element)
    reads e, if e.h == null then {} else {e.h}
  {
    e.h != null && e.p == e.h.head
  }

  predicate IsLast(e: Element)
    reads e, if e.h == null then {} else {e.h}
  {
    e.h != null && e.n == e.h.tail
  }

  predicate IsListed(e: Element)
    reads e
  {
    e.h != null
  }

  /** The elements met from x on along the links, up to the first sentinel. */
  ghost function Walk(x: Element?, within: seq<Element>, back: bool, fuel: nat): seq<Element>
    reads within
  {
    if x == null || x !in within || x.ops != DefaultOps || fuel == 0 then []
    else [x] + Walk(if back then x.p else x.n, within, back, fuel - 1)
  }

  function Reversed(c: seq<Element>): (r: seq<Element>)
    ensures |r| == |c| && forall i :: 0 <= i < |c| ==> r[i] == c[|c| - 1 - i]
  {
    if c == [] then [] else Reversed(c[1..]) + [c[0]]
  }

  lemma {:induction false} WalkForward(h: Header, i: nat)
    requires h.Valid() && 0 < i < |h.chain|
    ensures Walk(h.chain[i], h.chain, false, |h.chain| - i) == h.chain[i..|h.chain| - 1]
    decreases |h.chain| - i
  {
    hide Index, Distinct;
    var c := h.chain;
    h.Ends();
    if i < |c| - 1 {
      h.Inner(i);
      var y := HasNext(c, c[i]);
      WalkForward(h, i + 1);
    }
  }

  lemma {:induction false} WalkBackward(h: Header, i: nat)
    requires h.Valid() && i < |h.chain| - 1
    ensures Walk(h.chain[i], h.chain, true, i) == Reversed(h.chain[1..i + 1])
  {
    hide Index, Distinct;
    var c := h.chain;
    h.Ends();
    if i > 0 {
      h.Inner(i);
      var x := HasPrev(c, c[i]);
      WalkBackward(h, i - 1);
    }
  }

  /** From either end the links pass exactly the listed elements, count of them, in opposite orders. */
  lemma WalksMirror(h: Header)
    requires h.Valid()
    ensures |h.Listed()| == h.count
    ensures Walk(h.head.n, h.chain, false, h.count + 1) == h.Listed()
    ensures Walk(h.tail.p, h.chain, true, h.count) == Reversed(h.Listed())
  {
    hide Index, Distinct, Walk;
    h.Ends();
    var y := HasNext(h.chain, h.head);
    var x := HasPrev(h.chain, h.tail);
    WalkForward(h, 1);
    WalkBackward(h, |h.chain| - 2);
  }

  /** The links at an element tell whether it is the first or the last of its list. */
  lemma EndsOfList(h: Header, i: nat)
    requires h.Valid() && i < |h.Listed()|
    ensures var e := h.Listed()[i]; IsListed(e) && (IsFirst(e) <==> i == 0) && (IsLast(e) <==> i == |h.Listed()| - 1)
  {
    hide Index, Distinct;
    h.Ends();
    h.Inner(i + 1);
    var e := h.chain[i + 1];
    var x := HasPrev(h.chain, e);
    var y := HasNext(h.chain, e);
  }

  /** Inserting or deleting in between leaves the ends alone. */
  lemma Grown(c: seq<Element>, x: Element, y: Element, e: Element)
    requires Adj(c, x, y)
    ensures var d := InsertAfter(c, x, e); |d| == |c| + 1 && d[0] == c[0] && d[|d| - 1] == c[|c| - 1]
  {
    hide Index;
  }

  lemma Shrunk(c: seq<Element>, x: Element, e: Element, y: Element)
    requires Adj(c, x, e) && Adj(c, e, y)
    ensures var d := Delete(c, e); |d| == |c| - 1 >= 2 && d[0] == c[0] && d[|d| - 1] == c[|c| - 1]
  {
    hide Index;
  }

  /** cb_list_element_insert_after. */
  method LinkAfter(p: Element, e: Element)
    requires p.h != null ==> p.h.Valid() && p in p.h.chain && p != p.h.tail && e !in p.h.chain
    modifies p.h, if p.h == null then [] else p.h.chain, e
    ensures p.h == old(p.h)
    ensures p.h == null ==> unchanged(e)
    ensures p.h != null ==> p.h.Valid() && p.h.chain == InsertAfter(old(p.h.chain), p, e)
  {
    hide Index, Distinct, Adj, InsertAfter;
    if p.h == null { return; }
    var h := p.h;
    ghost var c := h.chain;
    ghost var y := HasNext(c, p);
    assert Linked(p, y);
    AdjApart(c, p, y);
    e.Init(h);
    var n := p.n;
    assert n == y;
    n.p := e;
    p.n := e;
    e.p := p;
    e.n := n;
    h.count := h.count + 1;
    h.chain := InsertAfter(c, p, e);
    assert Distinct(h.chain) && h.AllOwned(h.chain) && LinkedBut(h.chain, {}) by {
      forall u, v | u in c && v in c && Adj(c, u, v) && u != p ensures Linked(u, v) { AdjUnique(c, u, v, p, y); }
      Joined(h, c, p, y, e);
    }
    Grown(c, p, y, e);
  }

  /** cb_list_element_insert_before. */
  method LinkBefore(n: Element, e: Element)
    requires n.h != null ==> n.h.Valid() && n in n.h.chain && n != n.h.head && e !in n.h.chain
    modifies n.h, if n.h == null then [] else n.h.chain, e
    ensures n.h == old(n.h)
    ensures n.h == null ==> unchanged(e)
    ensures n.h != null ==> n.h.Valid() && n.h.chain == InsertBefore(old(n.h.chain), n, e)
  {
    hide Index, Distinct, Adj, InsertAfter, InsertBefore;
    if n.h == null { return; }
    var h := n.h;
    ghost var c := h.chain;
    ghost var x := HasPrev(c, n);
    assert Linked(x, n);
    AdjApart(c, x, n);
    BeforeIsAfter(c, x, n, e);
    e.Init(h);
    var p := n.p;
    assert p == x;
    p.n := e;
    n.p := e;
    e.n := n;
    e.p := p;
    h.count := h.count + 1;
    h.chain := InsertAfter(c, x, e);
    assert Distinct(h.chain) && h.AllOwned(h.chain) && LinkedBut(h.chain, {}) by {
      forall u, v | u in c && v in c && Adj(c, u, v) && u != x ensures Linked(u, v) { AdjUnique(c, u, v, x, n); }
      Joined(h, c, x, n, e);
    }
    Grown(c, x, n, e);
  }

  /** LIST_element_add_after: nothing is inserted behind the tail. */
  method AddAfter(p: Element, e: Element)
    requires p.h != null && p.h.Valid() && p in p.h.chain && e !in p.h.chain
    modifies p.h, p.h.chain, e
    ensures p.h == old(p.h) && p.h.Valid()
    ensures p.h.chain == if p == p.h.tail then old(p.h.chain) else InsertAfter(old(p.h.chain), p, e)
  {
    if p.ops != TailOps { LinkAfter(p, e); }
  }

  /** LIST_element_add_before: nothing is inserted before the head. */
  method AddBefore(n: Element, e: Element)
    requires n.h != null && n.h.Valid() && n in n.h.chain && e !in n.h.chain
    modifies n.h, n.h.chain, e
    ensures n.h == old(n.h) && n.h.Valid()
    ensures n.h.chain == if n == n.h.head then old(n.h.chain) else InsertBefore(old(n.h.chain), n, e)
  {
    if n.ops != HeadOps { LinkBefore(n, e); }
  }

  /** LIST_element_remove: the sentinels and elements on no list stay as they are. */
  method Remove(e: Element)
    requires e.ops != NoOps
    requires e.h != null ==> e.h.Valid() && e in e.h.chain
    modifies e.h, if e.h == null then [] else e.h.chain, e
    ensures var h := old(e.h);
      if h == null || e == h.head || e == h.tail then
        unchanged(e) && (h != null ==> unchanged(h) && h.Valid())
      else
        !IsListed(e) && h.Valid() && h.chain == Delete(old(h.chain), e)
  {
    hide Index, Distinct, Adj, Delete;
    if e.h == null || e.ops != DefaultOps { return; }
    var h := e.h;
    ghost var c := h.chain;
    ghost var x := HasPrev(c, e);
    ghost var y := HasNext(c, e);
    assert Linked(x, e) && Linked(e, y);
    AdjApart(c, x, e);
    AdjApart(c, e, y);
    var n, p := e.n, e.p;
    assert n == y && p == x;
    n.p := p;
    p.n := n;
    e.Init(null);
    h.count := h.count - 1;
    h.chain := Delete(c, e);
    assert Distinct(h.chain) && h.AllOwned(h.chain) && LinkedBut(h.chain, {}) by {
      forall u, v | u in c && v in c && Adj(c, u, v) && u != x && u != e ensures Linked(u, v) {
        AdjUnique(c, u, v, x, e);
        AdjUnique(c, u, v, e, y);
      }
      Parted(h, c, x, e, y);
    }
    Shrunk(c, x, e, y);
  }
}
