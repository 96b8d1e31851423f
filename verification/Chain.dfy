/** The order of a doubly linked list between its two sentinels, and how it changes. */
module Chain {
  import opened Bytes

  type Node = int

  const HEAD: Node := 0
  const TAIL: Node := 1

  predicate WellFormed(c: seq<Node>) {
    |c| >= 2 && c[0] == HEAD && c[|c| - 1] == TAIL && Distinct(c)
  }

  /** Where x is first found. */
  function Index<T(==)>(c: seq<T>, x: T): (i: nat)
    requires x in c
    ensures i < |c| && c[i] == x
  {
    if c[0] == x then 0 else 1 + Index(c[1..], x)
  }

  /** y comes right behind x. */
  predicate Adj<T(==)>(c: seq<T>, x: T, y: T) {
    x in c && y in c && Index(c, y) == Index(c, x) + 1
  }

  function InsertAfter<T(==)>(c: seq<T>, x: T, e: T): (d: seq<T>)
    requires x in c
    ensures |d| == |c| + 1
  {
    c[..Index(c, x) + 1] + [e] + c[Index(c, x) + 1..]
  }

  function InsertBefore<T(==)>(c: seq<T>, y: T, e: T): (d: seq<T>)
    requires y in c
    ensures |d| == |c| + 1
  {
    c[..Index(c, y)] + [e] + c[Index(c, y)..]
  }

  function Delete<T(==)>(c: seq<T>, e: T): (d: seq<T>)
    requires e in c
    ensures |d| == |c| - 1
  {
    c[..Index(c, e)] + c[Index(c, e) + 1..]
  }

  lemma AdjMembers(c: seq<Node>, x: Node, y: Node)
    requires Adj(c, x, y) && WellFormed(c)
    ensures x != y && x != TAIL && y != HEAD
  {
    hide Index;
    assert c[Index(c, x)] == x && c[Index(c, y)] == y;
  }

  lemma AdjApart<T>(c: seq<T>, x: T, y: T)
    requires Adj(c, x, y)
    ensures x != y && x in c && y in c
  {}

  lemma AdjUnique<T>(c: seq<T>, x: T, y: T, x2: T, y2: T)
    requires Adj(c, x, y) && Adj(c, x2, y2)
    ensures x == x2 <==> y == y2
  {
    hide Index;
    assert c[Index(c, x)] == x && c[Index(c, y)] == y && c[Index(c, x2)] == x2 && c[Index(c, y2)] == y2;
  }

  lemma {:induction false} IndexAt<T>(c: seq<T>, i: nat)
    requires Distinct(c) && i < |c|
    ensures Index(c, c[i]) == i
  {
    hide Index;
    assert c[Index(c, c[i])] == c[i];
  }

  /** Every element but the last has a next one. */
  lemma HasNext<T>(c: seq<T>, x: T) returns (y: T)
    requires Distinct(c) && x in c && x != c[|c| - 1]
    ensures y in c && Adj(c, x, y)
  {
    hide Index;
    y := c[Index(c, x) + 1];
    IndexAt(c, Index(c, x) + 1);
  }

  lemma HasPrev<T>(c: seq<T>, y: T) returns (x: T)
    requires Distinct(c) && y in c && y != c[0]
    ensures x in c && Adj(c, x, y)
  {
    hide Index;
    x := c[Index(c, y) - 1];
    IndexAt(c, Index(c, y) - 1);
  }

  lemma {:induction false} IndexInserted<T>(c: seq<T>, x: T, e: T, z: T)
    requires Distinct(c) && x in c && e !in c
    ensures var d := InsertAfter(c, x, e);
      && Distinct(d) && |d| == |c| + 1
      && (z in d <==> z in c || z == e)
      && (z in c ==> Index(d, z) == if Index(c, z) <= Index(c, x) then Index(c, z) else Index(c, z) + 1)
      && (z == e ==> Index(d, z) == Index(c, x) + 1)
  {
    hide Index;
    var i, d := Index(c, x), InsertAfter(c, x, e);
    assert forall k :: 0 <= k < |d| ==> d[k] == if k <= i then c[k] else if k == i + 1 then e else c[k - 1];
    if z in c {
      IndexAt(d, if Index(c, z) <= i then Index(c, z) else Index(c, z) + 1);
    } else if z == e {
      IndexAt(d, i + 1);
    }
  }

  /** Inserting e between x and y. */
  lemma Inserted(c: seq<Node>, x: Node, y: Node, e: Node)
    requires WellFormed(c) && Adj(c, x, y) && e !in c
    ensures var d := InsertAfter(c, x, e);
      && WellFormed(d) && |d| == |c| + 1
      && (forall z :: z in d <==> z in c || z == e)
      && (forall u, v :: Adj(d, u, v) <==> (Adj(c, u, v) && u != x) || (u == x && v == e) || (u == e && v == y))
  {
    hide Index;
    var i, d := Index(c, x), InsertAfter(c, x, e);
    forall z ensures z in d <==> z in c || z == e { IndexInserted(c, x, e, z); }
    forall u, v ensures Adj(d, u, v) <==> (Adj(c, u, v) && u != x) || (u == x && v == e) || (u == e && v == y) {
      InsertedAdj(c, x, y, e, u, v);
    }
    IndexInserted(c, x, e, x);
  }

  lemma InsertedAdj<T>(c: seq<T>, x: T, y: T, e: T, u: T, v: T)
    requires Distinct(c) && Adj(c, x, y) && e !in c
    ensures var d := InsertAfter(c, x, e);
            Adj(d, u, v) <==> (Adj(c, u, v) && u != x) || (u == x && v == e) || (u == e && v == y)
  {
    hide Index, InsertAfter, Distinct;
    IndexInserted(c, x, e, u);
    IndexInserted(c, x, e, v);
    if u in c { SameIndex(c, u, x); }
    if v in c { SameIndex(c, v, y); }
  }

  /** Inserting before the next one is inserting after its neighbour. */
  lemma BeforeIsAfter<T>(c: seq<T>, x: T, y: T, e: T)
    requires Adj(c, x, y)
    ensures InsertBefore(c, y, e) == InsertAfter(c, x, e)
  {}

  lemma {:induction false} SameIndex<T>(c: seq<T>, u: T, v: T)
    requires u in c && v in c
    ensures Index(c, u) == Index(c, v) <==> u == v
  {
    hide Index;
    assert c[Index(c, u)] == u && c[Index(c, v)] == v;
  }

  lemma {:induction false} IndexDeleted<T>(c: seq<T>, e: T, z: T)
    requires Distinct(c) && e in c
    ensures var d := Delete(c, e);
      && Distinct(d) && |d| == |c| - 1
      && (z in d <==> z in c && z != e)
      && (z in d ==> Index(d, z) == if Index(c, z) < Index(c, e) then Index(c, z) else Index(c, z) - 1)
  {
    hide Index;
    var i, d := Index(c, e), Delete(c, e);
    assert forall k :: 0 <= k < |d| ==> d[k] == if k < i then c[k] else c[k + 1];
    if z in c && z != e {
      var k := Index(c, z);
      assert d[if k < i then k else k - 1] == z;
      IndexAt(d, if k < i then k else k - 1);
    }
  }

  /** Deleting e from between x and y. */
  lemma Deleted(c: seq<Node>, x: Node, e: Node, y: Node)
    requires WellFormed(c) && Adj(c, x, e) && Adj(c, e, y)
    ensures var d := Delete(c, e);
      && WellFormed(d) && |d| == |c| - 1
      && (forall z :: z in d <==> z in c && z != e)
      && (forall u, v :: Adj(d, u, v) <==> (Adj(c, u, v) && u != e && v != e) || (u == x && v == y))
  {
    hide Index;
    var d := Delete(c, e);
    forall z ensures z in d <==> z in c && z != e { IndexDeleted(c, e, z); }
    forall u, v ensures Adj(d, u, v) <==> (Adj(c, u, v) && u != e && v != e) || (u == x && v == y) {
      DeletedAdj(c, x, e, y, u, v);
    }
    IndexDeleted(c, e, e);
    AdjMembers(c, x, e);
    AdjMembers(c, e, y);
  }

  lemma DeletedAdj<T>(c: seq<T>, x: T, e: T, y: T, u: T, v: T)
    requires Distinct(c) && Adj(c, x, e) && Adj(c, e, y)
    ensures var d := Delete(c, e);
            Adj(d, u, v) <==> (Adj(c, u, v) && u != e && v != e) || (u == x && v == y)
  {
    hide Index, Delete, Distinct;
    IndexDeleted(c, e, u);
    IndexDeleted(c, e, v);
    if u in c { SameIndex(c, u, x); SameIndex(c, u, e); }
    if v in c { SameIndex(c, v, y); SameIndex(c, v, e); }
  }
}
