/** Optimising a plan changes the orders in which it can be begun only by erasing the removed
    operations, if the pool has room. */
module OptimizedOrders {
  import opened Operations
  import opened Precedence
  import opened PlanGraph
  import opened StartOrders
  import opened PoolRoom

  // ----- erasing operations from an order -----

  ghost function Keep(l: seq<OpID>, K: set<OpID>): seq<OpID> {
    if l == [] then [] else (if l[0] in K then [l[0]] else []) + Keep(l[1..], K)
  }

  lemma {:induction false} KeepConcat(a: seq<OpID>, b: seq<OpID>, K: set<OpID>)
    ensures Keep(a + b, K) == Keep(a, K) + Keep(b, K)
  {
    var c := a + b;
    if a == [] {
      assert c == b;
    } else {
      var rest, head := a[1..], if a[0] in K then [a[0]] else [];
      assert c[0] == a[0] && c[1..] == rest + b;
      KeepConcat(rest, b, K);
      assert Keep(c, K) == head + Keep(rest + b, K) && Keep(a, K) == head + Keep(rest, K);
    }
  }

  lemma {:induction false} KeepAll(l: seq<OpID>, K: set<OpID>)
    requires forall x :: x in l ==> x in K
    ensures Keep(l, K) == l
  {
    if l != [] { KeepAll(l[1..], K); }
  }

  lemma {:induction false} KeepMembers(l: seq<OpID>, K: set<OpID>)
    ensures forall x :: x in Keep(l, K) <==> x in l && x in K
  {
    if l != [] { KeepMembers(l[1..], K); }
  }

  /** Erasing keeps an order respectful of the same precedence. */
  lemma {:induction false} KeepOrdered(E: set<Edge>, l: seq<OpID>, K: set<OpID>)
    requires Ordered(E, l)
    ensures Ordered(E, Keep(l, K))
    decreases |l|
  {
    if l != [] {
      KeepOrdered(E, l[1..], K);
      KeepMembers(l[1..], K);
      assert l[0] in K ==> Keep(l, K)[1..] == Keep(l[1..], K);
      assert l[0] !in K ==> Keep(l, K) == Keep(l[1..], K);
    }
  }

  /** An order of part of the operations can take in one more. */
  lemma {:induction false} InsertInOrder(E: set<Edge>, x: OpID, l: seq<OpID>, K: set<OpID>) returns (m: seq<OpID>)
    requires Acyclic(E) && Ordered(E, l) && x !in l && x !in K
    ensures Ordered(E, m) && Keep(m, K) == Keep(l, K)
    ensures forall y :: y in m <==> y == x || y in l
    decreases |l|
  {
    if y :| y in l && Precedes(E, y, x) {
      var rest := InsertInOrder(E, x, l[1..], K);
      m := [l[0]] + rest;
      assert m[1..] == rest;
      if Precedes(E, x, l[0]) { PrecedesTrans(E, y, x, l[0]); }
    } else {
      m := [x] + l;
      assert m[1..] == l;
    }
  }

  lemma {:induction false} ExtendOrder(E: set<Edge>, S: set<OpID>, V: set<OpID>, l: seq<OpID>, K: set<OpID>)
      returns (m: seq<OpID>)
    requires Acyclic(E) && K <= S <= V && StartOrder(E, S, l)
    ensures StartOrder(E, V, m) && Keep(m, K) == Keep(l, K)
    decreases |V - S|
  {
    if x :| x in V - S {
      var l' := InsertInOrder(E, x, l, K);
      assert V - (S + {x}) == (V - S) - {x};
      m := ExtendOrder(E, S + {x}, V, l', K);
    } else {
      forall x | x in V ensures x in S { assert x !in V - S; }
      m := l;
    }
  }

  lemma {:induction false} OrderedUnder(E: set<Edge>, F: set<Edge>, S: set<OpID>, l: seq<OpID>)
    requires forall a, b :: a in S && b in S ==> (Precedes(E, a, b) <==> Precedes(F, a, b))
    requires Ordered(E, l) && forall x :: x in l ==> x in S
    ensures Ordered(F, l)
    decreases |l|
  {
    if l != [] {
      forall y | y in l[1..] ensures y in S { assert y in l; }
      OrderedUnder(E, F, S, l[1..]);
    }
  }

  ghost predicate HasRoom(g: Graph, parallelism: nat) {
    Roomy(g.edges, g.ops.Keys, parallelism)
  }

  /** Some successful execution of `g` begins the operations that `h` still has in the order `l`. */
  ghost predicate ProducesErased(g: Graph, h: Graph, parallelism: nat, l: seq<OpID>) {
    exists m :: Produces(JobOf(g, parallelism), m) && Keep(m, h.ops.Keys) == l
  }

  /** Some execution of `g` has, at some moment, begun exactly `l` of the operations that `h` has. */
  ghost predicate BeginsErased(g: Graph, h: Graph, parallelism: nat, l: seq<OpID>) {
    exists m :: Begins(JobOf(g, parallelism), m) && Keep(m, h.ops.Keys) == l
  }

  /** What is left of a plan has room where the plan had. */
  lemma RoomSurvives(g: Graph, h: Graph, parallelism: nat)
    requires ValidGraph(h) && Survives(g, h) && HasRoom(g, parallelism)
    ensures HasRoom(h, parallelism)
  {
    forall q, c, S | Precedes(h.edges, q, c) && Beside(h.edges, h.ops.Keys, q, c, S) ensures |S| < parallelism {
      PrecedesWithin(h.edges, h.ops.Keys, q, c);
      assert Beside(g.edges, g.ops.Keys, q, c, S);
    }
  }

  /** Erasing the removed operations turns an order of the plan into one of the optimised plan. */
  lemma ErasedIsOrder(g: Graph, h: Graph, m: seq<OpID>)
    requires Survives(g, h) && StartOrder(g.edges, g.ops.Keys, m)
    ensures StartOrder(h.edges, h.ops.Keys, Keep(m, h.ops.Keys))
  {
    var S := h.ops.Keys;
    KeepOrdered(g.edges, m, S);
    KeepMembers(m, S);
    OrderedUnder(g.edges, h.edges, S, Keep(m, S));
  }

  /** Every order of the optimised plan comes from one of the plan. */
  lemma OrderIsErased(g: Graph, h: Graph, l: seq<OpID>) returns (m: seq<OpID>)
    requires ValidGraph(g) && Survives(g, h) && StartOrder(h.edges, h.ops.Keys, l)
    ensures StartOrder(g.edges, g.ops.Keys, m) && Keep(m, h.ops.Keys) == l
  {
    var S := h.ops.Keys;
    OrderedUnder(h.edges, g.edges, S, l);
    m := ExtendOrder(g.edges, S, g.ops.Keys, l, S);
    KeepAll(l, S);
  }

  /** Optimising preserves meaning: if the pool has room for the original plan, the executor can
      start the optimised plan in an order `l` iff it can start the original plan in an order that
      is `l` once the removed operations are erased. If it has room for the optimised plan only,
      erasing still gives no order that the optimised plan could not be started in. */
  lemma OptimizeKeepsStartOrders(g: Graph, h: Graph, parallelism: nat, l: seq<OpID>)
    requires ValidGraph(g) && ValidGraph(h) && Survives(g, h) && parallelism > 0
    ensures HasRoom(h, parallelism) && ProducesErased(g, h, parallelism, l) ==> Produces(JobOf(h, parallelism), l)
    ensures HasRoom(g, parallelism) ==>
      (Produces(JobOf(h, parallelism), l) <==> ProducesErased(g, h, parallelism, l))
  {
    var i, j := JobOf(g, parallelism), JobOf(h, parallelism);
    if HasRoom(g, parallelism) { RoomSurvives(g, h, parallelism); }
    if HasRoom(h, parallelism) {
      if m :| Produces(i, m) && Keep(m, h.ops.Keys) == l {
        ProducedIsStartOrder(i, m);
        ErasedIsOrder(g, h, m);
        ProducesIffStartOrder(j, l);
      }
    }
    if HasRoom(g, parallelism) && Produces(j, l) {
      ProducedIsStartOrder(j, l);
      var m := OrderIsErased(g, h, l);
      ProducesIffStartOrder(i, m);
    }
  }

  /** Erasing keeps prefixes. */
  lemma KeepPrefix(l: seq<OpID>, m: seq<OpID>, K: set<OpID>)
    requires l <= m
    ensures Keep(l, K) <= Keep(m, K)
  {
    assert m == l + m[|l|..];
    KeepConcat(l, m[|l|..], K);
  }

  /** Every prefix of an erased order is an erased prefix. */
  lemma {:induction false} PrefixOfKept(m: seq<OpID>, K: set<OpID>, l: seq<OpID>) returns (p: seq<OpID>)
    requires l <= Keep(m, K)
    ensures p <= m && Keep(p, K) == l
    decreases |m|
  {
    if l == Keep(m, K) {
      p := m;
    } else {
      var front, last := m[..|m| - 1], m[|m| - 1];
      assert m == front + [last];
      KeepConcat(front, [last], K);
      assert Keep([last], K) == (if last in K then [last] else []) + Keep([], K);
      p := PrefixOfKept(front, K, l);
    }
  }

  /** The same for executions that go on, fail or are cancelled: what the optimised plan can have
      begun is exactly what the original one can, with the removed operations erased. */
  lemma OptimizeKeepsBegun(g: Graph, h: Graph, parallelism: nat, l: seq<OpID>)
    requires ValidGraph(g) && ValidGraph(h) && Survives(g, h) && parallelism > 0
    ensures HasRoom(h, parallelism) && BeginsErased(g, h, parallelism, l) ==> Begins(JobOf(h, parallelism), l)
    ensures HasRoom(g, parallelism) ==>
      (Begins(JobOf(h, parallelism), l) <==> BeginsErased(g, h, parallelism, l))
  {
    if HasRoom(g, parallelism) { RoomSurvives(g, h, parallelism); }
    if HasRoom(h, parallelism) {
      if p :| Begins(JobOf(g, parallelism), p) && Keep(p, h.ops.Keys) == l { ErasedBegins(g, h, parallelism, p); }
    }
    if HasRoom(g, parallelism) && Begins(JobOf(h, parallelism), l) {
      var p := BegunFromErased(g, h, parallelism, l);
    }
  }

  lemma ErasedBegins(g: Graph, h: Graph, parallelism: nat, p: seq<OpID>)
    requires ValidGraph(g) && ValidGraph(h) && Survives(g, h) && parallelism > 0
    requires HasRoom(h, parallelism) && Begins(JobOf(g, parallelism), p)
    ensures Begins(JobOf(h, parallelism), Keep(p, h.ops.Keys))
  {
    var K := h.ops.Keys;
    BeginsIffPrefix(JobOf(g, parallelism), p);
    var m :| Produces(JobOf(g, parallelism), m) && p <= m;
    OptimizeKeepsStartOrders(g, h, parallelism, Keep(m, K));
    KeepPrefix(p, m, K);
    BeginsIffPrefix(JobOf(h, parallelism), Keep(p, K));
  }

  lemma BegunFromErased(g: Graph, h: Graph, parallelism: nat, l: seq<OpID>) returns (p: seq<OpID>)
    requires ValidGraph(g) && ValidGraph(h) && Survives(g, h) && parallelism > 0
    requires HasRoom(g, parallelism) && Begins(JobOf(h, parallelism), l)
    ensures Begins(JobOf(g, parallelism), p) && Keep(p, h.ops.Keys) == l
  {
    var K := h.ops.Keys;
    BeginsIffPrefix(JobOf(h, parallelism), l);
    var whole :| Produces(JobOf(h, parallelism), whole) && l <= whole;
    OptimizeKeepsStartOrders(g, h, parallelism, whole);
    var m :| Produces(JobOf(g, parallelism), m) && Keep(m, K) == whole;
    p := PrefixOfKept(m, K, l);
    BeginsIffPrefix(JobOf(g, parallelism), p);
  }
}
