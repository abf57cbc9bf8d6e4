/** Precedence between operations: the strict order generated by the edges of a plan graph,
    and how it reacts to the edge sets the plan works with. */
module Precedence {
  import opened Operations

  type Edge = (OpID, OpID)

  /** There is a walk of exactly `n` edges from `a` to `b`. */
  ghost predicate Walk(E: set<Edge>, a: OpID, b: OpID, n: nat)
    decreases n
  {
    n > 0 && if n == 1 then (a, b) in E else exists c :: (a, c) in E && Walk(E, c, b, n - 1)
  }

  /** `a` must finish before `b` may start. */
  ghost predicate Precedes(E: set<Edge>, a: OpID, b: OpID) {
    exists n: nat :: Walk(E, a, b, n)
  }

  ghost predicate PrecedesOrIs(E: set<Edge>, a: OpID, b: OpID) {
    a == b || Precedes(E, a, b)
  }

  ghost predicate Acyclic(E: set<Edge>) {
    forall a :: !Precedes(E, a, a)
  }

  lemma EdgePrecedes(E: set<Edge>, a: OpID, b: OpID)
    requires (a, b) in E
    ensures Precedes(E, a, b)
  {
    assert Walk(E, a, b, 1);
  }

  lemma {:induction false} WalkConcat(E: set<Edge>, a: OpID, b: OpID, c: OpID, m: nat, n: nat)
    requires Walk(E, a, b, m) && Walk(E, b, c, n)
    ensures Walk(E, a, c, m + n)
    decreases m
  {
    if m > 1 {
      var d :| (a, d) in E && Walk(E, d, b, m - 1);
      WalkConcat(E, d, b, c, m - 1, n);
    }
  }

  lemma PrecedesTrans(E: set<Edge>, a: OpID, b: OpID, c: OpID)
    requires Precedes(E, a, b) && Precedes(E, b, c)
    ensures Precedes(E, a, c)
  {
    var m: nat :| Walk(E, a, b, m);
    var n: nat :| Walk(E, b, c, n);
    WalkConcat(E, a, b, c, m, n);
  }

  /** Transitivity as a fact for every triple. */
  lemma PrecedesTransAll(E: set<Edge>)
    ensures forall a, b, c :: Precedes(E, a, b) && Precedes(E, b, c) ==> Precedes(E, a, c)
  {
    forall a, b, c | Precedes(E, a, b) && Precedes(E, b, c)
      ensures Precedes(E, a, c)
    {
      PrecedesTrans(E, a, b, c);
    }
  }

  lemma FirstStep(E: set<Edge>, a: OpID, b: OpID) returns (c: OpID)
    requires Precedes(E, a, b)
    ensures (a, c) in E && PrecedesOrIs(E, c, b)
  {
    var n: nat :| Walk(E, a, b, n);
    if n == 1 {
      c := b;
    } else {
      c :| (a, c) in E && Walk(E, c, b, n - 1);
    }
  }

  lemma {:induction false} WalkLastStep(E: set<Edge>, a: OpID, b: OpID, n: nat) returns (c: OpID)
    requires Walk(E, a, b, n)
    ensures (c, b) in E && PrecedesOrIs(E, a, c)
    decreases n
  {
    if n == 1 {
      c := a;
    } else {
      var d :| (a, d) in E && Walk(E, d, b, n - 1);
      c := WalkLastStep(E, d, b, n - 1);
      EdgePrecedes(E, a, d);
      if d != c {
        PrecedesTrans(E, a, d, c);
      }
    }
  }

  lemma LastStep(E: set<Edge>, a: OpID, b: OpID) returns (c: OpID)
    requires Precedes(E, a, b)
    ensures (c, b) in E && PrecedesOrIs(E, a, c)
  {
    var n: nat :| Walk(E, a, b, n);
    c := WalkLastStep(E, a, b, n);
  }

  lemma {:induction false} WalkMono(E: set<Edge>, F: set<Edge>, a: OpID, b: OpID, n: nat)
    requires E <= F && Walk(E, a, b, n)
    ensures Walk(F, a, b, n)
    decreases n
  {
    if n > 1 {
      var c :| (a, c) in E && Walk(E, c, b, n - 1);
      WalkMono(E, F, c, b, n - 1);
    }
  }

  lemma PrecedesMono(E: set<Edge>, F: set<Edge>, a: OpID, b: OpID)
    requires E <= F && Precedes(E, a, b)
    ensures Precedes(F, a, b)
  {
    var n: nat :| Walk(E, a, b, n);
    WalkMono(E, F, a, b, n);
  }

  lemma AcyclicSubset(E: set<Edge>, F: set<Edge>)
    requires E <= F && Acyclic(F)
    ensures Acyclic(E)
  {
    forall a ensures !Precedes(E, a, a) {
      if Precedes(E, a, a) {
        PrecedesMono(E, F, a, a);
      }
    }
  }

  /** A relation that contains the edges and is transitive contains the precedence order. */
  lemma {:induction false} WalkRefines(E: set<Edge>, F: set<Edge>, a: OpID, b: OpID, n: nat)
    requires forall x, y :: (x, y) in E ==> Precedes(F, x, y)
    requires Walk(E, a, b, n)
    ensures Precedes(F, a, b)
    decreases n
  {
    if n > 1 {
      var c :| (a, c) in E && Walk(E, c, b, n - 1);
      WalkRefines(E, F, c, b, n - 1);
      PrecedesTrans(F, a, c, b);
    }
  }

  /** A set closed under outgoing edges keeps every walk that starts in it. */
  lemma {:induction false} WalkStaysIn(E: set<Edge>, S: set<OpID>, a: OpID, b: OpID, n: nat)
    requires forall x, y :: (x, y) in E && (x in S || x == a) ==> y in S
    requires Walk(E, a, b, n)
    ensures b in S
    decreases n
  {
    if n > 1 {
      var c :| (a, c) in E && Walk(E, c, b, n - 1);
      WalkStaysIn(E, S, c, b, n - 1);
    }
  }

  lemma PrecedesStaysIn(E: set<Edge>, S: set<OpID>, a: OpID, b: OpID)
    requires forall x, y :: (x, y) in E && (x in S || x == a) ==> y in S
    requires Precedes(E, a, b)
    ensures b in S
  {
    var n: nat :| Walk(E, a, b, n);
    WalkStaysIn(E, S, a, b, n);
  }

  // ----- adding one edge -----

  /** What a new edge `(p, q)` can make reachable: only pairs that go through it. */
  lemma {:induction false} WalkAddEdge(E: set<Edge>, p: OpID, q: OpID, a: OpID, b: OpID, n: nat)
    requires Walk(E + {(p, q)}, a, b, n)
    ensures Precedes(E, a, b) || (PrecedesOrIs(E, a, p) && PrecedesOrIs(E, q, b))
    decreases n
  {
    var F := E + {(p, q)};
    if n == 1 {
      if (a, b) in E { EdgePrecedes(E, a, b); }
    } else {
      var c :| (a, c) in F && Walk(F, c, b, n - 1);
      WalkAddEdge(E, p, q, c, b, n - 1);
      if (a, c) in E {
        EdgePrecedes(E, a, c);
        PrecedesTransAll(E);
      }
    }
  }

  /** The library's cycle check is exact: an edge keeps the graph acyclic iff it is not a loop
      and its target does not already precede its source. */
  lemma AddEdgeAcyclic(E: set<Edge>, p: OpID, q: OpID)
    requires Acyclic(E)
    ensures Acyclic(E + {(p, q)}) <==> p != q && !Precedes(E, q, p)
  {
    var F := E + {(p, q)};
    EdgePrecedes(F, p, q);
    if Precedes(E, q, p) {
      PrecedesMono(E, F, q, p);
      PrecedesTrans(F, p, q, p);
      assert Precedes(F, p, p);
    } else if p == q {
      assert Precedes(F, p, p);
    } else {
      forall a ensures !Precedes(F, a, a) {
        if Precedes(F, a, a) {
          var n: nat :| Walk(F, a, a, n);
          WalkAddEdge(E, p, q, a, a, n);
          PrecedesTransAll(E);
        }
      }
    }
  }

  /** An edge of an acyclic graph is never refused when it is added to a part of that graph. */
  lemma SubgraphEdgeNotRefused(E: set<Edge>, F: set<Edge>, p: OpID, q: OpID)
    requires E <= F && Acyclic(F) && (p, q) in F
    ensures p != q && !Precedes(E, q, p)
  {
    EdgePrecedes(F, p, q);
    if Precedes(E, q, p) {
      PrecedesMono(E, F, q, p);
      PrecedesTrans(F, p, q, p);
    }
  }

  /** All edges of `E` join members of `V`. */
  ghost predicate Within(E: set<Edge>, V: set<OpID>) {
    forall x, y :: (x, y) in E ==> x in V && y in V
  }

  lemma PrecedesWithin(E: set<Edge>, V: set<OpID>, a: OpID, b: OpID)
    requires Within(E, V) && Precedes(E, a, b)
    ensures a in V && b in V
  {
    var c := FirstStep(E, a, b);
    var d := LastStep(E, a, b);
  }

  /** A new operation between two that are ordered already closes no cycle. */
  lemma FreshBetween(E: set<Edge>, V: set<OpID>, a: OpID, x: OpID, b: OpID)
    requires Within(E, V) && Acyclic(E) && x !in V && a in V && b in V && Precedes(E, a, b)
    ensures Acyclic(E + {(a, x), (x, b)})
  {
    var F := E + {(a, x)};
    if Precedes(E, x, a) { PrecedesWithin(E, V, x, a); }
    AddEdgeAcyclic(E, a, x);
    if Precedes(F, b, x) {
      var n: nat :| Walk(F, b, x, n);
      WalkAddEdge(E, a, x, b, x, n);
      if Precedes(E, b, x) { PrecedesWithin(E, V, b, x); }
      PrecedesTransAll(E);
    }
    AddEdgeAcyclic(F, x, b);
    assert E + {(a, x), (x, b)} == F + {(x, b)};
  }
}
