/** The two graph rewrites behind `Plan.Optimize`, on edge sets: squashing one operation and
    transitive reduction. Both keep the precedence order of what remains. */
module GraphRewrites {
  import opened Operations
  import opened Precedence

  // ----- squashing one operation -----

  ghost function Preds(E: set<Edge>, x: OpID): set<OpID> {
    set e | e in E && e.1 == x :: e.0
  }

  ghost function Succs(E: set<Edge>, x: OpID): set<OpID> {
    set e | e in E && e.0 == x :: e.1
  }

  ghost function Detach(E: set<Edge>, x: OpID): set<Edge> {
    set e | e in E && e.0 != x && e.1 != x
  }

  /** Every predecessor of `x` joined to every successor of `x`. */
  ghost function Bypass(E: set<Edge>, x: OpID): set<Edge> {
    set p, q | p in Preds(E, x) && q in Succs(E, x) :: (p, q)
  }

  ghost function SquashEdges(E: set<Edge>, x: OpID): set<Edge> {
    Detach(E, x) + Bypass(E, x)
  }

  lemma {:induction false} SquashKeepsWalk(E: set<Edge>, x: OpID, a: OpID, b: OpID, n: nat)
    requires Walk(E, a, b, n) && a != x && b != x && Acyclic(E)
    ensures Precedes(SquashEdges(E, x), a, b)
    decreases n
  {
    var S := SquashEdges(E, x);
    if n == 1 {
      EdgePrecedes(S, a, b);
    } else {
      var c :| (a, c) in E && Walk(E, c, b, n - 1);
      if c != x {
        SquashKeepsWalk(E, x, c, b, n - 1);
        EdgePrecedes(S, a, c);
        PrecedesTrans(S, a, c, b);
      } else if n == 2 {
        assert a in Preds(E, x) && b in Succs(E, x);
        EdgePrecedes(S, a, b);
      } else {
        var d :| (x, d) in E && Walk(E, d, b, n - 2);
        EdgePrecedes(E, x, d);
        assert d != x;
        SquashKeepsWalk(E, x, d, b, n - 2);
        assert a in Preds(E, x) && d in Succs(E, x);
        EdgePrecedes(S, a, d);
        PrecedesTrans(S, a, d, b);
      }
    }
  }

  lemma SquashEdgePrecedes(E: set<Edge>, x: OpID, a: OpID, b: OpID)
    requires (a, b) in SquashEdges(E, x)
    ensures Precedes(E, a, b)
  {
    if (a, b) in E {
      EdgePrecedes(E, a, b);
    } else {
      assert a in Preds(E, x) && b in Succs(E, x);
      assert (a, x) in E && (x, b) in E;
      EdgePrecedes(E, a, x);
      EdgePrecedes(E, x, b);
      PrecedesTrans(E, a, x, b);
    }
  }

  /** Squashing `x` keeps precedence exactly between all other operations, keeps the graph
      acyclic, and leaves no edge at `x`. */
  lemma SquashPreservesPrecedence(E: set<Edge>, x: OpID)
    requires Acyclic(E)
    ensures forall a, b :: a != x && b != x ==> (Precedes(SquashEdges(E, x), a, b) <==> Precedes(E, a, b))
    ensures Acyclic(SquashEdges(E, x))
    ensures forall a, b :: (a, b) in SquashEdges(E, x) ==> a != x && b != x
  {
    var S := SquashEdges(E, x);
    forall a, b | Precedes(S, a, b) ensures Precedes(E, a, b) {
      var n: nat :| Walk(S, a, b, n);
      forall p, q | (p, q) in S ensures Precedes(E, p, q) { SquashEdgePrecedes(E, x, p, q); }
      WalkRefines(S, E, a, b, n);
    }
    forall a, b | a != x && b != x && Precedes(E, a, b) ensures Precedes(S, a, b) {
      var n: nat :| Walk(E, a, b, n);
      SquashKeepsWalk(E, x, a, b, n);
    }
    forall a, b | (a, b) in S ensures a != x && b != x {
      if (a, b) in Bypass(E, x) {
        assert (a, x) in E && (x, b) in E;
        EdgePrecedes(E, a, x);
        EdgePrecedes(E, x, b);
      }
    }
  }

  // ----- transitive reduction -----

  /** An edge is redundant when some operation lies strictly between its ends. */
  ghost predicate Redundant(E: set<Edge>, e: Edge) {
    exists c :: Precedes(E, e.0, c) && Precedes(E, c, e.1)
  }

  ghost function Reduction(E: set<Edge>): set<Edge> {
    set e | e in E && !Redundant(E, e)
  }

  ghost function Between(E: set<Edge>, V: set<OpID>, a: OpID, b: OpID): set<OpID> {
    set c | c in V && Precedes(E, a, c) && Precedes(E, c, b)
  }

  lemma SubsetSmaller(s: set<OpID>, t: set<OpID>, c: OpID)
    requires s <= t && c in t && c !in s
    ensures |s| < |t|
  {
    assert s <= t - {c};
    SubsetSize(s, t - {c});
  }

  lemma {:induction false} SubsetSize(s: set<OpID>, t: set<OpID>)
    requires s <= t
    ensures |s| <= |t|
  {
    if s != {} {
      var c :| c in s;
      SubsetSize(s - {c}, t - {c});
    }
  }

  /** Induction on the number of operations strictly between `a` and `b`. */
  lemma {:induction false} ReductionKeeps(E: set<Edge>, V: set<OpID>, a: OpID, b: OpID)
    requires Acyclic(E) && Within(E, V) && Precedes(E, a, b)
    ensures Precedes(Reduction(E), a, b)
    decreases |Between(E, V, a, b)|
  {
    if c :| c in Between(E, V, a, b) {
      PrecedesTransAll(E);
      assert c !in Between(E, V, a, c) && c !in Between(E, V, c, b);
      SubsetSmaller(Between(E, V, a, c), Between(E, V, a, b), c);
      SubsetSmaller(Between(E, V, c, b), Between(E, V, a, b), c);
      ReductionKeeps(E, V, a, c);
      ReductionKeeps(E, V, c, b);
      PrecedesTrans(Reduction(E), a, c, b);
    } else {
      var c := FirstStep(E, a, b);
      EdgePrecedes(E, a, c);
      PrecedesWithin(E, V, a, c);
      assert c == b || c in Between(E, V, a, b);
      forall d ensures !(Precedes(E, a, d) && Precedes(E, d, b)) {
        if Precedes(E, a, d) {
          PrecedesWithin(E, V, a, d);
          assert d !in Between(E, V, a, b);
        }
      }
      EdgePrecedes(Reduction(E), a, b);
    }
  }

  /** Transitive reduction keeps precedence and is minimal: dropping any edge it keeps would
      lose a pair. */
  lemma ReductionPreservesPrecedence(E: set<Edge>, V: set<OpID>)
    requires Acyclic(E) && Within(E, V)
    ensures Reduction(E) <= E && Acyclic(Reduction(E))
    ensures forall a, b :: Precedes(Reduction(E), a, b) <==> Precedes(E, a, b)
    ensures forall e :: e in Reduction(E) ==> !Precedes(Reduction(E) - {e}, e.0, e.1)
  {
    var R := Reduction(E);
    AcyclicSubset(R, E);
    forall a, b ensures Precedes(R, a, b) <==> Precedes(E, a, b) {
      if Precedes(R, a, b) { PrecedesMono(R, E, a, b); }
      if Precedes(E, a, b) { ReductionKeeps(E, V, a, b); }
    }
    forall e | e in R ensures !Precedes(R - {e}, e.0, e.1) {
      assert e == (e.0, e.1);
      if Precedes(R - {e}, e.0, e.1) {
        var c := FirstStep(R - {e}, e.0, e.1);
        EdgePrecedes(E, e.0, c);
        PrecedesMono(R - {e}, E, c, e.1);
      }
    }
  }

  /** In an acyclic graph an edge is redundant iff its target can be reached without it, which
      is how the library decides. */
  lemma RedundantIffDetour(E: set<Edge>, e: Edge)
    requires Acyclic(E) && e in E
    ensures Redundant(E, e) <==> Precedes(E - {e}, e.0, e.1)
  {
    var F := E - {e};
    if Redundant(E, e) {
      var c :| Precedes(E, e.0, c) && Precedes(E, c, e.1);
      AvoidsEdge(E, e, e.0, c, c);
      AvoidsEdge(E, e, c, e.1, c);
      PrecedesTrans(F, e.0, c, e.1);
    }
    if Precedes(F, e.0, e.1) {
      var c := FirstStep(F, e.0, e.1);
      assert c != e.1 by { assert e == (e.0, e.1); }
      EdgePrecedes(E, e.0, c);
      PrecedesMono(F, E, c, e.1);
    }
  }

  /** A pair on one side of an operation strictly inside `e` needs no use of `e`. */
  lemma AvoidsEdge(E: set<Edge>, e: Edge, a: OpID, b: OpID, mid: OpID)
    requires Acyclic(E) && e in E
    requires Precedes(E, e.0, mid) && Precedes(E, mid, e.1)
    requires (a == e.0 && b == mid) || (a == mid && b == e.1)
    requires Precedes(E, a, b)
    ensures Precedes(E - {e}, a, b)
  {
    var F := E - {e};
    assert F + {(e.0, e.1)} == E;
    var n: nat :| Walk(E, a, b, n);
    WalkAddEdge(F, e.0, e.1, a, b, n);
    if !Precedes(F, a, b) {
      if a == e.0 {
        if e.1 != b { PrecedesMono(F, E, e.1, b); }
        PrecedesTransAll(E);
      } else {
        if a != e.0 { PrecedesMono(F, E, a, e.0); }
        PrecedesTransAll(E);
      }
    }
  }
}
