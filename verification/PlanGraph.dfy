/** The plan graph and its optimiser (pkg/plan/plan.go). `Plan` holds the graph and is changed in
    place; `Graph` is its value, about which the properties are stated. */
module PlanGraph {
  import opened Operations
  import opened Precedence
  import opened GraphRewrites

  datatype Graph = Graph(ops: map<OpID, Operation>, edges: set<Edge>)

  /** What the graph library maintains: vertices keyed by their ID, edges between vertices,
      no cycle. */
  ghost predicate ValidGraph(g: Graph) {
    && (forall id :: id in g.ops ==> g.ops[id].ID() == id)
    && Within(g.edges, g.ops.Keys)
    && Acyclic(g.edges)
  }

  datatype GraphError = VertexNotFound | VertexAlreadyExists | EdgeCreatesCycle
  datatype Outcome = Ok | Err(error: GraphError)

  /** `h` is what is left of `g`: the surviving operations are unchanged and their precedence
      is exactly what it was. */
  ghost predicate Survives(g: Graph, h: Graph) {
    && h.ops.Keys <= g.ops.Keys
    && (forall id :: id in h.ops ==> h.ops[id] == g.ops[id])
    && (forall a, b :: a in h.ops && b in h.ops ==> (Precedes(h.edges, a, b) <==> Precedes(g.edges, a, b)))
  }

  lemma SurvivesTrans(f: Graph, g: Graph, h: Graph)
    requires Survives(f, g) && Survives(g, h)
    ensures Survives(f, h)
  {
  }

  ghost function Squashed(g: Graph, x: OpID): Graph {
    Graph(g.ops - {x}, SquashEdges(g.edges, x))
  }

  lemma SquashedSurvives(g: Graph, x: OpID)
    requires ValidGraph(g)
    ensures ValidGraph(Squashed(g, x)) && Survives(g, Squashed(g, x))
  {
    SquashPreservesPrecedence(g.edges, x);
    forall a, b | (a, b) in SquashEdges(g.edges, x) ensures a in g.ops && b in g.ops {
      SquashEdgePrecedes(g.edges, x, a, b);
      PrecedesWithin(g.edges, g.ops.Keys, a, b);
    }
  }

  lemma BypassEnds(E: set<Edge>, x: OpID, V: set<OpID>, preds: set<OpID>, succs: set<OpID>)
    requires Within(E, V) && preds == Preds(E, x) && succs == Succs(E, x)
    ensures preds <= V && succs <= V
    ensures forall p, q :: p in preds && q in succs ==> (p, q) in SquashEdges(E, x)
    ensures SquashEdges(E, x) == Detach(E, x) + set p, q | p in preds && q in succs :: (p, q)
  {
    forall p | p in preds ensures p in V { assert (p, x) in E; }
    forall q | q in succs ensures q in V { assert (x, q) in E; }
    forall p, q | p in preds && q in succs ensures (p, q) in SquashEdges(E, x) {
      assert (p, q) in Bypass(E, x);
    }
  }

  // ----- stage brackets -----

  predicate IsBracket(op: Operation, isEnd: bool) {
    && op.typ == TypeNoop && op.category == CategoryMeta
    && op.ID().config.Bracket? && op.ID().config.isEnd == isEnd
  }

  predicate IsStageBracket(op: Operation) {
    IsBracket(op, false) || IsBracket(op, true)
  }

  /** The ID of the closing bracket that belongs to an opening bracket's ID. */
  function EndOf(start: OpID): OpID {
    if start.config.Bracket? then start.(config := Bracket(start.config.ref, true)) else start
  }

  predicate IsStart(ops: map<OpID, Operation>, id: OpID) {
    id in ops && IsBracket(ops[id], false) && ops[id].ID() == id
  }

  /** Every opening bracket has its closing bracket in the plan. */
  ghost predicate PairedBrackets(ops: map<OpID, Operation>)
  {
    forall id :: IsStart(ops, id) ==> EndOf(id) in ops && IsBracket(ops[EndOf(id)], true)
  }

  /** The opening bracket `id` leads to its own closing bracket and nowhere else. */
  ghost predicate UselessStart(g: Graph, id: OpID) {
    IsStart(g.ops, id) && Succs(g.edges, id) == {EndOf(id)}
  }

  ghost predicate NoUselessPair(g: Graph) {
    forall id :: !UselessStart(g, id)
  }

  // ----- tracking operations -----

  ghost predicate HasResourceAfter(g: Graph, id: OpID) {
    exists r :: r in g.ops && g.ops[r].category == CategoryResource && Precedes(g.edges, id, r)
  }

  /** A tracking operation after which no resource operation comes. */
  ghost predicate FinalTracking(g: Graph, id: OpID) {
    id in g.ops && g.ops[id].category == CategoryTrack && !HasResourceAfter(g, id)
  }

  lemma FinalTrackingStable(g: Graph, h: Graph, id: OpID)
    requires Survives(g, h) && id in h.ops
    requires forall r :: r in g.ops && g.ops[r].category == CategoryResource ==> r in h.ops
    ensures FinalTracking(h, id) <==> FinalTracking(g, id)
  {
    if HasResourceAfter(g, id) {
      var r :| r in g.ops && g.ops[r].category == CategoryResource && Precedes(g.edges, id, r);
      assert r in h.ops && h.ops[r].category == CategoryResource && Precedes(h.edges, id, r);
    }
    if HasResourceAfter(h, id) {
      var r :| r in h.ops && h.ops[r].category == CategoryResource && Precedes(h.edges, id, r);
      assert r in g.ops && g.ops[r].category == CategoryResource && Precedes(g.edges, id, r);
    }
  }

  // ----- what Optimize promises -----

  /** Survivors keep their precedence; only brackets are removed, and, on request, exactly the
      final tracking operations. */
  ghost predicate Optimized(g: Graph, h: Graph, noFinalTracking: bool) {
    && Survives(g, h)
    && (forall id :: id in g.ops && id !in h.ops ==>
          IsStageBracket(g.ops[id]) || (noFinalTracking && FinalTracking(g, id)))
    && (noFinalTracking ==> forall id :: id in h.ops ==> !FinalTracking(g, id))
    && (!noFinalTracking ==> NoUselessPair(h))
  }

  // ----- nothing needless is left -----

  /** Something that was removed lies between `a` and `b`, in no order with `c`. */
  ghost predicate BridgedBeside(g: Graph, h: Graph, a: OpID, b: OpID, c: OpID) {
    exists x :: x in g.ops && x !in h.ops && Precedes(g.edges, a, x) && Precedes(g.edges, x, b)
      && !Precedes(g.edges, x, c) && !Precedes(g.edges, c, x)
  }

  /** Every edge is needed: with an operation between its ends it still stands for one that was
      removed and that this operation does not replace. */
  ghost predicate Tight(g: Graph, h: Graph) {
    forall a, b, c :: (a, b) in h.edges && c in h.ops && Precedes(g.edges, a, c) && Precedes(g.edges, c, b) ==>
      BridgedBeside(g, h, a, b, c)
  }

  /** After an opening bracket in `B` come only its closing bracket, what comes after that, and in
      between other pairs of `B`. */
  ghost predicate Hollow(g: Graph, B: set<OpID>) {
    forall id :: id in B ==>
      && IsStart(g.ops, id) && Precedes(g.edges, id, EndOf(id))
      && forall y :: Precedes(g.edges, id, y) ==>
        y == EndOf(id) || Precedes(g.edges, EndOf(id), y) || (Precedes(g.edges, y, EndOf(id)) && OfPairIn(g, B, id, y))
  }

  /** `y` is a bracket of a pair in `B` that opens after `id`. */
  ghost predicate OfPairIn(g: Graph, B: set<OpID>, id: OpID, y: OpID) {
    exists b :: b in B && Precedes(g.edges, id, b) && (y == b || y == EndOf(b))
  }

  /** Brackets are gone only if nothing is left between them. */
  ghost predicate OnlyEmptyGone(g: Graph, h: Graph) {
    forall id, y :: IsStart(g.ops, id) && id !in h.ops && y in h.ops ==>
      !(Precedes(g.edges, id, y) && Precedes(g.edges, y, EndOf(id)))
  }

  /** `h` is a part of `f` without needless edges. */
  ghost predicate TightPart(f: Graph, h: Graph) {
    Survives(f, h) && Tight(f, h)
  }

  /** `h` has no needless edges and no needless brackets, and has lost no others. */
  ghost predicate Lean(g: Graph, h: Graph) {
    && Tight(g, h) && PairsTogether(g.ops, h.ops) && OnlyEmptyGone(g, h)
    && forall B :: Hollow(g, B) ==> B !! h.ops.Keys
  }

  lemma BridgedStill(g: Graph, h: Graph, k: Graph, a: OpID, b: OpID, c: OpID)
    requires BridgedBeside(g, h, a, b, c) && k.ops.Keys <= h.ops.Keys
    ensures BridgedBeside(g, k, a, b, c)
  {
  }

  /** What bridges a part of a longer way bridges all of it. */
  lemma BridgedLonger(g: Graph, h: Graph, a: OpID, b: OpID, c: OpID, a': OpID, b': OpID)
    requires BridgedBeside(g, h, a, b, c)
    requires PrecedesOrIs(g.edges, a', a) && PrecedesOrIs(g.edges, b, b')
    ensures BridgedBeside(g, h, a', b', c)
  {
    var x :| x in g.ops && x !in h.ops && Precedes(g.edges, a, x) && Precedes(g.edges, x, b)
      && !Precedes(g.edges, x, c) && !Precedes(g.edges, c, x);
    if a' != a { PrecedesTrans(g.edges, a', a, x); }
    if b' != b { PrecedesTrans(g.edges, x, b, b'); }
  }

  /** An edge that squashing `x` adds. */
  lemma BypassBridged(g: Graph, h: Graph, x: OpID, a: OpID, b: OpID, c: OpID)
    requires ValidGraph(h) && Survives(g, h) && Tight(g, h) && x in h.ops && (a, x) in h.edges && (x, b) in h.edges
    requires c in h.ops && c != x && Precedes(g.edges, a, c) && Precedes(g.edges, c, b)
    ensures BridgedBeside(g, Squashed(h, x), a, b, c)
  {
    EdgePrecedes(h.edges, a, x);
    EdgePrecedes(h.edges, x, b);
    if Precedes(g.edges, x, c) {
      BridgedStill(g, h, Squashed(h, x), x, b, c);
      BridgedLonger(g, Squashed(h, x), x, b, c, a, b);
    } else if Precedes(g.edges, c, x) {
      BridgedStill(g, h, Squashed(h, x), a, x, c);
      BridgedLonger(g, Squashed(h, x), a, x, c, a, b);
    } else {
      assert x in g.ops && x !in Squashed(h, x).ops;
    }
  }

  lemma SquashTight(g: Graph, h: Graph, x: OpID)
    requires ValidGraph(h) && Survives(g, h) && Tight(g, h) && x in h.ops
    ensures Tight(g, Squashed(h, x))
  {
    var k := Squashed(h, x);
    forall a, b, c | (a, b) in k.edges && c in k.ops && Precedes(g.edges, a, c) && Precedes(g.edges, c, b)
      ensures BridgedBeside(g, k, a, b, c)
    {
      if (a, b) in h.edges {
        BridgedStill(g, h, k, a, b, c);
      } else {
        assert (a, b) in Bypass(h.edges, x);
        assert (a, x) in h.edges && (x, b) in h.edges;
        BypassBridged(g, h, x, a, b, c);
      }
    }
  }

  lemma ReductionTight(g: Graph, h: Graph)
    requires h == Graph(g.ops, Reduction(g.edges))
    ensures Tight(g, h)
  {
    forall a, b, c | (a, b) in h.edges && Precedes(g.edges, a, c) ensures !Precedes(g.edges, c, b) {
      assert !Redundant(g.edges, (a, b));
    }
  }

  /** Of some operations, one that precedes no other. */
  lemma {:induction false} LastOf(E: set<Edge>, S: set<OpID>) returns (m: OpID)
    requires Acyclic(E) && S != {}
    ensures m in S && forall y :: y in S ==> !Precedes(E, m, y)
    decreases |S|
  {
    var x :| x in S;
    var rest := S - {x};
    assert forall y :: y in S ==> y == x || y in rest;
    if rest == {} {
      m := x;
    } else {
      m := LastOf(E, rest);
      if Precedes(E, m, x) {
        forall y | y in S ensures !Precedes(E, x, y) {
          if Precedes(E, x, y) { PrecedesTrans(E, m, x, y); }
        }
        m := x;
      }
    }
  }

  /** A pair that only its closing bracket and what comes after it follow is useless. */
  lemma LastHollowUseless(g: Graph, h: Graph, B: set<OpID>, id: OpID)
    requires ValidGraph(g) && ValidGraph(h) && Survives(g, h) && Tight(g, h) && PairsTogether(g.ops, h.ops)
    requires Hollow(g, B) && id in B && id in h.ops && forall y :: y in B && y in h.ops ==> !Precedes(g.edges, id, y)
    ensures UselessStart(h, id)
  {
    var e := EndOf(id);
    assert IsStart(g.ops, id) && e in h.ops;
    forall y | (id, y) in h.edges ensures y == e {
      EdgePrecedes(h.edges, id, y);
      assert Precedes(g.edges, id, y);
      if y != e { AfterHollow(g, h, B, id, y); }
    }
    assert Precedes(h.edges, id, e);
    var c := FirstStep(h.edges, id, e);
    assert c == e && e in Succs(h.edges, id) by { assert (id, e).1 == e; }
  }

  lemma PairInPlan(g: Graph, h: Graph, B: set<OpID>, id: OpID, y: OpID)
    requires PairsTogether(g.ops, h.ops) && Hollow(g, B) && OfPairIn(g, B, id, y) && y in h.ops
    ensures exists b :: b in B && b in h.ops && Precedes(g.edges, id, b)
  {
    var b :| b in B && Precedes(g.edges, id, b) && (y == b || y == EndOf(b));
    assert IsStart(g.ops, b);
  }

  lemma AfterOpening(g: Graph, B: set<OpID>, id: OpID, y: OpID)
    requires Hollow(g, B) && id in B && Precedes(g.edges, id, y)
    ensures y == EndOf(id) || Precedes(g.edges, EndOf(id), y)
      || (Precedes(g.edges, y, EndOf(id)) && OfPairIn(g, B, id, y))
  {
  }

  lemma AfterHollow(g: Graph, h: Graph, B: set<OpID>, id: OpID, y: OpID)
    requires Survives(g, h) && Tight(g, h) && PairsTogether(g.ops, h.ops)
    requires Hollow(g, B) && id in B && id in h.ops && EndOf(id) in h.ops && Precedes(g.edges, id, EndOf(id))
    requires forall y :: y in B && y in h.ops ==> !Precedes(g.edges, id, y)
    requires (id, y) in h.edges && y in h.ops && Precedes(g.edges, id, y)
    ensures y == EndOf(id)
  {
    AfterOpening(g, B, id, y);
    if Precedes(g.edges, EndOf(id), y) {
      var x :| x in g.ops && x !in h.ops && Precedes(g.edges, id, x) && Precedes(g.edges, x, y)
        && !Precedes(g.edges, x, EndOf(id)) && !Precedes(g.edges, EndOf(id), x);
      AfterOpening(g, B, id, x);
    } else if y != EndOf(id) {
      PairInPlan(g, h, B, id, y);
    }
  }

  lemma HollowGone(g: Graph, h: Graph, B: set<OpID>)
    requires ValidGraph(g) && ValidGraph(h) && Survives(g, h) && Tight(g, h) && PairsTogether(g.ops, h.ops)
    requires NoUselessPair(h) && Hollow(g, B)
    ensures B !! h.ops.Keys
  {
    var S := B * h.ops.Keys;
    if S != {} {
      var m := LastOf(g.edges, S);
      LastHollowUseless(g, h, B, m);
    }
    forall id | id in B ensures id !in h.ops { assert id !in S; }
  }

  // ----- serialised form, with the text codec abstracted -----

  datatype PlanJson = PlanJson(operations: seq<Operation>, edges: seq<Edge>)

  /** `j` lists every operation and every edge of `g`, in any order and any number of times. */
  ghost predicate Encodes(g: Graph, j: PlanJson) {
    && (forall op :: op in j.operations <==> op.ID() in g.ops && g.ops[op.ID()] == op)
    && (forall e :: e in j.edges <==> e in g.edges)
  }

  /** All operations strictly after `a`: the graph search of the library. */
  method Descendants(E: set<Edge>, a: OpID) returns (r: set<OpID>)
    ensures forall b :: b in r <==> Precedes(E, a, b)
  {
    r := {};
    var left := set e | e in E :: e.1;
    while exists e | e in E :: (e.0 == a || e.0 in r) && e.1 !in r
      invariant left == (set e | e in E :: e.1) - r
      invariant forall b :: b in r ==> Precedes(E, a, b)
      decreases left
    {
      var e :| e in E && (e.0 == a || e.0 in r) && e.1 !in r;
      assert e == (e.0, e.1);
      EdgePrecedes(E, e.0, e.1);
      if e.0 != a { PrecedesTrans(E, a, e.0, e.1); }
      assert e.1 in left;
      r, left := r + {e.1}, left - {e.1};
    }
    forall b | Precedes(E, a, b) ensures b in r {
      PrecedesStaysIn(E, r, a, b);
    }
  }

  class Plan {
    var ops: map<OpID, Operation>
    var edges: set<Edge>

    ghost function G(): Graph reads this {
      Graph(ops, edges)
    }

    ghost predicate Valid() reads this {
      ValidGraph(G())
    }

    constructor ()
      ensures Valid() && G() == Graph(map[], {})
    {
      ops, edges := map[], {};
      new;
      forall a ensures !Precedes(edges, a, a) {
        if Precedes(edges, a, a) { var c := FirstStep(edges, a, a); }
      }
    }

    method AddVertex(op: Operation) returns (r: Outcome)
      requires Valid()
      modifies this
      ensures Valid() && edges == old(edges)
      ensures r == if op.ID() in old(ops) then Err(VertexAlreadyExists) else Ok
      ensures ops == if r.Ok? then old(ops)[op.ID() := op] else old(ops)
    {
      if op.ID() in ops { return Err(VertexAlreadyExists); }
      ops := ops[op.ID() := op];
      return Ok;
    }

    /** Adds an edge unless it is there; refuses it exactly when an end is missing or the graph
        would become cyclic. */
    method Connect(from: OpID, to: OpID) returns (r: Outcome)
      requires Valid()
      modifies this`edges
      ensures Valid()
      ensures r.Ok? <==> from in ops && to in ops && Acyclic(old(edges) + {(from, to)})
      ensures edges == if r.Ok? then old(edges) + {(from, to)} else old(edges)
      ensures r.Err? ==> r.error == if from in ops && to in ops then EdgeCreatesCycle else VertexNotFound
    {
      if from !in ops || to !in ops { return Err(VertexNotFound); }
      if (from, to) in edges {
        assert edges + {(from, to)} == edges;
        return Ok;
      }
      AddEdgeAcyclic(edges, from, to);
      var after := Descendants(edges, to);
      if from == to || from in after { return Err(EdgeCreatesCycle); }
      edges := edges + {(from, to)};
      return Ok;
    }

    /** The operations in the arbitrary order of a map iteration. */
    method OperationIDs() returns (ids: seq<OpID>)
      ensures forall id :: id in ids <==> id in ops
      ensures NoDuplicates(ids)
    {
      ids := [];
      var left := ops.Keys;
      while left != {}
        invariant left <= ops.Keys
        invariant forall id :: id in ids <==> id in ops && id !in left
        invariant NoDuplicates(ids)
        decreases left
      {
        var id :| id in left;
        ids, left := ids + [id], left - {id};
      }
    }

    /** Joins `p` to every member of `succs`. Inside a known acyclic graph nothing is refused. */
    method ConnectAll(p: OpID, succs: set<OpID>, ghost F: set<Edge>)
      requires Valid() && p in ops && succs <= ops.Keys
      requires edges <= F && Acyclic(F) && forall q :: q in succs ==> (p, q) in F
      modifies this`edges
      ensures Valid()
      ensures edges == old(edges) + set q | q in succs :: (p, q)
    {
      var qs := succs;
      while qs != {}
        invariant qs <= succs && Valid()
        invariant edges == old(edges) + set q | q in succs - qs :: (p, q)
        decreases qs
      {
        var q :| q in qs;
        SubgraphEdgeNotRefused(edges, F, p, q);
        AddEdgeAcyclic(edges, p, q);
        var r := Connect(p, q);
        assert r.Ok?;
        qs := qs - {q};
      }
    }

    /** Removes `x`, joining its predecessors to its successors. No reconnection is refused. */
    method SquashOperation(x: OpID)
      requires Valid() && x in ops
      modifies this
      ensures Valid()
      ensures G() == Squashed(old(G()), x)
      ensures Survives(old(G()), G())
    {
      SquashedSurvives(G(), x);
      var preds := set e | e in edges && e.1 == x :: e.0;
      var succs := set e | e in edges && e.0 == x :: e.1;
      ghost var F := SquashEdges(edges, x);
      BypassEnds(edges, x, ops.Keys, preds, succs);
      RemoveEdgesAt(x);
      JoinAll(preds, succs, F);
      ops := ops - {x};
    }

    method RemoveEdgesAt(x: OpID)
      requires Valid()
      modifies this`edges
      ensures Valid() && edges == Detach(old(edges), x)
    {
      ghost var E := edges;
      edges := set e | e in edges && e.0 != x && e.1 != x;
      AcyclicSubset(edges, E);
    }

    method JoinAll(preds: set<OpID>, succs: set<OpID>, ghost F: set<Edge>)
      requires Valid() && preds <= ops.Keys && succs <= ops.Keys
      requires edges <= F && Acyclic(F) && forall p, q :: p in preds && q in succs ==> (p, q) in F
      modifies this`edges
      ensures Valid()
      ensures edges == old(edges) + set p, q | p in preds && q in succs :: (p, q)
    {
      var ps := preds;
      while ps != {}
        invariant ps <= preds && Valid() && edges <= F
        invariant edges == old(edges) + set p, q | p in preds - ps && q in succs :: (p, q)
        decreases ps
      {
        var p :| p in ps;
        ConnectAll(p, succs, F);
        ps := ps - {p};
      }
    }

    /** Drops every edge whose target is reachable without it. */
    method TransitiveReduction()
      requires Valid()
      modifies this
      ensures Valid() && ops == old(ops) && edges == Reduction(old(edges))
      ensures Survives(old(G()), G())
    {
      var kept, left := {}, edges;
      while left != {}
        invariant left <= edges
        invariant kept == set e | e in edges - left && !Redundant(edges, e)
        decreases left
        modifies {}
      {
        var e :| e in left;
        RedundantIffDetour(edges, e);
        var after := Descendants(edges - {e}, e.0);
        if e.1 !in after { kept := kept + {e}; }
        left := left - {e};
      }
      ReductionPreservesPrecedence(edges, ops.Keys);
      edges := kept;
      assert edges == Reduction(old(edges));
    }

    /** The opening brackets; each has its closing one, so the pair lookup cannot fail. */
    method FindMetaOperationPairs(operations: seq<OpID>) returns (starts: seq<OpID>)
      requires Valid() && PairedBrackets(ops)
      requires NoDuplicates(operations) && forall id :: id in operations <==> id in ops
      ensures NoDuplicates(starts) && forall id :: id in starts <==> IsStart(ops, id)
      ensures forall id :: id in starts ==> EndOf(id) in ops && IsBracket(ops[EndOf(id)], true)
    {
      starts := [];
      for k := 0 to |operations|
        invariant NoDuplicates(starts) && forall id :: id in starts <==> id in operations[..k] && IsStart(ops, id)
      {
        assert operations[k] in operations && operations[k] !in operations[..k];
        if IsBracket(ops[operations[k]], false) {
          starts := starts + [operations[k]];
        }
      }
    }

    /** The pairs whose opening bracket leads only to its closing bracket. */
    method FindUselessMetaOperations(starts: seq<OpID>) returns (useless: seq<OpID>)
      requires Valid() && NoDuplicates(starts) && forall id :: id in starts <==> IsStart(ops, id)
      ensures NoDuplicates(useless) && forall id :: id in useless <==> UselessStart(G(), id)
    {
      useless := [];
      for k := 0 to |starts|
        invariant NoDuplicates(useless) && forall id :: id in useless <==> id in starts[..k] && UselessStart(G(), id)
      {
        assert starts[k] in starts && starts[k] !in starts[..k];
        var adjacencies := set e | e in edges && e.0 == starts[k] :: e.1;
        if adjacencies == {EndOf(starts[k])} {
          useless := useless + [starts[k]];
        }
      }
    }

    method SquashPair(start: OpID, ghost f: Graph)
      requires Valid() && IsStart(ops, start) && EndOf(start) in ops && TightPart(f, G())
      modifies this
      ensures Valid() && Survives(old(G()), G()) && TightPart(f, G())
      ensures ops == old(ops) - {start, EndOf(start)}
    {
      ghost var g := G();
      SquashTightPart(f, g, start);
      SquashOperation(start);
      ghost var h := G();
      SquashTightPart(f, h, EndOf(start));
      SquashOperation(EndOf(start));
      SurvivesTrans(g, h, G());
    }

    /** Squashes one more pair. */
    method SquashNextPair(start: OpID, ghost gone: seq<OpID>, ghost g: Graph, ghost f: Graph)
      requires Valid() && PairedBrackets(g.ops) && PairsGone(g, G(), gone) && TightPart(f, G())
      requires IsStart(g.ops, start) && start !in gone && forall id :: id in gone ==> IsStart(g.ops, id)
      modifies this
      ensures Valid() && PairsGone(g, G(), gone + [start]) && TightPart(f, G())
    {
      ghost var h := G();
      PairStillThere(g.ops, gone, start);
      SquashPair(start, f);
      SurvivesTrans(g, h, G());
      PairIDsAppend(gone, start);
    }

    /** Squashes the given pairs, opening bracket first. */
    method SquashPairs(starts: seq<OpID>, ghost f: Graph)
      requires Valid() && PairedBrackets(ops) && NoDuplicates(starts) && TightPart(f, G())
      requires forall id :: id in starts ==> IsStart(ops, id)
      modifies this
      ensures Valid() && PairedBrackets(ops) && Survives(old(G()), G()) && TightPart(f, G())
      ensures ops == old(ops) - PairIDs(starts)
      ensures starts == [] ==> G() == old(G())
      ensures forall id :: id in old(ops) && id !in ops ==> IsStageBracket(old(ops)[id])
    {
      ghost var g := G();
      for k := 0 to |starts|
        invariant Valid() && PairsGone(g, G(), starts[..k]) && TightPart(f, G())
        invariant k == 0 ==> G() == g
      {
        NextOfList(starts, k);
        SquashNextPair(starts[k], starts[..k], g, f);
      }
      assert starts[..|starts|] == starts;
      PairedWithout(g.ops, starts);
    }

    /** Squashes empty stages until none is left. */
    method SquashUselessMetaOperations(ghost f: Graph)
      requires Valid() && PairedBrackets(ops) && TightPart(f, G())
      modifies this
      ensures Valid() && PairedBrackets(ops) && Survives(old(G()), G()) && NoUselessPair(G()) && TightPart(f, G())
      ensures forall id :: id in old(ops) && id !in ops ==> IsStageBracket(old(ops)[id])
      ensures PairsTogether(old(ops), ops) && OnlyEmptyGone(old(G()), G())
      decreases |ops|
    {
      var ids := OperationIDs();
      var starts := FindMetaOperationPairs(ids);
      var useless := FindUselessMetaOperations(starts);
      ghost var g := G();
      SquashPairs(useless, f);
      PairsLeaveTogether(g.ops, useless);
      OnlyUselessGone(g, G(), useless);
      ids := OperationIDs();
      starts := FindMetaOperationPairs(ids);
      var again := FindUselessMetaOperations(starts);
      if |again| > 0 {
        assert again[0] in again && useless != [];
        assert useless[0] in useless;
        SubsetSmaller(ops.Keys, g.ops.Keys, useless[0]);
        ghost var h := G();
        SquashUselessMetaOperations(f);
        SurvivesTrans(g, h, G());
        TogetherTrans(g.ops, h.ops, ops);
        OnlyEmptyTrans(g, h, G());
      } else {
        assert NoUselessPair(G());
      }
    }

    method TrackingOperations() returns (tracking: seq<OpID>)
      requires Valid()
      ensures NoDuplicates(tracking) && forall id :: id in tracking <==> id in ops && ops[id].category == CategoryTrack
    {
      var ids := OperationIDs();
      tracking := [];
      for k := 0 to |ids|
        invariant NoDuplicates(tracking)
        invariant forall id :: id in tracking <==> id in ids[..k] && ops[id].category == CategoryTrack
      {
        assert ids[k] in ids && ids[k] !in ids[..k];
        if ops[ids[k]].category == CategoryTrack { tracking := tracking + [ids[k]]; }
      }
    }

    /** Removes exactly the final tracking operations, whatever order they are visited in. */
    method SquashFinalTrackingOperations(ghost f: Graph)
      requires Valid() && TightPart(f, G())
      modifies this
      ensures Valid() && Survives(old(G()), G()) && TightPart(f, G())
      ensures forall id :: id in old(ops) ==> (id in ops <==> !FinalTracking(old(G()), id))
    {
      ghost var g := G();
      var tracking := TrackingOperations();
      for k := 0 to |tracking|
        invariant Valid() && Survives(g, G()) && TightPart(f, G())
        invariant forall id :: id in g.ops ==> (id in ops <==> !(id in tracking[..k] && FinalTracking(g, id)))
      {
        var op := tracking[k];
        assert op in tracking && op !in tracking[..k];
        FinalTrackingStable(g, G(), op);
        var after := Descendants(edges, op);
        var found := exists id | id in after :: id in ops && ops[id].category == CategoryResource;
        ghost var h := G();
        if !found {
          SquashTightPart(f, h, op);
          SquashOperation(op);
          SurvivesTrans(g, h, G());
        }
      }
    }

    /** Reduces the graph, drops empty stages and, on request, final tracking. */
    method Optimize(noFinalTracking: bool)
      requires Valid() && PairedBrackets(ops)
      modifies this
      ensures Valid() && Optimized(old(G()), G(), noFinalTracking) && Lean(old(G()), G())
    {
      ghost var f := G();
      TransitiveReduction();
      ghost var f' := G();
      ReductionTight(f, f');
      SquashUselessMetaOperations(f);
      ghost var g := G();
      SurvivesTrans(f, f', g);
      SquashedLean(f, f', g);
      if noFinalTracking {
        SquashFinalTrackingOperations(f);
        OptimizedFrom(f, g, G());
        TrackingGoneLean(f, g, G());
      }
    }

    /** Lists the operations and the edges; the sort order of the listing is not modelled. */
    method MarshalJSON() returns (j: PlanJson)
      requires Valid()
      ensures Encodes(G(), j)
    {
      var ids := OperationIDs();
      var operations: seq<Operation> := [];
      for k := 0 to |ids|
        invariant forall op :: op in operations <==> op.ID() in ids[..k] && ops[op.ID()] == op
      {
        assert ids[k] in ids;
        operations := operations + [ops[ids[k]]];
      }
      var listed, left := [], edges;
      while left != {}
        invariant left <= edges && forall e :: e in listed <==> e in edges && e !in left
        decreases left
        modifies {}
      {
        var e :| e in left;
        listed, left := listed + [e], left - {e};
      }
      j := PlanJson(operations, listed);
    }

    /** Connects each edge in turn. Refused iff an end is missing or the union is cyclic,
        whatever the order of the edges. */
    method ConnectEach(list: seq<Edge>) returns (r: Outcome)
      requires Valid()
      modifies this`edges
      ensures Valid() && old(edges) <= edges
      ensures r.Ok? <==> Within(EdgeSet(list), ops.Keys) && Acyclic(old(edges) + EdgeSet(list))
      ensures r.Ok? ==> edges == old(edges) + EdgeSet(list)
    {
      for k := 0 to |list|
        invariant Valid() && edges == old(edges) + EdgeSet(list[..k])
        invariant Within(EdgeSet(list[..k]), ops.Keys)
      {
        var (from, to) := list[k];
        assert (from, to) in EdgeSet(list);
        r := Connect(from, to);
        if r.Err? {
          if Acyclic(old(edges) + EdgeSet(list)) {
            AcyclicSubset(edges + {(from, to)}, old(edges) + EdgeSet(list));
          }
          return;
        }
        assert EdgeSet(list[..k + 1]) == EdgeSet(list[..k]) + {(from, to)};
      }
      assert list[..|list|] == list;
      return Ok;
    }

    /** Adds the listed operations, keeping the first of any that share an ID. */
    method AddListed(list: seq<Operation>)
      requires Valid() && ops == map[]
      modifies this
      ensures Valid() && edges == old(edges)
      ensures forall id :: id in ops <==> exists op :: op in list && op.ID() == id
      ensures forall id :: id in ops ==> ops[id] in list
    {
      for k := 0 to |list|
        invariant Valid() && edges == old(edges)
        invariant forall id :: id in ops <==> exists op :: op in list[..k] && op.ID() == id
        invariant forall id :: id in ops ==> ops[id] in list[..k]
      {
        var _ := AddVertex(list[k]);
      }
    }

    /** Rebuilds a plan from a listing. It gives back every plan from any listing of it: no edge
        is refused, in whatever order the edges come. */
    method UnmarshalJSON(j: PlanJson) returns (r: Outcome)
      modifies this
      ensures Valid()
      ensures r.Ok? <==> Acyclic(EdgeSet(j.edges)) && Within(EdgeSet(j.edges), ops.Keys)
      ensures forall g :: ValidGraph(g) && Encodes(g, j) ==> r.Ok? && G() == g
    {
      ops, edges := map[], {};
      forall a ensures !Precedes(edges, a, a) {
        if Precedes(edges, a, a) { var c := FirstStep(edges, a, a); }
      }
      AddListed(j.operations);
      assert {} + EdgeSet(j.edges) == EdgeSet(j.edges);
      ghost var listed := ops;
      r := ConnectEach(j.edges);
      forall g | ValidGraph(g) && Encodes(g, j) ensures r.Ok? && G() == g {
        RoundTrip(g, j, listed);
      }
    }
  }

  lemma SquashTightPart(f: Graph, h: Graph, x: OpID)
    requires ValidGraph(h) && TightPart(f, h) && x in h.ops
    ensures TightPart(f, Squashed(h, x))
  {
    SquashTight(f, h, x);
    SquashedSurvives(h, x);
    SurvivesTrans(f, h, Squashed(h, x));
  }

  /** Between the brackets of a useless pair there is nothing. */
  lemma UselessIsEmpty(g: Graph, id: OpID, y: OpID)
    requires ValidGraph(g) && UselessStart(g, id)
    ensures !(Precedes(g.edges, id, y) && Precedes(g.edges, y, EndOf(id)))
  {
    if Precedes(g.edges, id, y) {
      var c := FirstStep(g.edges, id, y);
      assert c in Succs(g.edges, id) by { assert (id, c).1 == c; }
      if Precedes(g.edges, y, EndOf(id)) && y != c { PrecedesTrans(g.edges, c, y, c); }
    }
  }

  lemma OnlyUselessGone(g: Graph, h: Graph, useless: seq<OpID>)
    requires ValidGraph(g) && PairedBrackets(g.ops) && h.ops == g.ops - PairIDs(useless)
    requires forall id :: id in useless ==> UselessStart(g, id)
    ensures OnlyEmptyGone(g, h)
  {
    forall id, y | IsStart(g.ops, id) && id !in h.ops && y in h.ops
      ensures !(Precedes(g.edges, id, y) && Precedes(g.edges, y, EndOf(id)))
    {
      assert id in useless;
      UselessIsEmpty(g, id, y);
    }
  }

  lemma OnlyEmptyTrans(g: Graph, h: Graph, k: Graph)
    requires Survives(g, h) && Survives(h, k) && PairsTogether(g.ops, h.ops)
    requires OnlyEmptyGone(g, h) && OnlyEmptyGone(h, k)
    ensures OnlyEmptyGone(g, k)
  {
    forall id, y | IsStart(g.ops, id) && id !in k.ops && y in k.ops
      ensures !(Precedes(g.edges, id, y) && Precedes(g.edges, y, EndOf(id)))
    {
      if id in h.ops { assert IsStart(h.ops, id) && EndOf(id) in h.ops; }
    }
  }

  lemma SquashedLean(f: Graph, f': Graph, g: Graph)
    requires ValidGraph(f) && ValidGraph(g) && f'.ops == f.ops && Survives(f, f') && TightPart(f, g)
    requires PairsTogether(f'.ops, g.ops) && OnlyEmptyGone(f', g) && NoUselessPair(g)
    requires PairedBrackets(f.ops)
    ensures Lean(f, g)
  {
    forall id, y | IsStart(f.ops, id) && id !in g.ops && y in g.ops
      ensures !(Precedes(f.edges, id, y) && Precedes(f.edges, y, EndOf(id)))
    {
      assert IsStart(f'.ops, id);
    }
    forall B | Hollow(f, B) ensures B !! g.ops.Keys { HollowGone(f, g, B); }
  }

  /** Dropping tracking operations leaves the brackets as they are. */
  lemma TrackingGoneLean(f: Graph, g: Graph, h: Graph)
    requires Lean(f, g) && Survives(f, g) && Survives(g, h) && TightPart(f, h) && PairedBrackets(f.ops)
    requires forall id :: id in g.ops && id !in h.ops ==> g.ops[id].category == CategoryTrack
    ensures Lean(f, h)
  {
    forall id | IsStart(f.ops, id)
      ensures (id in h.ops <==> id in g.ops) && (EndOf(id) in h.ops <==> EndOf(id) in g.ops)
    {
      assert IsBracket(f.ops[EndOf(id)], true);
    }
  }

  ghost function EdgeSet(list: seq<Edge>): set<Edge> {
    set e | e in list
  }

  /** A listing of `g` determines `g`. */
  lemma RoundTrip(g: Graph, j: PlanJson, ops: map<OpID, Operation>)
    requires ValidGraph(g) && Encodes(g, j)
    requires forall id :: id in ops <==> exists op :: op in j.operations && op.ID() == id
    requires forall id :: id in ops ==> ops[id] in j.operations && ops[id].ID() == id
    ensures ops == g.ops && EdgeSet(j.edges) == g.edges
  {
    forall id ensures id in ops <==> id in g.ops {
      if id in g.ops { assert g.ops[id] in j.operations; }
    }
  }

  /** Removing the final tracking operations in one order or another leaves the same operations
      in the same precedence. */
  lemma FinalTrackingOrderIrrelevant(g: Graph, h1: Graph, h2: Graph)
    requires Survives(g, h1) && forall id :: id in g.ops ==> (id in h1.ops <==> !FinalTracking(g, id))
    requires Survives(g, h2) && forall id :: id in g.ops ==> (id in h2.ops <==> !FinalTracking(g, id))
    ensures h1.ops == h2.ops
    ensures forall a, b :: a in h1.ops && b in h1.ops ==> (Precedes(h1.edges, a, b) <==> Precedes(h2.edges, a, b))
  {
    forall id ensures id in h1.ops <==> id in h2.ops {
    }
  }

  lemma OptimizedFrom(f: Graph, g: Graph, h: Graph)
    requires Survives(f, g) && Survives(g, h)
    requires forall id :: id in f.ops && id !in g.ops ==> IsStageBracket(f.ops[id])
    requires forall id :: id in g.ops ==> (id in h.ops <==> !FinalTracking(g, id))
    ensures Optimized(f, h, true)
  {
    SurvivesTrans(f, g, h);
    forall id | id in g.ops ensures FinalTracking(g, id) <==> FinalTracking(f, id) {
      FinalTrackingStable(f, g, id);
    }
  }

  ghost function PairIDs(starts: seq<OpID>): set<OpID> {
    (set id | id in starts :: EndOf(id)) + (set id | id in starts)
  }

  lemma NextOfList(ids: seq<OpID>, k: nat)
    requires NoDuplicates(ids) && k < |ids|
    ensures ids[k] in ids && ids[k] !in ids[..k] && ids[..k + 1] == ids[..k] + [ids[k]]
    ensures forall id :: id in ids[..k] ==> id in ids
  {
  }

  lemma PairIDsAppend(gone: seq<OpID>, start: OpID)
    ensures PairIDs(gone + [start]) == PairIDs(gone) + {start, EndOf(start)}
  {
  }

  lemma PairStillThere(ops: map<OpID, Operation>, gone: seq<OpID>, start: OpID)
    requires PairedBrackets(ops) && IsStart(ops, start) && start !in gone
    requires forall id :: id in gone ==> IsStart(ops, id)
    ensures IsStart(ops - PairIDs(gone), start) && EndOf(start) in ops - PairIDs(gone)
  {
  }

  /** What is left of `g` once the given pairs are squashed. */
  ghost predicate PairsGone(g: Graph, h: Graph, starts: seq<OpID>) {
    Survives(g, h) && h.ops == g.ops - PairIDs(starts)
  }

  /** Of each pair of brackets both are left or none. */
  ghost predicate PairsTogether(before: map<OpID, Operation>, after: map<OpID, Operation>) {
    forall id :: IsStart(before, id) ==> (id in after <==> EndOf(id) in after)
  }

  lemma PairsLeaveTogether(ops: map<OpID, Operation>, starts: seq<OpID>)
    requires PairedBrackets(ops) && forall id :: id in starts ==> IsStart(ops, id)
    ensures PairsTogether(ops, ops - PairIDs(starts))
  {
  }

  lemma TogetherTrans(f: map<OpID, Operation>, g: map<OpID, Operation>, h: map<OpID, Operation>)
    requires PairsTogether(f, g) && PairsTogether(g, h) && h.Keys <= g.Keys
    requires forall id :: id in g ==> id in f && g[id] == f[id]
    ensures PairsTogether(f, h)
  {
  }

  lemma PairedWithout(ops: map<OpID, Operation>, starts: seq<OpID>)
    requires PairedBrackets(ops) && forall id :: id in starts ==> IsStart(ops, id)
    ensures PairedBrackets(ops - PairIDs(starts))
    ensures forall id :: id in ops && id in PairIDs(starts) ==> IsStageBracket(ops[id])
  {
  }
}
