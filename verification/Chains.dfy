/** The chain builder of a plan (pkg/plan/plan.go, `planChainBuilder`): operations added one after
    another, each linked to the one before it and placed between the brackets of its stage. */
module Chains {
  import opened Operations
  import opened Precedence
  import opened PlanGraph

  datatype ChainStep = ChainStep(op: Operation, stage: Option<StageRef>, skipOnDuplicate: bool)

  type Chain = seq<ChainStep>

  ghost function StageEdges(ref: StageRef, id: OpID): set<Edge> {
    {(BracketID(ref, false), id), (id, BracketID(ref, true))}
  }

  ghost function PlacedEdges(st: ChainStep, prev: Option<OpID>, added: bool): set<Edge> {
    (if added && st.stage.Some? then StageEdges(st.stage.value, st.op.ID()) else {})
    + (if prev.Some? then {(prev.value, st.op.ID())} else {})
  }

  function Before(c: Chain, i: nat): Option<OpID>
    requires i < |c|
  {
    if i > 0 then Some(c[i - 1].op.ID()) else None
  }

  /** `g` with step `i` added to it: the operation, unless its ID is taken, and its edges. */
  ghost function AddStep(g: Graph, c: Chain, i: nat): Graph
    requires i < |c|
  {
    var id := c[i].op.ID();
    Graph(if id in g.ops then g.ops else g.ops[id := c[i].op],
          g.edges + PlacedEdges(c[i], Before(c, i), id !in g.ops))
  }

  /** What the first `n` steps of a chain ask for, if nothing is refused. */
  ghost function AfterSteps(g: Graph, c: Chain, n: nat): Graph
    requires n <= |c|
  {
    if n == 0 then g else AddStep(AfterSteps(g, c, n - 1), c, n - 1)
  }

  /** None of the first `n` steps meets an unwanted operation with its ID. */
  ghost predicate StepsFresh(g: Graph, c: Chain, n: nat)
    requires n <= |c|
  {
    n > 0 ==> StepsFresh(g, c, n - 1) && (c[n - 1].op.ID() in AfterSteps(g, c, n - 1).ops ==> c[n - 1].skipOnDuplicate)
  }

  ghost function AfterChain(g: Graph, c: Chain): Graph {
    AfterSteps(g, c, |c|)
  }

  ghost predicate Fresh(g: Graph, c: Chain) {
    StepsFresh(g, c, |c|)
  }

  /** What the first `k` chains ask for. */
  ghost function AfterChains(g: Graph, cs: seq<Chain>, k: nat): Graph
    requires k <= |cs|
  {
    if k == 0 then g else AfterChain(AfterChains(g, cs, k - 1), cs[k - 1])
  }

  ghost predicate ChainsFresh(g: Graph, cs: seq<Chain>, k: nat)
    requires k <= |cs|
  {
    k > 0 ==> ChainsFresh(g, cs, k - 1) && Fresh(AfterChains(g, cs, k - 1), cs[k - 1])
  }

  /** The brackets of every stage a chain names are in the plan. */
  ghost predicate StagesPresent(ops: map<OpID, Operation>, c: Chain) {
    forall i :: 0 <= i < |c| && c[i].stage.Some? ==>
      BracketID(c[i].stage.value, false) in ops && BracketID(c[i].stage.value, true) in ops
  }

  /** `h` has everything `g` has. */
  ghost predicate Grows(g: Graph, h: Graph) {
    && g.edges <= h.edges && g.ops.Keys <= h.ops.Keys
    && forall id :: id in g.ops ==> h.ops[id] == g.ops[id]
  }

  lemma {:induction false} StepsGrow(g: Graph, c: Chain, i: nat, n: nat)
    requires i <= n <= |c|
    ensures Grows(AfterSteps(g, c, i), AfterSteps(g, c, n))
    decreases n
  {
    if i < n { StepsGrow(g, c, i, n - 1); }
  }

  lemma {:induction false} ChainsGrow(g: Graph, cs: seq<Chain>, i: nat, k: nat)
    requires i <= k <= |cs|
    ensures Grows(AfterChains(g, cs, i), AfterChains(g, cs, k))
    decreases k
  {
    if i < k {
      ChainsGrow(g, cs, i, k - 1);
      StepsGrow(AfterChains(g, cs, k - 1), cs[k - 1], 0, |cs[k - 1]|);
    }
  }

  /** What step `i` of a chain leaves in the graph. */
  ghost predicate StepDone(h: Graph, c: Chain, i: nat)
    requires i < |c|
  {
    && c[i].op.ID() in h.ops
    && (i > 0 ==> (c[i - 1].op.ID(), c[i].op.ID()) in h.edges)
    && (!c[i].skipOnDuplicate ==>
          && h.ops[c[i].op.ID()] == c[i].op
          && (c[i].stage.Some? ==> StageEdges(c[i].stage.value, c[i].op.ID()) <= h.edges))
  }

  lemma {:induction false} StepWasFresh(g: Graph, c: Chain, i: nat, n: nat)
    requires i < n <= |c| && StepsFresh(g, c, n)
    ensures c[i].op.ID() in AfterSteps(g, c, i).ops ==> c[i].skipOnDuplicate
    decreases n
  {
    if i < n - 1 { StepWasFresh(g, c, i, n - 1); }
  }

  lemma {:induction false} ChainWasFresh(g: Graph, cs: seq<Chain>, i: nat, k: nat)
    requires i < k <= |cs| && ChainsFresh(g, cs, k)
    ensures Fresh(AfterChains(g, cs, i), cs[i])
    decreases k
  {
    if i < k - 1 { ChainWasFresh(g, cs, i, k - 1); }
  }

  /** Every step of every chain is done in the final graph. */
  lemma ChainStepDone(g: Graph, cs: seq<Chain>, k: nat, i: nat)
    requires k < |cs| && i < |cs[k]| && ChainsFresh(g, cs, |cs|)
    ensures StepDone(AfterChains(g, cs, |cs|), cs[k], i)
  {
    var f := AfterChains(g, cs, k);
    ChainWasFresh(g, cs, k, |cs|);
    StepWasFresh(f, cs[k], i, |cs[k]|);
    StepsGrow(f, cs[k], i + 1, |cs[k]|);
    ChainsGrow(g, cs, k + 1, |cs|);
    var st := AfterSteps(f, cs[k], i + 1);
    assert StepDone(st, cs[k], i);
  }

  /** Operation `id` is the one of some step of the chain, and stands in that step's stage. */
  ghost predicate PlacedBy(h: Graph, c: Chain, id: OpID) {
    exists i :: 0 <= i < |c| && PlacedAs(h, c[i], id)
  }

  ghost predicate PlacedAs(h: Graph, st: ChainStep, id: OpID) {
    && id in h.ops && h.ops[id] == st.op && st.op.ID() == id
    && (st.stage.Some? ==> StageEdges(st.stage.value, id) <= h.edges)
  }

  lemma PlacedByGrows(g: Graph, h: Graph, c: Chain, id: OpID)
    requires PlacedBy(g, c, id) && Grows(g, h)
    ensures PlacedBy(h, c, id)
  {
    var i :| 0 <= i < |c| && PlacedAs(g, c[i], id);
    assert PlacedAs(h, c[i], id);
  }

  lemma {:induction false} StepOrigin(g: Graph, c: Chain, n: nat, id: OpID)
    requires n <= |c| && id in AfterSteps(g, c, n).ops
    ensures id in g.ops || PlacedBy(AfterSteps(g, c, n), c, id)
    decreases n
  {
    if n > 0 {
      var f, h := AfterSteps(g, c, n - 1), AfterSteps(g, c, n);
      if id in f.ops {
        StepOrigin(g, c, n - 1, id);
        if id !in g.ops { PlacedByGrows(f, h, c, id); }
      } else {
        assert PlacedAs(h, c[n - 1], id);
      }
    }
  }

  /** Every operation of the graph was put in its stage by some chain. */
  lemma {:induction false} ChainOrigin(g: Graph, cs: seq<Chain>, k: nat, id: OpID)
    requires k <= |cs| && id in AfterChains(g, cs, k).ops
    ensures id in g.ops || exists i :: 0 <= i < k && PlacedBy(AfterChains(g, cs, k), cs[i], id)
    decreases k
  {
    if k > 0 {
      var f, h := AfterChains(g, cs, k - 1), AfterChains(g, cs, k);
      if id in f.ops {
        ChainOrigin(g, cs, k - 1, id);
        StepsGrow(f, cs[k - 1], 0, |cs[k - 1]|);
        if id !in g.ops {
          var i :| 0 <= i < k - 1 && PlacedBy(f, cs[i], id);
          PlacedByGrows(f, h, cs[i], id);
        }
      } else {
        StepOrigin(f, cs[k - 1], |cs[k - 1]|, id);
      }
    }
  }

  /** Connects an operation to the brackets of its stage and to the step before it. */
  method PlaceStep(p: Plan, st: ChainStep, prev: Option<OpID>, added: bool) returns (r: Outcome)
    requires p.Valid() && st.op.ID() in p.ops && (prev.Some? ==> prev.value in p.ops)
    requires st.stage.Some? ==> BracketID(st.stage.value, false) in p.ops && BracketID(st.stage.value, true) in p.ops
    modifies p`edges
    ensures p.Valid() && old(p.edges) <= p.edges
    ensures r.Ok? <==> Acyclic(old(p.edges) + PlacedEdges(st, prev, added))
    ensures r.Ok? ==> p.edges == old(p.edges) + PlacedEdges(st, prev, added)
  {
    var list: seq<Edge> := [];
    var id := st.op.ID();
    if st.stage.Some? && added {
      list := [(BracketID(st.stage.value, false), id), (id, BracketID(st.stage.value, true))];
    }
    if prev.Some? { list := list + [(prev.value, id)]; }
    assert EdgeSet(list) == PlacedEdges(st, prev, added);
    r := p.ConnectEach(list);
  }

  /** Adds step `i` to a plan that has the steps before it. */
  method DoStep(p: Plan, c: Chain, i: nat) returns (r: Outcome)
    requires p.Valid() && i < |c| && StagesPresent(p.ops, c)
    requires i > 0 ==> c[i - 1].op.ID() in p.ops
    modifies p
    ensures p.Valid() && Grows(old(p.G()), p.G())
    ensures r.Ok? <==> (c[i].op.ID() in old(p.ops) ==> c[i].skipOnDuplicate) && Acyclic(AddStep(old(p.G()), c, i).edges)
    ensures r.Ok? ==> p.G() == AddStep(old(p.G()), c, i)
  {
    var v := p.AddVertex(c[i].op);
    if v.Err? && !c[i].skipOnDuplicate { return v; }
    r := PlaceStep(p, c[i], Before(c, i), v.Ok?);
  }

  /** Adds a chain. It succeeds iff no step meets an unwanted duplicate and the whole request is
      acyclic, and then the graph is exactly the requested one. */
  method Do(p: Plan, c: Chain) returns (r: Outcome)
    requires p.Valid() && StagesPresent(p.ops, c)
    modifies p
    ensures p.Valid() && Grows(old(p.G()), p.G())
    ensures r.Ok? <==> Fresh(old(p.G()), c) && Acyclic(AfterChain(old(p.G()), c).edges)
    ensures r.Ok? ==> p.G() == AfterChain(old(p.G()), c)
  {
    ghost var g := p.G();
    for i := 0 to |c|
      invariant p.Valid() && p.G() == AfterSteps(g, c, i) && Grows(g, p.G()) && StepsFresh(g, c, i)
      invariant i > 0 ==> c[i - 1].op.ID() in p.ops
    {
      r := DoStep(p, c, i);
      if r.Err? {
        ChainRefused(g, c, i);
        return;
      }
    }
    return Ok;
  }

  lemma ChainRefused(g: Graph, c: Chain, i: nat)
    requires i < |c|
    requires (c[i].op.ID() in AfterSteps(g, c, i).ops && !c[i].skipOnDuplicate)
      || !Acyclic(AfterSteps(g, c, i + 1).edges)
    ensures !(Fresh(g, c) && Acyclic(AfterChain(g, c).edges))
  {
    StepsGrow(g, c, i + 1, |c|);
    if Fresh(g, c) && Acyclic(AfterChain(g, c).edges) {
      AcyclicSubset(AfterSteps(g, c, i + 1).edges, AfterChain(g, c).edges);
      StepWasFresh(g, c, i, |c|);
    }
  }
}
