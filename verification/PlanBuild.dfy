/** The plan builder (pkg/plan/plan_build.go): it adds stages, release, delete and install
    operations and dependencies to a plan, step by step, and then optimises it. */
module PlanBuild {
  import opened Operations
  import opened Precedence
  import opened PlanGraph
  import opened Chains
  import opened ResourceInfo
  import opened ReleaseInfo
  import opened PlanRequest

  /** Everything a plan is built from, and the order in which the map of weighted stages happens
      to be iterated. */
  datatype Request = Request(order: seq<Stage>, inst: seq<InstallableInfo>, del: seq<DeletableInfo>,
                             rel: seq<ReleaseInfo>)

  function Weights(inst: seq<InstallableInfo>, s: Stage): seq<int> {
    WeightsOf(inst, s, |inst|)
  }

  function WeightChains(order: seq<Stage>, inst: seq<InstallableInfo>): seq<Chain> {
    seq(|order|, i requires 0 <= i < |order| => WeightChain(order[i], Weights(inst, order[i])))
  }

  /** For every revision its chain in the initial stage and its chain in the final stage. */
  function ReleaseChains(rel: seq<ReleaseInfo>): seq<Chain> {
    seq(2 * |rel|, i requires 0 <= i < 2 * |rel| =>
      if i % 2 == 0 then InitReleaseChain(rel[i / 2]) else FinalReleaseChain(rel[i / 2]))
  }

  function DeleteChains(del: seq<DeletableInfo>): seq<Chain> {
    seq(|del|, i requires 0 <= i < |del| => DeleteChain(del[i]))
  }

  function InstallChains(inst: seq<InstallableInfo>): seq<Chain> {
    seq(|inst|, i requires 0 <= i < |inst| => InstallChain(inst[i]))
  }

  // ----- the graph that a request describes -----

  ghost function AfterAll(g: Graph, cs: seq<Chain>): Graph {
    AfterChains(g, cs, |cs|)
  }

  ghost predicate AllFresh(g: Graph, cs: seq<Chain>) {
    ChainsFresh(g, cs, |cs|)
  }

  /** What a plan is made of, one layer on top of the other: chains, and at last dependencies. */
  datatype Layers =
    | Nothing
    | On(below: Layers, chains: seq<Chain>)
    | Connected(below: Layers, inst: seq<InstallableInfo>, del: seq<DeletableInfo>)

  ghost function DependencyEdgesOf(ids: set<OpID>, inst: seq<InstallableInfo>, del: seq<DeletableInfo>): set<Edge> {
    DeployDepEdges(ids, del, inst, |inst|) + DeleteDepEdges(ids, del, inst, |del|)
  }

  ghost function Layered(l: Layers): Graph {
    match l
    case Nothing => Graph(map[], {})
    case On(below, chains) => AfterAll(Layered(below), chains)
    case Connected(below, inst, del) =>
      var g := Layered(below);
      Graph(g.ops, g.edges + DependencyEdgesOf(g.ops.Keys, inst, del))
  }

  ghost function UpToStages(): Layers { On(Nothing, [MainChain()]) }
  ghost function UpToWeights(q: Request): Layers { On(UpToStages(), WeightChains(q.order, q.inst)) }
  ghost function UpToReleases(q: Request): Layers { On(UpToWeights(q), ReleaseChains(q.rel)) }
  ghost function UpToDeletions(q: Request): Layers { On(UpToReleases(q), DeleteChains(q.del)) }
  ghost function UpToInstalls(q: Request): Layers { On(UpToDeletions(q), InstallChains(q.inst)) }

  ghost function Staged(): Graph { Layered(UpToStages()) }
  ghost function Weighted(q: Request): Graph { Layered(UpToWeights(q)) }
  ghost function Released(q: Request): Graph { Layered(UpToReleases(q)) }
  ghost function Deleted(q: Request): Graph { Layered(UpToDeletions(q)) }
  ghost function Requested(q: Request): Graph { Layered(UpToInstalls(q)) }

  ghost function DependencyEdges(q: Request): set<Edge> {
    DependencyEdgesOf(Requested(q).ops.Keys, q.inst, q.del)
  }

  /** Everything that a request asks for. */
  ghost function Whole(q: Request): Layers { Connected(UpToInstalls(q), q.inst, q.del) }

  /** The graph that a request describes, before optimisation. */
  ghost function Described(q: Request): Graph { Layered(Whole(q)) }

  /** No chain meets an operation with the ID of one of its own, unless it may be shared. */
  ghost predicate FreshLayers(l: Layers) {
    match l
    case Nothing => true
    case On(below, chains) => FreshLayers(below) && AllFresh(Layered(below), chains)
    case Connected(below, _, _) => FreshLayers(below)
  }

  ghost predicate NoCollisions(q: Request) {
    FreshLayers(Whole(q))
  }

  /** No two operations collide and no dependencies contradict each other or the stages. */
  ghost predicate Buildable(q: Request) {
    NoCollisions(q) && Acyclic(Described(q).edges)
  }

  lemma NoCollisionsMeans(q: Request)
    ensures NoCollisions(q) <==>
      && FreshLayers(UpToReleases(q))
      && AllFresh(Released(q), DeleteChains(q.del))
      && AllFresh(Deleted(q), InstallChains(q.inst))
  {
    assert FreshLayers(UpToInstalls(q)) <==>
      FreshLayers(UpToDeletions(q)) && AllFresh(Deleted(q), InstallChains(q.inst));
    assert FreshLayers(UpToDeletions(q)) <==>
      FreshLayers(UpToReleases(q)) && AllFresh(Released(q), DeleteChains(q.del));
  }

  lemma GrowsTrans(f: Graph, g: Graph, h: Graph)
    requires Grows(f, g) && Grows(g, h)
    ensures Grows(f, h)
  {
  }

  lemma AllGrows(g: Graph, cs: seq<Chain>)
    ensures Grows(g, AfterAll(g, cs))
  {
    ChainsGrow(g, cs, 0, |cs|);
  }

  /** Each part of the builder only adds. */
  lemma PartsGrow(q: Request)
    ensures Grows(Staged(), Weighted(q)) && Grows(Weighted(q), Released(q)) && Grows(Released(q), Deleted(q))
    ensures Grows(Deleted(q), Requested(q)) && Grows(Requested(q), Described(q))
    ensures Grows(Released(q), Described(q)) && Grows(Weighted(q), Described(q)) && Grows(Deleted(q), Described(q))
      && Grows(Staged(), Described(q))
  {
    AllGrows(Staged(), WeightChains(q.order, q.inst));
    AllGrows(Weighted(q), ReleaseChains(q.rel));
    AllGrows(Released(q), DeleteChains(q.del));
    AllGrows(Deleted(q), InstallChains(q.inst));
    GrowsTrans(Deleted(q), Requested(q), Described(q));
    GrowsTrans(Released(q), Deleted(q), Described(q));
    GrowsTrans(Weighted(q), Released(q), Described(q));
    GrowsTrans(Staged(), Weighted(q), Described(q));
  }

  // ----- adding chains -----

  ghost predicate AllStagesPresent(ops: map<OpID, Operation>, cs: seq<Chain>) {
    forall k :: 0 <= k < |cs| ==> StagesPresent(ops, cs[k])
  }

  lemma ChainsRefused(g: Graph, cs: seq<Chain>, k: nat)
    requires k < |cs|
    requires !(Fresh(AfterChains(g, cs, k), cs[k]) && Acyclic(AfterChains(g, cs, k + 1).edges))
    ensures !(AllFresh(g, cs) && Acyclic(AfterAll(g, cs).edges))
  {
    ChainsGrow(g, cs, k + 1, |cs|);
    if AllFresh(g, cs) && Acyclic(AfterAll(g, cs).edges) {
      ChainWasFresh(g, cs, k, |cs|);
      AcyclicSubset(AfterChains(g, cs, k + 1).edges, AfterAll(g, cs).edges);
    }
  }

  /** Adds one chain after another; succeeds iff none collides and their union is acyclic. */
  method AddAll(p: Plan, cs: seq<Chain>) returns (r: Outcome)
    requires p.Valid() && AllStagesPresent(p.ops, cs)
    modifies p
    ensures p.Valid()
    ensures r.Ok? <==> AllFresh(old(p.G()), cs) && Acyclic(AfterAll(old(p.G()), cs).edges)
    ensures r.Ok? ==> p.G() == AfterAll(old(p.G()), cs)
  {
    ghost var g := p.G();
    for k := 0 to |cs|
      invariant p.Valid() && p.G() == AfterChains(g, cs, k) && ChainsFresh(g, cs, k) && Grows(g, p.G())
    {
      r := Do(p, cs[k]);
      if r.Err? {
        ChainsRefused(g, cs, k);
        return;
      }
    }
    return Ok;
  }

  // ----- brackets -----

  ghost predicate HasRef(ops: map<OpID, Operation>, ref: StageRef) {
    BracketID(ref, false) in ops && BracketID(ref, true) in ops
  }

  ghost predicate HasMainRefs(ops: map<OpID, Operation>) {
    forall s: Stage :: HasRef(ops, MainStage(s))
  }

  lemma {:induction false} StepIn(g: Graph, c: Chain, i: nat, n: nat)
    requires i < n <= |c|
    ensures c[i].op.ID() in AfterSteps(g, c, n).ops
    decreases n
  {
    if i < n - 1 { StepIn(g, c, i, n - 1); }
  }

  /** Every step of every chain has its operation in the graph. */
  lemma AllStepsIn(g: Graph, cs: seq<Chain>, k: nat, i: nat)
    requires k < |cs| && i < |cs[k]|
    ensures cs[k][i].op.ID() in AfterAll(g, cs).ops
  {
    StepIn(AfterChains(g, cs, k), cs[k], i, |cs[k]|);
    ChainsGrow(g, cs, k + 1, |cs|);
  }

  lemma MainRefsAdded(g: Graph)
    ensures HasMainRefs(AfterAll(g, [MainChain()]).ops)
  {
    var cs: seq<Chain> := [MainChain()];
    forall s: Stage ensures HasRef(AfterAll(g, cs).ops, MainStage(s)) {
      var i := StageIndex(s);
      assert cs[0][2 * i].op == BracketOp(MainStage(s), false) && cs[0][2 * i + 1].op == BracketOp(MainStage(s), true);
      AllStepsIn(g, cs, 0, 2 * i);
      AllStepsIn(g, cs, 0, 2 * i + 1);
    }
  }

  lemma MainRefsKept(g: Graph, cs: seq<Chain>)
    requires HasMainRefs(g.ops)
    ensures HasMainRefs(AfterAll(g, cs).ops)
  {
    AllGrows(g, cs);
    var h := AfterAll(g, cs);
    assert Grows(g, h);
    forall s: Stage ensures HasRef(h.ops, MainStage(s)) {
      assert HasRef(g.ops, MainStage(s));
    }
  }

  /** The iteration order covers exactly the stages that have weights. */
  ghost predicate CoversWeights(order: seq<Stage>, inst: seq<InstallableInfo>) {
    && (forall i, k :: 0 <= i < k < |order| ==> order[i] != order[k])
    && (forall s :: s in order <==> Weights(inst, s) != [])
  }

  /** Where the weight of info `i` is found. */
  lemma WeightPosition(order: seq<Stage>, inst: seq<InstallableInfo>, i: nat) returns (k: nat, n: nat)
    requires CoversWeights(order, inst) && i < |inst| && inst[i].res.weight.Some?
    ensures k < |order| && order[k] == inst[i].stage
    ensures n < |Weights(inst, order[k])| && Weights(inst, order[k])[n] == inst[i].res.weight.value
  {
    var s, w := inst[i].stage, inst[i].res.weight.value;
    WeightIn(inst, s, |inst|, w);
    assert w in Weights(inst, s) && s in order;
    k :| 0 <= k < |order| && order[k] == s;
    n :| 0 <= n < |Weights(inst, s)| && Weights(inst, s)[n] == w;
  }

  ghost predicate HasDeployRefs(ops: map<OpID, Operation>, inst: seq<InstallableInfo>) {
    forall i :: 0 <= i < |inst| ==> HasRef(ops, DeployRef(inst[i]))
  }

  lemma WeightRefAdded(g: Graph, order: seq<Stage>, inst: seq<InstallableInfo>, i: nat)
    requires CoversWeights(order, inst) && i < |inst| && inst[i].res.weight.Some?
    ensures HasRef(AfterAll(g, WeightChains(order, inst)).ops, DeployRef(inst[i]))
  {
    var k, n := WeightPosition(order, inst, i);
    var cs: seq<Chain> := WeightChains(order, inst);
    var ref := DeployRef(inst[i]);
    assert cs[k][2 * n].op == BracketOp(ref, false) && cs[k][2 * n + 1].op == BracketOp(ref, true);
    AllStepsIn(g, cs, k, 2 * n);
    AllStepsIn(g, cs, k, 2 * n + 1);
  }

  lemma DeployRefsAdded(g: Graph, order: seq<Stage>, inst: seq<InstallableInfo>)
    requires CoversWeights(order, inst) && HasMainRefs(g.ops)
    ensures HasDeployRefs(AfterAll(g, WeightChains(order, inst)).ops, inst)
  {
    MainRefsKept(g, WeightChains(order, inst));
    var h := AfterAll(g, WeightChains(order, inst));
    forall i | 0 <= i < |inst| ensures HasRef(h.ops, DeployRef(inst[i])) {
      if inst[i].res.weight.Some? {
        WeightRefAdded(g, order, inst, i);
      } else {
        assert HasRef(h.ops, MainStage(inst[i].stage));
      }
    }
  }

  lemma DeployRefsKept(g: Graph, cs: seq<Chain>, inst: seq<InstallableInfo>)
    requires HasDeployRefs(g.ops, inst)
    ensures HasDeployRefs(AfterAll(g, cs).ops, inst)
  {
    AllGrows(g, cs);
    var h := AfterAll(g, cs);
    assert Grows(g, h);
    forall i | 0 <= i < |inst| ensures HasRef(h.ops, DeployRef(inst[i])) {
      assert HasRef(g.ops, DeployRef(inst[i]));
    }
  }

  lemma WeightStagesPresent(ops: map<OpID, Operation>, order: seq<Stage>, inst: seq<InstallableInfo>)
    requires HasMainRefs(ops)
    ensures AllStagesPresent(ops, WeightChains(order, inst))
  {
    forall k | 0 <= k < |order| ensures StagesPresent(ops, WeightChains(order, inst)[k]) {
      assert HasRef(ops, MainStage(order[k]));
    }
  }

  lemma DeleteStagesPresent(ops: map<OpID, Operation>, del: seq<DeletableInfo>)
    requires HasMainRefs(ops)
    ensures AllStagesPresent(ops, DeleteChains(del))
  {
    forall k | 0 <= k < |del| ensures StagesPresent(ops, DeleteChains(del)[k]) {
      assert HasRef(ops, MainStage(del[k].stage));
    }
  }

  lemma InstallStagesPresent(ops: map<OpID, Operation>, inst: seq<InstallableInfo>)
    requires HasMainRefs(ops) && HasDeployRefs(ops, inst)
    ensures AllStagesPresent(ops, InstallChains(inst))
  {
    forall k | 0 <= k < |inst| ensures StagesPresent(ops, InstallChains(inst)[k]) {
      assert HasRef(ops, DeployRef(inst[k]));
      assert inst[k].deleteStage.Some? ==> HasRef(ops, MainStage(inst[k].deleteStage.value));
    }
  }

  // ----- the builder, part by part -----

  method AddMainStages(p: Plan) returns (r: Outcome)
    requires p.Valid()
    modifies p
    ensures p.Valid()
    ensures r.Ok? <==> AllFresh(old(p.G()), [MainChain()]) && Acyclic(AfterAll(old(p.G()), [MainChain()]).edges)
    ensures r.Ok? ==> p.G() == AfterAll(old(p.G()), [MainChain()]) && HasMainRefs(p.ops)
  {
    MainRefsAdded(p.G());
    r := AddAll(p, [MainChain()]);
  }

  /** `weights` holds, for every stage that has any, the weights of the first `n` infos. */
  ghost predicate WeightTable(weights: map<Stage, seq<int>>, inst: seq<InstallableInfo>, n: nat)
    requires n <= |inst|
  {
    forall s :: (if s in weights then weights[s] else []) == WeightsOf(inst, s, n)
      && (s in weights ==> weights[s] != [])
  }

  lemma WeightNoted(weights: map<Stage, seq<int>>, inst: seq<InstallableInfo>, n: nat, ws: seq<int>)
    requires n < |inst| && WeightTable(weights, inst, n) && ws == WeightsOf(inst, inst[n].stage, n + 1)
    ensures inst[n].res.weight.Some? ==> WeightTable(weights[inst[n].stage := ws], inst, n + 1)
    ensures inst[n].res.weight.None? ==> WeightTable(weights, inst, n + 1)
  {
    var t := if inst[n].res.weight.Some? then weights[inst[n].stage := ws] else weights;
    forall s ensures (if s in t then t[s] else []) == WeightsOf(inst, s, n + 1) && (s in t ==> t[s] != []) {
      if s == inst[n].stage && inst[n].res.weight.Some? {
        WeightIn(inst, s, n + 1, inst[n].res.weight.value);
      } else {
        OtherWeights(inst, s, n);
      }
    }
  }

  lemma OtherWeights(inst: seq<InstallableInfo>, s: Stage, n: nat)
    requires n < |inst| && (s != inst[n].stage || inst[n].res.weight.None?)
    ensures WeightsOf(inst, s, n + 1) == WeightsOf(inst, s, n)
  {
  }

  method NoteWeight(weights: map<Stage, seq<int>>, inst: seq<InstallableInfo>, n: nat) returns (r: map<Stage, seq<int>>)
    requires n < |inst| && WeightTable(weights, inst, n)
    ensures WeightTable(r, inst, n + 1)
  {
    var i := inst[n];
    if i.res.weight.None? {
      WeightNoted(weights, inst, n, WeightsOf(inst, i.stage, n + 1));
      return weights;
    }
    var before := if i.stage in weights then weights[i.stage] else [];
    assert before == WeightsOf(inst, i.stage, n);
    var ws := InsertWeight(before, i.res.weight.value);
    assert ws == WeightsOf(inst, i.stage, n + 1);
    WeightNoted(weights, inst, n, ws);
    return weights[i.stage := ws];
  }

  /** The distinct weights of every stage that has weighted resources, in order. Collecting,
      sorting and removing repetitions are one insertion here. */
  method CollectWeights(inst: seq<InstallableInfo>) returns (weights: map<Stage, seq<int>>)
    ensures WeightTable(weights, inst, |inst|)
  {
    weights := map[];
    for n := 0 to |inst|
      invariant WeightTable(weights, inst, n)
    {
      weights := NoteWeight(weights, inst, n);
    }
  }

  /** The stages in the arbitrary order of a map iteration. */
  method IterationOrder(stages: set<Stage>) returns (order: seq<Stage>)
    ensures forall i, k :: 0 <= i < k < |order| ==> order[i] != order[k]
    ensures forall s :: s in order <==> s in stages
  {
    order := [];
    var left := stages;
    while left != {}
      invariant left <= stages
      invariant forall s :: s in order <==> s in stages && s !in left
      invariant forall i, k :: 0 <= i < k < |order| ==> order[i] != order[k]
      decreases left
    {
      var s :| s in left;
      order, left := order + [s], left - {s};
    }
  }

  method AddWeightedSubStages(p: Plan, inst: seq<InstallableInfo>) returns (r: Outcome, order: seq<Stage>)
    requires p.Valid() && HasMainRefs(p.ops)
    modifies p
    ensures p.Valid() && CoversWeights(order, inst)
    ensures r.Ok? <==>
      AllFresh(old(p.G()), WeightChains(order, inst)) && Acyclic(AfterAll(old(p.G()), WeightChains(order, inst)).edges)
    ensures r.Ok? ==>
      p.G() == AfterAll(old(p.G()), WeightChains(order, inst)) && HasMainRefs(p.ops) && HasDeployRefs(p.ops, inst)
  {
    var weights := CollectWeights(inst);
    order := IterationOrder(weights.Keys);
    var cs: seq<Chain> := seq(|order|, i requires 0 <= i < |order| =>
      assert order[i] in order; WeightChain(order[i], weights[order[i]]));
    assert cs == WeightChains(order, inst) by {
      forall i | 0 <= i < |order| ensures cs[i] == WeightChains(order, inst)[i] { assert order[i] in order; }
    }
    WeightStagesPresent(p.ops, order, inst);
    MainRefsKept(p.G(), cs);
    DeployRefsAdded(p.G(), order, inst);
    r := AddAll(p, cs);
  }

  method AddDeleteResourcesOps(p: Plan, del: seq<DeletableInfo>, ghost inst: seq<InstallableInfo>) returns (r: Outcome)
    requires p.Valid() && HasMainRefs(p.ops) && HasDeployRefs(p.ops, inst)
    modifies p
    ensures p.Valid()
    ensures r.Ok? <==> AllFresh(old(p.G()), DeleteChains(del)) && Acyclic(AfterAll(old(p.G()), DeleteChains(del)).edges)
    ensures r.Ok? ==>
      p.G() == AfterAll(old(p.G()), DeleteChains(del)) && HasMainRefs(p.ops) && HasDeployRefs(p.ops, inst)
  {
    DeleteStagesPresent(p.ops, del);
    MainRefsKept(p.G(), DeleteChains(del));
    DeployRefsKept(p.G(), DeleteChains(del), inst);
    r := AddAll(p, DeleteChains(del));
  }

  method AddInstallResourceOps(p: Plan, inst: seq<InstallableInfo>) returns (r: Outcome)
    requires p.Valid() && HasMainRefs(p.ops) && HasDeployRefs(p.ops, inst)
    modifies p
    ensures p.Valid()
    ensures r.Ok? <==>
      AllFresh(old(p.G()), InstallChains(inst)) && Acyclic(AfterAll(old(p.G()), InstallChains(inst)).edges)
    ensures r.Ok? ==> p.G() == AfterAll(old(p.G()), InstallChains(inst))
  {
    InstallStagesPresent(p.ops, inst);
    r := AddAll(p, InstallChains(inst));
  }
}
