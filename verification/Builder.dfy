/** The whole of `BuildPlan` (pkg/plan/plan_build.go): release operations, dependencies between
    operations, and the parts put together. */
module Builder {
  import opened Operations
  import opened Precedence
  import opened PlanGraph
  import opened Chains
  import opened ResourceInfo
  import opened ReleaseInfo
  import opened PlanRequest
  import opened PlanBuild
  import opened Dependencies
  import opened Stages

  // ----- release operations -----

  ghost predicate OnlyBrackets(ops: map<OpID, Operation>) {
    forall id :: id in ops ==> id.config.Bracket?
  }

  /** A chain of at most one new operation in a main stage is never refused. */
  lemma LoneStepFits(g: Graph, c: Chain)
    requires ValidGraph(g) && AllOpen(g)
    requires |c| <= 1
    requires |c| == 1 ==> c[0].stage.Some? && c[0].stage.value.MainStage? && c[0].op.ID() !in g.ops
    ensures Fresh(g, c) && ValidGraph(AfterChain(g, c))
  {
    if |c| == 1 {
      var id, s := c[0].op.ID(), c[0].stage.value.stage;
      assert StageOpen(g, Some(s));
      var a, b := BracketID(MainStage(s), false), BracketID(MainStage(s), true);
      FreshBetween(g.edges, g.ops.Keys, a, id, b);
      assert AfterSteps(g, c, 0) == g;
      assert AfterSteps(g, c, 1) == AddStep(g, c, 0);
      assert AddStep(g, c, 0).edges == g.edges + {(a, id), (id, b)};
    }
  }

  /** Chains of at most one operation each, all different and new, in main stages. */
  ghost predicate LoneChains(g: Graph, cs: seq<Chain>) {
    && (forall k :: 0 <= k < |cs| ==> |cs[k]| <= 1)
    && (forall k :: 0 <= k < |cs| && |cs[k]| == 1 ==>
          cs[k][0].stage.Some? && cs[k][0].stage.value.MainStage? && cs[k][0].op.ID() !in g.ops)
    && (forall i, k :: 0 <= i < k < |cs| && |cs[i]| == 1 && |cs[k]| == 1 ==> cs[i][0].op.ID() != cs[k][0].op.ID())
  }

  lemma ReleaseOpIDs(rel: seq<ReleaseInfo>, i: nat, k: nat)
    requires DistinctRevisions(rel) && i < k < 2 * |rel|
    requires ReleaseChains(rel)[i] != [] && ReleaseChains(rel)[k] != []
    ensures ReleaseChains(rel)[i][0].op.ID() != ReleaseChains(rel)[k][0].op.ID()
  {
    if i / 2 != k / 2 {
      assert rel[i / 2].rel.version != rel[k / 2].rel.version;
    }
  }

  lemma ReleaseChainsLone(g: Graph, rel: seq<ReleaseInfo>)
    requires OnlyBrackets(g.ops) && DistinctRevisions(rel)
    ensures LoneChains(g, ReleaseChains(rel))
  {
    var cs: seq<Chain> := ReleaseChains(rel);
    forall i, k | 0 <= i < k < |cs| && |cs[i]| == 1 && |cs[k]| == 1 ensures cs[i][0].op.ID() != cs[k][0].op.ID() {
      ReleaseOpIDs(rel, i, k);
    }
  }

  /** The operation of a lone chain is not in the plan when its turn comes. */
  lemma LoneOpFresh(g: Graph, cs: seq<Chain>, k: nat)
    requires LoneChains(g, cs) && k < |cs| && |cs[k]| == 1
    ensures cs[k][0].op.ID() !in AfterChains(g, cs, k).ops
  {
    var id := cs[k][0].op.ID();
    if id in AfterChains(g, cs, k).ops {
      ChainOrigin(g, cs, k, id);
    }
  }

  lemma {:induction false} LoneChainsFit(g: Graph, cs: seq<Chain>, k: nat)
    requires ValidGraph(g) && AllOpen(g) && LoneChains(g, cs) && k <= |cs|
    ensures ChainsFresh(g, cs, k) && ValidGraph(AfterChains(g, cs, k)) && AllOpen(AfterChains(g, cs, k))
    decreases k
  {
    if k > 0 {
      LoneChainsFit(g, cs, k - 1);
      if |cs[k - 1]| == 1 { LoneOpFresh(g, cs, k - 1); }
      var f := AfterChains(g, cs, k - 1);
      LoneStepFits(f, cs[k - 1]);
      StepsGrow(f, cs[k - 1], 0, |cs[k - 1]|);
      AllOpenGrows(f, AfterChains(g, cs, k));
    }
  }

  /** Adds a lone chain, and asserts that it was not refused. */
  method AddLoneChain(p: Plan, c: Chain)
    requires p.Valid() && AllOpen(p.G()) && |c| <= 1
    requires |c| == 1 ==> c[0].stage.Some? && c[0].stage.value.MainStage? && c[0].op.ID() !in p.ops
    modifies p
    ensures p.Valid() && p.G() == AfterChain(old(p.G()), c) && Fresh(old(p.G()), c)
    ensures AllOpen(p.G())
  {
    ghost var g := p.G();
    LoneStepFits(g, c);
    assert StagesPresent(p.ops, c) by {
      if |c| == 1 { assert StageOpen(g, Some(c[0].stage.value.stage)); }
    }
    var r := Do(p, c);
    assert r.Ok?;
    AllOpenGrows(g, p.G());
  }

  method AddLoneChains(p: Plan, cs: seq<Chain>)
    requires p.Valid() && AllOpen(p.G()) && LoneChains(p.G(), cs)
    modifies p
    ensures p.Valid() && p.G() == AfterAll(old(p.G()), cs) && AllFresh(old(p.G()), cs)
    ensures AllOpen(p.G())
  {
    ghost var g := p.G();
    for k := 0 to |cs|
      invariant p.Valid() && AllOpen(p.G())
      invariant p.G() == AfterChains(g, cs, k) && ChainsFresh(g, cs, k)
    {
      if |cs[k]| == 1 { LoneOpFresh(g, cs, k); }
      AddLoneChain(p, cs[k]);
    }
  }

  lemma OpenRefs(g: Graph)
    requires AllOpen(g)
    ensures HasMainRefs(g.ops)
  {
    forall s: Stage ensures HasRef(g.ops, MainStage(s)) { assert StageOpen(g, Some(s)); }
  }

  /** Adds the release operations. As long as each revision is dealt with once, none of them can
      be refused, which the source takes for granted. */
  method AddReleaseOperations(p: Plan, rel: seq<ReleaseInfo>, ghost inst: seq<InstallableInfo>)
    requires p.Valid() && AllOpen(p.G()) && HasDeployRefs(p.ops, inst) && OnlyBrackets(p.ops) && DistinctRevisions(rel)
    modifies p
    ensures p.Valid() && p.G() == AfterAll(old(p.G()), ReleaseChains(rel)) && AllFresh(old(p.G()), ReleaseChains(rel))
    ensures HasMainRefs(p.ops) && HasDeployRefs(p.ops, inst)
  {
    ReleaseChainsLone(p.G(), rel);
    DeployRefsKept(p.G(), ReleaseChains(rel), inst);
    AddLoneChains(p, ReleaseChains(rel));
    OpenRefs(p.G());
  }

  // ----- the whole -----

  /** Stages and release operations never collide. */
  lemma FrameFits(q: Request)
    requires CoversWeights(q.order, q.inst) && DistinctRevisions(q.rel)
    ensures FreshLayers(UpToReleases(q)) && AllFresh(Weighted(q), ReleaseChains(q.rel))
    ensures ValidGraph(Released(q)) && AllOpen(Released(q))
  {
    var w, cs := WeightChains(q.order, q.inst), ReleaseChains(q.rel);
    MainStagesFit([MainChain()], Staged());
    StagedBrackets([MainChain()]);
    WeightChainsFit(Staged(), q.order, w, q.inst, |q.order|);
    AllGrows(Staged(), w);
    AllOpenGrows(Staged(), Weighted(q));
    StagesAreBrackets(q);
    ReleaseChainsLone(Weighted(q), q.rel);
    LoneChainsFit(Weighted(q), cs, |cs|);
    assert FreshLayers(UpToStages());
    assert FreshLayers(UpToWeights(q));
  }

  /** The plan with all its stages and release operations; nothing of this can be refused. */
  method BuildFrame(p: Plan, inst: seq<InstallableInfo>, rel: seq<ReleaseInfo>) returns (ghost q: Request)
    requires p.Valid() && p.G() == Empty() && DistinctRevisions(rel)
    modifies p
    ensures q.inst == inst && q.rel == rel && CoversWeights(q.order, inst)
    ensures p.Valid() && p.G() == Released(q) && HasMainRefs(p.ops) && HasDeployRefs(p.ops, inst)
  {
    MainStagesFit([MainChain()], Staged());
    StagedBrackets([MainChain()]);
    var r := AddMainStages(p);
    assert r.Ok? && p.G() == Staged();
    var order;
    r, order := AddWeightedSubStages(p, inst);
    q := Request(order, inst, [], rel);
    WeightChainsFit(Staged(), order, WeightChains(order, inst), inst, |order|);
    assert r.Ok? && p.G() == Weighted(q);
    StagesAreBrackets(q);
    AllGrows(Staged(), WeightChains(order, inst));
    AllOpenGrows(Staged(), p.G());
    AddReleaseOperations(p, rel, inst);
  }

  /** Step `i` of the install chain of info `k` is in the plan. */
  lemma DeployAdded(g: Graph, inst: seq<InstallableInfo>, k: nat)
    requires k < |inst| && inst[k].mustInstall != InstallNone
    ensures DeployOp(inst[k]).ID() in AfterAll(g, InstallChains(inst)).ops
  {
    var cs: seq<Chain> := InstallChains(inst);
    var n := |ExternalSteps(inst[k])|;
    assert cs[k][n].op == DeployOp(inst[k]);
    AllStepsIn(g, cs, k, n);
  }

  lemma DeletionAdded(g: Graph, del: seq<DeletableInfo>, k: nat)
    requires k < |del| && del[k].mustDelete
    ensures DeleteID(del[k]) in AfterAll(g, DeleteChains(del)).ops
  {
    var cs: seq<Chain> := DeleteChains(del);
    assert cs[k][0].op.ID() == DeleteID(del[k]);
    AllStepsIn(g, cs, k, 0);
  }

  lemma TargetsAdded(q: Request)
    ensures TargetsIn(Requested(q).ops.Keys, q.inst, q.del)
  {
    PartsGrow(q);
    forall i | i in q.inst && i.mustInstall != InstallNone ensures DeployOp(i).ID() in Requested(q).ops {
      var k :| 0 <= k < |q.inst| && q.inst[k] == i;
      DeployAdded(Deleted(q), q.inst, k);
    }
    forall i | i in q.del && i.mustDelete ensures DeleteID(i) in Deleted(q).ops {
      var k :| 0 <= k < |q.del| && q.del[k] == i;
      DeletionAdded(Released(q), q.del, k);
    }
  }

  /** Adds the resource operations; fails iff they collide or their stages contradict. */
  method AddResourceOps(p: Plan, inst: seq<InstallableInfo>, del: seq<DeletableInfo>, ghost q: Request)
    returns (r: Outcome)
    requires p.Valid() && p.G() == Released(q) && q.inst == inst && q.del == del
    requires HasMainRefs(p.ops) && HasDeployRefs(p.ops, inst) && CoversWeights(q.order, inst)
      && DistinctRevisions(q.rel)
    modifies p
    ensures p.Valid()
    ensures r.Ok? <==> NoCollisions(q) && Acyclic(Requested(q).edges)
    ensures r.Ok? ==> p.G() == Requested(q)
  {
    PartsGrow(q);
    FrameFits(q);
    NoCollisionsMeans(q);
    r := AddDeleteResourcesOps(p, del, inst);
    if r.Ok? {
      r := AddInstallResourceOps(p, inst);
    } else {
      if Acyclic(Requested(q).edges) { AcyclicSubset(Deleted(q).edges, Requested(q).edges); }
    }
  }

  /** Adds the dependency edges; fails iff they contradict each other or the stages. */
  method ConnectDependencies(p: Plan, inst: seq<InstallableInfo>, del: seq<DeletableInfo>, ghost q: Request)
    returns (r: Outcome)
    requires p.Valid() && p.G() == Requested(q) && q.inst == inst && q.del == del
    modifies p`edges
    ensures p.Valid()
    ensures r.Ok? <==> Acyclic(Described(q).edges)
    ensures r.Ok? ==> p.G() == Described(q)
  {
    TargetsAdded(q);
    ghost var E, F := p.edges, Described(q).edges;
    ghost var D := DeployDepEdges(p.ops.Keys, del, inst, |inst|);
    ghost var D' := DeleteDepEdges(p.ops.Keys, del, inst, |del|);
    assert F == E + D + D';
    r := ConnectInternalDeployDependencies(p, inst, del);
    if r.Ok? {
      r := ConnectInternalDeleteDependencies(p, del, inst);
    } else {
      if Acyclic(F) { AcyclicSubset(E + D, F); }
    }
  }

  /** `h` is the plan built from `q`: what `q` describes, optimised. */
  ghost predicate Built(q: Request, h: Graph, noFinalTracking: bool) {
    && CoversWeights(q.order, q.inst) && DistinctRevisions(q.rel)
    && NoCollisions(q) && ValidGraph(Described(q))
    && ValidGraph(h) && Optimized(Described(q), h, noFinalTracking)
  }

  /** Builds a plan. It fails iff resource operations collide or the dependencies contradict each
      other or the stages; otherwise the plan is the described one, optimised. The weighted
      stages come in an arbitrary order, which `q` records. */
  method BuildPlan(inst: seq<InstallableInfo>, del: seq<DeletableInfo>, rel: seq<ReleaseInfo>, noFinalTracking: bool)
    returns (p: Plan, r: Outcome, ghost q: Request)
    requires DistinctRevisions(rel)
    requires forall i, d :: 0 <= i < |del| && d in del[i].deps ==> d.state == Absent
    ensures q.inst == inst && q.del == del && q.rel == rel && CoversWeights(q.order, inst)
    ensures p.Valid()
    ensures r.Ok? <==> Buildable(q)
    ensures r.Ok? ==> Built(q, p.G(), noFinalTracking) && Lean(Described(q), p.G())
  {
    p := new Plan();
    q := BuildFrame(p, inst, rel);
    q := q.(del := del);
    assert p.G() == Released(q);
    PartsGrow(q);
    if Buildable(q) { AcyclicSubset(Requested(q).edges, Described(q).edges); }
    r := AddResourceOps(p, inst, del, q);
    if r.Err? { return; }
    r := ConnectDependencies(p, inst, del, q);
    if r.Err? { return; }
    DescribedPaired(q);
    p.Optimize(noFinalTracking);
  }
}
