/** The order of stages in a built plan: main stages one after another, and in each of them its
    weights one after another (pkg/plan/plan_build.go, pkg/common/common.go). */
module StageOrder {
  import opened Operations
  import opened Precedence
  import opened PlanGraph
  import opened Chains
  import opened PlanRequest
  import opened PlanBuild
  import opened Stages
  import opened Builder

  /** Operation `id` stands in the stage or sub-stage `ref`. */
  ghost predicate Placed(g: Graph, id: OpID, ref: StageRef) {
    (BracketID(ref, false), id) in g.edges && (id, BracketID(ref, true)) in g.edges
  }

  /** An earlier main stage, or a lower weight in the same one. */
  ghost predicate RefBefore(a: StageRef, b: StageRef) {
    || StageIndex(a.stage) < StageIndex(b.stage)
    || (a.stage == b.stage && a.SubStage? && b.SubStage? && a.weight < b.weight)
  }

  // ----- chains are in order -----

  ghost predicate Linked(h: Graph, c: Chain) {
    forall i :: 0 < i < |c| ==> (c[i - 1].op.ID(), c[i].op.ID()) in h.edges
  }

  lemma {:induction false} ChainOrder(h: Graph, c: Chain, i: nat, k: nat)
    requires Linked(h, c) && i < k < |c|
    ensures Precedes(h.edges, c[i].op.ID(), c[k].op.ID())
    decreases k
  {
    EdgePrecedes(h.edges, c[k - 1].op.ID(), c[k].op.ID());
    if i < k - 1 {
      ChainOrder(h, c, i, k - 1);
      PrecedesTrans(h.edges, c[i].op.ID(), c[k - 1].op.ID(), c[k].op.ID());
    }
  }

  lemma ChainsLinked(g: Graph, cs: seq<Chain>, h: Graph, k: nat)
    requires AllFresh(g, cs) && Grows(AfterAll(g, cs), h) && k < |cs|
    ensures Linked(h, cs[k])
  {
    var f := AfterAll(g, cs);
    forall i | 0 < i < |cs[k]| ensures (cs[k][i - 1].op.ID(), cs[k][i].op.ID()) in h.edges {
      ChainStepDone(g, cs, k, i);
      assert StepDone(f, cs[k], i);
    }
  }

  /** A main stage ends before a later one begins. */
  lemma MainStagesInOrder(h: Graph, s: Stage, t: Stage)
    requires Grows(Staged(), h) && StageIndex(s) < StageIndex(t)
    ensures Precedes(h.edges, BracketID(MainStage(s), true), BracketID(MainStage(t), false))
  {
    var cs: seq<Chain> := [MainChain()];
    MainStagesFit(cs, Staged());
    ChainsLinked(Empty(), cs, h, 0);
    var i, k := StageIndex(s), StageIndex(t);
    MainStep(i);
    MainStep(k);
    ChainOrder(h, MainChain(), 2 * i + 1, 2 * k);
  }

  ghost predicate StageThen(h: Graph, s: Stage, t: Stage) {
    Precedes(h.edges, BracketID(MainStage(s), true), BracketID(MainStage(t), false))
  }

  ghost predicate SequenceToInstall(h: Graph) {
    && StageThen(h, Init, PrePreUninstall) && StageThen(h, PrePreUninstall, PrePreInstall)
    && StageThen(h, PrePreInstall, PreInstall) && StageThen(h, PreInstall, PreUninstall)
    && StageThen(h, PreUninstall, Install)
  }

  ghost predicate SequenceFromInstall(h: Graph) {
    && StageThen(h, Install, Uninstall)
    && StageThen(h, Uninstall, PostInstall) && StageThen(h, PostInstall, PostUninstall)
    && StageThen(h, PostUninstall, PostPostInstall) && StageThen(h, PostPostInstall, PostPostUninstall)
    && StageThen(h, PostPostUninstall, Final)
  }

  lemma NamedToInstall(h: Graph)
    requires forall s: Stage, t: Stage :: StageIndex(s) < StageIndex(t) ==> StageThen(h, s, t)
    ensures SequenceToInstall(h)
  {
  }

  lemma NamedFromInstall(h: Graph)
    requires forall s: Stage, t: Stage :: StageIndex(s) < StageIndex(t) ==> StageThen(h, s, t)
    ensures SequenceFromInstall(h)
  {
  }

  /** The main stages by name, each over before the next one begins. */
  lemma StagesByName(h: Graph)
    requires Grows(Staged(), h)
    ensures SequenceToInstall(h) && SequenceFromInstall(h)
  {
    forall s: Stage, t: Stage | StageIndex(s) < StageIndex(t) ensures StageThen(h, s, t) { MainStagesInOrder(h, s, t); }
    NamedToInstall(h);
    NamedFromInstall(h);
  }

  // ----- sub-stages -----

  /** The weight of a sub-stage that is in the plan is one of the stage's weights. */
  lemma SubStageKnown(q: Request, s: Stage, w: int, isEnd: bool) returns (k: nat, n: nat)
    requires BracketID(SubStage(s, w), isEnd) in Weighted(q).ops
    ensures k < |q.order| && q.order[k] == s && n < |Weights(q.inst, s)| && Weights(q.inst, s)[n] == w
  {
    var id := BracketID(SubStage(s, w), isEnd);
    var cs: seq<Chain> := WeightChains(q.order, q.inst);
    StagedBrackets([MainChain()]);
    ChainOrigin(Staged(), cs, |cs|, id);
    k :| 0 <= k < |cs| && PlacedBy(Weighted(q), cs[k], id);
    var i :| 0 <= i < |cs[k]| && PlacedAs(Weighted(q), cs[k][i], id);
    n := i / 2;
  }

  lemma WeightChainsFresh(q: Request)
    requires CoversWeights(q.order, q.inst)
    ensures AllFresh(Staged(), WeightChains(q.order, q.inst))
  {
    MainStagesFit([MainChain()], Staged());
    StagedBrackets([MainChain()]);
    WeightChainsFit(Staged(), q.order, WeightChains(q.order, q.inst), q.inst, |q.order|);
  }

  lemma WeightStep(s: Stage, ws: seq<int>, n: nat)
    requires n < |ws|
    ensures |WeightChain(s, ws)| == 2 * |ws|
    ensures WeightChain(s, ws)[2 * n] == ChainStep(BracketOp(SubStage(s, ws[n]), false), Some(MainStage(s)), false)
    ensures WeightChain(s, ws)[2 * n + 1] == ChainStep(BracketOp(SubStage(s, ws[n]), true), Some(MainStage(s)), false)
  {
  }

  /** A sub-stage lies inside its main stage. */
  lemma SubStageInside(q: Request, h: Graph, s: Stage, w: int, isEnd: bool)
    requires CoversWeights(q.order, q.inst) && Grows(Weighted(q), h)
    requires BracketID(SubStage(s, w), isEnd) in Weighted(q).ops
    ensures Placed(h, BracketID(SubStage(s, w), isEnd), MainStage(s))
  {
    var k, n := SubStageKnown(q, s, w, isEnd);
    var cs: seq<Chain> := WeightChains(q.order, q.inst);
    WeightChainsFresh(q);
    WeightStep(s, Weights(q.inst, s), n);
    ChainStepDone(Staged(), cs, k, if isEnd then 2 * n + 1 else 2 * n);
  }

  lemma SubStagesInOrder(q: Request, h: Graph, s: Stage, v: int, w: int)
    requires CoversWeights(q.order, q.inst) && Grows(Weighted(q), h) && v < w
    requires BracketID(SubStage(s, v), true) in Weighted(q).ops && BracketID(SubStage(s, w), false) in Weighted(q).ops
    ensures Precedes(h.edges, BracketID(SubStage(s, v), true), BracketID(SubStage(s, w), false))
  {
    var k, n := SubStageKnown(q, s, v, true);
    var k', m := SubStageKnown(q, s, w, false);
    var ws := Weights(q.inst, s);
    assert n < m;
    WeightChainsFresh(q);
    var cs: seq<Chain> := WeightChains(q.order, q.inst);
    ChainsLinked(Staged(), cs, h, k);
    WeightStep(s, ws, n);
    WeightStep(s, ws, m);
    ChainOrder(h, cs[k], 2 * n + 1, 2 * m);
  }

  // ----- the order of stages -----

  lemma StageClosedBy(q: Request, h: Graph, ref: StageRef)
    requires CoversWeights(q.order, q.inst) && Grows(Weighted(q), h) && HasRef(Weighted(q).ops, ref)
    ensures PrecedesOrIs(h.edges, BracketID(ref, true), BracketID(MainStage(ref.stage), true))
    ensures PrecedesOrIs(h.edges, BracketID(MainStage(ref.stage), false), BracketID(ref, false))
  {
    if ref.SubStage? {
      SubStageInside(q, h, ref.stage, ref.weight, true);
      SubStageInside(q, h, ref.stage, ref.weight, false);
      EdgePrecedes(h.edges, BracketID(ref, true), BracketID(MainStage(ref.stage), true));
      EdgePrecedes(h.edges, BracketID(MainStage(ref.stage), false), BracketID(ref, false));
    }
  }

  lemma StageRefsInOrder(q: Request, h: Graph, a: StageRef, b: StageRef)
    requires CoversWeights(q.order, q.inst) && Grows(Staged(), h) && Grows(Weighted(q), h)
    requires HasRef(Weighted(q).ops, a) && HasRef(Weighted(q).ops, b) && RefBefore(a, b)
    ensures Precedes(h.edges, BracketID(a, true), BracketID(b, false))
  {
    if a.stage == b.stage {
      SubStagesInOrder(q, h, a.stage, a.weight, b.weight);
    } else {
      StageClosedBy(q, h, a);
      StageClosedBy(q, h, b);
      MainStagesInOrder(h, a.stage, b.stage);
      PrecedesTransAll(h.edges);
    }
  }

  /** Brackets are in the plan only because a stage or a weight asked for them. */
  lemma PlacedRef(q: Request, id: OpID, ref: StageRef)
    requires ValidGraph(Described(q)) && Placed(Described(q), id, ref)
    ensures HasRef(Weighted(q).ops, ref)
  {
    assert Described(q).ops == Requested(q).ops;
    ReleaseNoBrackets(q.rel);
    DeleteNoBrackets(q.del);
    InstallNoBrackets(q.inst);
    NoNewBrackets(Weighted(q), ReleaseChains(q.rel));
    NoNewBrackets(Released(q), DeleteChains(q.del));
    NoNewBrackets(Deleted(q), InstallChains(q.inst));
    assert BracketID(ref, false) in Requested(q).ops && BracketID(ref, true) in Requested(q).ops;
  }

  /** In every built plan, what stands in an earlier main stage precedes what stands in a later
      one, and in one stage a lower weight precedes a higher one. */
  lemma StagesInOrder(q: Request, h: Graph, noFinalTracking: bool, x: OpID, a: StageRef, y: OpID, b: StageRef)
    requires Built(q, h, noFinalTracking)
    requires Placed(Described(q), x, a) && Placed(Described(q), y, b) && RefBefore(a, b)
    ensures Precedes(Described(q).edges, x, y)
    ensures x in h.ops && y in h.ops ==> Precedes(h.edges, x, y)
  {
    var g := Described(q);
    PartsGrow(q);
    PlacedRef(q, x, a);
    PlacedRef(q, y, b);
    StageRefsInOrder(q, g, a, b);
    EdgePrecedes(g.edges, x, BracketID(a, true));
    EdgePrecedes(g.edges, BracketID(b, false), y);
    PrecedesTransAll(g.edges);
  }
}
