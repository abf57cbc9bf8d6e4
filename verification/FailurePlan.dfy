/** The plan executed after a plan has failed (pkg/plan/plan_build.go, `BuildFailurePlan`): it
    marks the release as failed and deletes resources whose readiness tracking failed. */
module FailurePlan {
  import opened Operations
  import opened Precedence
  import opened PlanGraph
  import opened Chains
  import opened ResourceInfo
  import opened ReleaseInfo
  import opened PlanRequest
  import opened PlanBuild
  import opened Stages
  import opened Builder
  import opened StageOrder
  import opened PlanProperties
  import opened Scheduler
  import opened StartOrders

  /** A plan that was executed, with the status each operation got to. */
  datatype Executed = Executed(ops: map<OpID, Operation>, status: map<OpID, Status>)

  ghost predicate ValidExecuted(x: Executed) {
    x.status.Keys == x.ops.Keys
  }

  // ----- what the failure plan is asked to contain -----

  /** The executed plan has stored this revision. */
  predicate ReleaseStored(x: Executed, revision: int) {
    exists id | id in x.ops :: id in x.status && x.status[id] == StatusCompleted && x.ops[id].config.ReleaseConfig?
      && x.ops[id].config.rel.version == revision
  }

  function FailedReleaseChain(x: Executed, i: ReleaseInfo): Chain {
    if i.mustFailOnFailedDeploy && ReleaseStored(x, i.rel.version)
    then [ChainStep(UpdateReleaseOp(i.rel, FailedRelease), Some(MainStage(Init)), false)]
    else []
  }

  function StatusOf(x: Executed, id: OpID): Status {
    if id in x.status then x.status[id] else StatusUnknown
  }

  predicate MustCleanUp(x: Executed, i: InstallableInfo) {
    && i.mustDeleteOnFailed
    && StatusOf(x, ReadinessOp(i).ID()) == StatusFailed
    && !(i.mustDeleteOnSuccess && StatusOf(x, CleanupOp(i).ID()) == StatusCompleted)
  }

  function CleanupChain(x: Executed, i: InstallableInfo): Chain {
    if MustCleanUp(x, i) then
      [ChainStep(CleanupOp(i), Some(MainStage(Uninstall)), false),
       ChainStep(CleanupTrackOp(i), Some(MainStage(Uninstall)), false)]
    else []
  }

  function FailedReleaseChains(x: Executed, rel: seq<ReleaseInfo>): seq<Chain> {
    seq(|rel|, k requires 0 <= k < |rel| => FailedReleaseChain(x, rel[k]))
  }

  function CleanupChains(x: Executed, inst: seq<InstallableInfo>): seq<Chain> {
    seq(|inst|, k requires 0 <= k < |inst| => CleanupChain(x, inst[k]))
  }

  ghost function FailedReleases(x: Executed, rel: seq<ReleaseInfo>): Graph {
    Layered(On(UpToStages(), FailedReleaseChains(x, rel)))
  }

  ghost function FailureGraph(x: Executed, inst: seq<InstallableInfo>, rel: seq<ReleaseInfo>): Graph {
    Layered(On(On(UpToStages(), FailedReleaseChains(x, rel)), CleanupChains(x, inst)))
  }

  // ----- building it never fails -----

  ghost predicate NoDeletions(ops: map<OpID, Operation>) {
    forall id :: id in ops ==> !id.config.ResourceKey?
  }

  lemma CleanupChainFresh(g: Graph, x: Executed, inst: seq<InstallableInfo>, cs: seq<Chain>, k: nat, i: nat)
    requires NoDeletions(g.ops) && UniqueIterations(inst) && cs == CleanupChains(x, inst) && k < |cs| && i < |cs[k]|
    ensures cs[k][i].op.ID() !in AfterChains(g, cs, k).ops
  {
    var id := cs[k][i].op.ID();
    if id in AfterChains(g, cs, k).ops {
      ChainOrigin(g, cs, k, id);
    }
  }

  lemma CleanupChainNew(g: Graph, x: Executed, inst: seq<InstallableInfo>, cs: seq<Chain>, k: nat)
    requires NoDeletions(g.ops) && UniqueIterations(inst) && cs == CleanupChains(x, inst) && k < |cs|
    ensures NewChain(AfterChains(g, cs, k), cs[k], Some(Uninstall))
  {
    var c := cs[k];
    forall i | 0 <= i < |c| ensures c[i].op.ID() !in AfterChains(g, cs, k).ops {
      CleanupChainFresh(g, x, inst, cs, k, i);
    }
  }

  lemma {:induction false} CleanupChainsFit(g: Graph, x: Executed, inst: seq<InstallableInfo>, cs: seq<Chain>, k: nat)
    requires ValidGraph(g) && AllOpen(g) && NoDeletions(g.ops)
    requires UniqueIterations(inst) && cs == CleanupChains(x, inst) && k <= |cs|
    ensures ChainsFresh(g, cs, k) && ValidGraph(AfterChains(g, cs, k))
    decreases k
  {
    if k > 0 {
      CleanupChainsFit(g, x, inst, cs, k - 1);
      ChainsGrow(g, cs, 0, k - 1);
      var f := AfterChains(g, cs, k - 1);
      AllOpenGrows(g, f);
      CleanupChainNew(g, x, inst, cs, k - 1);
      NewChainFits(f, cs[k - 1], Some(Uninstall), |cs[k - 1]|);
    }
  }

  lemma FailedReleasesLone(x: Executed, rel: seq<ReleaseInfo>)
    requires DistinctRevisions(rel)
    ensures LoneChains(Staged(), FailedReleaseChains(x, rel))
  {
    StagedBrackets([MainChain()]);
    var cs: seq<Chain> := FailedReleaseChains(x, rel);
    forall i, k | 0 <= i < k < |cs| && |cs[i]| == 1 && |cs[k]| == 1 ensures cs[i][0].op.ID() != cs[k][0].op.ID() {
      assert rel[i].rel.version != rel[k].rel.version;
    }
  }

  lemma NoDeletionsYet(x: Executed, rel: seq<ReleaseInfo>)
    ensures NoDeletions(FailedReleases(x, rel).ops)
  {
    StagedBrackets([MainChain()]);
    var cs: seq<Chain> := FailedReleaseChains(x, rel);
    assert NoResources(cs);
    forall id | id in FailedReleases(x, rel).ops ensures !id.config.ResourceKey? {
      if id.config.ResourceKey? { NotAdded(Staged(), cs, id); }
    }
  }

  lemma FailureNoBrackets(x: Executed, inst: seq<InstallableInfo>, rel: seq<ReleaseInfo>)
    ensures NoBrackets(FailedReleaseChains(x, rel)) && NoBrackets(CleanupChains(x, inst))
  {
  }

  lemma FailurePaired(x: Executed, inst: seq<InstallableInfo>, rel: seq<ReleaseInfo>)
    ensures PairedBrackets(FailureGraph(x, inst, rel).ops)
  {
    StagesPaired();
    FailureNoBrackets(x, inst, rel);
    var f, h := FailedReleases(x, rel), FailureGraph(x, inst, rel);
    NoNewBrackets(Staged(), FailedReleaseChains(x, rel));
    NoNewBrackets(f, CleanupChains(x, inst));
    AllGrows(Staged(), FailedReleaseChains(x, rel));
    AllGrows(f, CleanupChains(x, inst));
    GrowsTrans(Staged(), f, h);
    PairedAfter(Staged(), h);
  }

  /** The lookups that the source takes for granted. */
  ghost predicate LookupsSucceed(ops: map<OpID, Operation>, inst: seq<InstallableInfo>) {
    forall i :: 0 <= i < |inst| && inst[i].mustDeleteOnFailed ==>
      ReadinessOp(inst[i]).ID() in ops && (inst[i].mustDeleteOnSuccess ==> CleanupOp(inst[i]).ID() in ops)
  }

  /** Which infos are cleaned up, by looking up the operations of the executed plan. */
  method CollectCleanups(x: Executed, inst: seq<InstallableInfo>) returns (cs: seq<Chain>)
    requires ValidExecuted(x) && LookupsSucceed(x.ops, inst)
    ensures cs == CleanupChains(x, inst)
  {
    cs := [];
    for k := 0 to |inst|
      invariant cs == CleanupChains(x, inst)[..k]
    {
      var i := inst[k];
      var c: Chain := [];
      if i.mustDeleteOnFailed && x.status[ReadinessOp(i).ID()] == StatusFailed {
        if !(i.mustDeleteOnSuccess && x.status[CleanupOp(i).ID()] == StatusCompleted) {
          c := [ChainStep(CleanupOp(i), Some(MainStage(Uninstall)), false),
                ChainStep(CleanupTrackOp(i), Some(MainStage(Uninstall)), false)];
        }
      }
      cs := cs + [c];
    }
  }

  /** Builds the failure plan. It fails iff two clean-ups collide, which they never do when
      iterations tell the infos of a resource apart. */
  method BuildFailurePlan(x: Executed, inst: seq<InstallableInfo>, rel: seq<ReleaseInfo>, noFinalTracking: bool)
    returns (p: Plan, r: Outcome)
    requires ValidExecuted(x) && LookupsSucceed(x.ops, inst) && DistinctRevisions(rel)
    ensures p.Valid()
    ensures r.Ok? <==>
      AllFresh(FailedReleases(x, rel), CleanupChains(x, inst)) && Acyclic(FailureGraph(x, inst, rel).edges)
    ensures r.Ok? ==>
      Optimized(FailureGraph(x, inst, rel), p.G(), noFinalTracking) && Lean(FailureGraph(x, inst, rel), p.G())
    ensures UniqueIterations(inst) ==> r.Ok?
  {
    p := new Plan();
    MainStagesFit([MainChain()], Staged());
    r := AddMainStages(p);
    assert r.Ok? && p.G() == Staged();
    FailedReleasesLone(x, rel);
    AddLoneChains(p, FailedReleaseChains(x, rel));
    r := AddCleanups(p, x, inst, rel);
    if r.Err? { return; }
    FailurePaired(x, inst, rel);
    p.Optimize(noFinalTracking);
  }

  lemma CleanupStagesPresent(ops: map<OpID, Operation>, x: Executed, inst: seq<InstallableInfo>)
    requires HasMainRefs(ops)
    ensures AllStagesPresent(ops, CleanupChains(x, inst))
  {
    assert HasRef(ops, MainStage(Uninstall));
  }

  method AddCleanups(p: Plan, x: Executed, inst: seq<InstallableInfo>, ghost rel: seq<ReleaseInfo>) returns (r: Outcome)
    requires p.Valid() && AllOpen(p.G()) && p.G() == FailedReleases(x, rel)
    requires ValidExecuted(x) && LookupsSucceed(x.ops, inst)
    modifies p
    ensures p.Valid()
    ensures r.Ok? <==>
      AllFresh(FailedReleases(x, rel), CleanupChains(x, inst)) && Acyclic(FailureGraph(x, inst, rel).edges)
    ensures r.Ok? ==> p.G() == FailureGraph(x, inst, rel)
    ensures UniqueIterations(inst) ==> r.Ok?
  {
    ghost var g := p.G();
    var cs := CollectCleanups(x, inst);
    NoDeletionsYet(x, rel);
    if UniqueIterations(inst) { CleanupChainsFit(g, x, inst, cs, |cs|); }
    OpenRefs(g);
    CleanupStagesPresent(p.ops, x, inst);
    r := AddAll(p, cs);
  }

  // ----- what it does -----

  /** The plan `h` as an execution of it, at any moment, leaves it. */
  ghost predicate ExecutionOf(h: Graph, parallelism: nat, s: State, x: Executed) {
    parallelism > 0 && Reachable(JobOf(h, parallelism), s) && x == Executed(h.ops, s.status)
  }

  lemma OperationKept(q: Request, h: Graph, k: nat, op: Operation, ref: StageRef)
    requires Built(q, h, false) && k < |q.inst| && OperationOf(q.inst[k], op, ref)
    ensures op.ID() in h.ops
  {
    InstallOpStands(q, k, op, ref);
  }

  /** Every lookup of the failure plan succeeds. */
  lemma FailureLookupsSucceed(q: Request, h: Graph)
    requires Built(q, h, false) && forall k :: 0 <= k < |q.inst| ==> Sound(q.inst[k])
    ensures LookupsSucceed(h.ops, q.inst)
  {
    forall k | 0 <= k < |q.inst| && q.inst[k].mustDeleteOnFailed
      ensures ReadinessOp(q.inst[k]).ID() in h.ops
        && (q.inst[k].mustDeleteOnSuccess ==> CleanupOp(q.inst[k]).ID() in h.ops)
    {
      var i := q.inst[k];
      OperationKept(q, h, k, ReadinessOp(i), DeployRef(i));
      if i.mustDeleteOnSuccess { OperationKept(q, h, k, CleanupOp(i), CleanupRef(i).value); }
    }
  }

  /** Had final tracking been dropped, the lookup for a resource would succeed iff some resource
      operation comes after its readiness operation. */
  lemma LookupIffResourceAfter(q: Request, h: Graph, k: nat)
    requires Built(q, h, true) && k < |q.inst| && q.inst[k].mustDeleteOnFailed && q.inst[k].mustTrackReadiness
    ensures ReadinessOp(q.inst[k]).ID() in h.ops <==> HasResourceAfter(Described(q), ReadinessOp(q.inst[k]).ID())
  {
    InstallOpStands(q, k, ReadinessOp(q.inst[k]), DeployRef(q.inst[k]));
    TrackingKeptIff(Described(q), h, ReadinessOp(q.inst[k]).ID());
  }

  /** All lookups of the failure plan succeed iff final tracking was kept, or every readiness
      operation that is looked up has a resource operation after it. */
  lemma LookupsSucceedIff(q: Request, h: Graph, noFinalTracking: bool)
    requires Built(q, h, noFinalTracking) && forall k :: 0 <= k < |q.inst| ==> Sound(q.inst[k])
    ensures LookupsSucceed(h.ops, q.inst) <==>
      (noFinalTracking ==> forall k :: 0 <= k < |q.inst| && q.inst[k].mustDeleteOnFailed ==>
        HasResourceAfter(Described(q), ReadinessOp(q.inst[k]).ID()))
  {
    if !noFinalTracking {
      FailureLookupsSucceed(q, h);
    } else {
      forall k | 0 <= k < |q.inst| && q.inst[k].mustDeleteOnFailed
        ensures ReadinessOp(q.inst[k]).ID() in h.ops <==> HasResourceAfter(Described(q), ReadinessOp(q.inst[k]).ID())
        ensures q.inst[k].mustDeleteOnSuccess ==> CleanupOp(q.inst[k]).ID() in h.ops
      {
        LookupIffResourceAfter(q, h, k);
        if q.inst[k].mustDeleteOnSuccess { ReadyBeforeCleanup(q, h, true, k); }
      }
    }
  }

  lemma TrackingKeptIff(g: Graph, h: Graph, id: OpID)
    requires Optimized(g, h, true) && id in g.ops && g.ops[id].category == CategoryTrack
    ensures id in h.ops <==> HasResourceAfter(g, id)
  {
  }

  lemma CleanupAfterDeploy(i: InstallableInfo)
    requires Sound(i) && i.mustDeleteOnSuccess
    ensures CleanupRef(i).Some? && RefBefore(DeployRef(i), CleanupRef(i).value)
  {
  }

  /** A resource is cleaned up after success only once it was ready. */
  lemma ReadyBeforeCleanup(q: Request, h: Graph, noFinalTracking: bool, k: nat)
    requires Built(q, h, noFinalTracking) && k < |q.inst| && Sound(q.inst[k])
    requires q.inst[k].mustTrackReadiness && q.inst[k].mustDeleteOnSuccess
    ensures ReadinessOp(q.inst[k]).ID() in h.ops && CleanupOp(q.inst[k]).ID() in h.ops
    ensures Precedes(h.edges, ReadinessOp(q.inst[k]).ID(), CleanupOp(q.inst[k]).ID())
  {
    var i := q.inst[k];
    var x, y, a, b := ReadinessOp(i), CleanupOp(i), DeployRef(i), CleanupRef(i).value;
    InstallOpStands(q, k, x, a);
    InstallOpStands(q, k, y, b);
    CleanupAfterDeploy(i);
    StagesInOrder(q, h, noFinalTracking, x.ID(), a, y.ID(), b);
    AwaitedOpKept(q, h, noFinalTracking, x.ID(), y.ID());
  }

  /** The clean-up after success of a resource whose readiness failed has never even begun. */
  lemma CleanupNeverBegan(q: Request, h: Graph, noFinalTracking: bool, parallelism: nat, s: State, x: Executed, k: nat)
    requires Built(q, h, noFinalTracking) && ExecutionOf(h, parallelism, s, x) && k < |q.inst| && Sound(q.inst[k])
    requires q.inst[k].mustTrackReadiness && q.inst[k].mustDeleteOnSuccess
    requires StatusOf(x, ReadinessOp(q.inst[k]).ID()) == StatusFailed
    ensures StatusOf(x, CleanupOp(q.inst[k]).ID()) == StatusUnknown
  {
    ReadyBeforeCleanup(q, h, noFinalTracking, k);
    SchedulerSafety(JobOf(h, parallelism), s);
  }

  lemma CleanupIffFailed(q: Request, h: Graph, noFinalTracking: bool, parallelism: nat, s: State, x: Executed, k: nat)
    requires Built(q, h, noFinalTracking) && ExecutionOf(h, parallelism, s, x) && k < |q.inst| && Sound(q.inst[k])
    ensures MustCleanUp(x, q.inst[k]) <==>
      q.inst[k].mustDeleteOnFailed && StatusOf(x, ReadinessOp(q.inst[k]).ID()) == StatusFailed
  {
    var i := q.inst[k];
    if i.mustDeleteOnFailed && i.mustDeleteOnSuccess && StatusOf(x, ReadinessOp(i).ID()) == StatusFailed {
      CleanupNeverBegan(q, h, noFinalTracking, parallelism, s, x, k);
    }
  }

  /** A resource operation of the failure graph cleans up an info that asks for it. */
  lemma FailureOpOrigin(x: Executed, inst: seq<InstallableInfo>, rel: seq<ReleaseInfo>, id: OpID) returns (k: nat)
    requires id in FailureGraph(x, inst, rel).ops && id.config.ResourceKey?
    ensures k < |inst| && MustCleanUp(x, inst[k]) && id in {CleanupOp(inst[k]).ID(), CleanupTrackOp(inst[k]).ID()}
  {
    NoDeletionsYet(x, rel);
    var cs: seq<Chain> := CleanupChains(x, inst);
    ChainOrigin(FailedReleases(x, rel), cs, |cs|, id);
    k :| 0 <= k < |cs| && PlacedBy(FailureGraph(x, inst, rel), cs[k], id);
    assert cs[k] == CleanupChain(x, inst[k]);
  }

  lemma CleanupAdded(x: Executed, inst: seq<InstallableInfo>, rel: seq<ReleaseInfo>, k: nat)
    requires k < |inst| && MustCleanUp(x, inst[k]) && UniqueIterations(inst) && DistinctRevisions(rel)
    ensures CleanupOp(inst[k]).ID() in FailureGraph(x, inst, rel).ops
    ensures FailureGraph(x, inst, rel).ops[CleanupOp(inst[k]).ID()] == CleanupOp(inst[k])
  {
    var g := FailedReleases(x, rel);
    var cs: seq<Chain> := CleanupChains(x, inst);
    FailedReleasesFit(x, rel);
    NoDeletionsYet(x, rel);
    CleanupChainsFit(g, x, inst, cs, |cs|);
    ChainStepDone(g, cs, k, 0);
  }

  lemma CleanupStands(x: Executed, inst: seq<InstallableInfo>, rel: seq<ReleaseInfo>, k: nat)
    requires k < |inst| && MustCleanUp(x, inst[k]) && UniqueIterations(inst) && DistinctRevisions(rel)
    ensures Stands(FailureGraph(x, inst, rel), CleanupOp(inst[k]), MainStage(Uninstall))
  {
    var g := FailedReleases(x, rel);
    var cs: seq<Chain> := CleanupChains(x, inst);
    FailedReleasesFit(x, rel);
    NoDeletionsYet(x, rel);
    CleanupChainsFit(g, x, inst, cs, |cs|);
    assert cs[k][0] == ChainStep(CleanupOp(inst[k]), Some(MainStage(Uninstall)), false);
    StepStands(g, cs, FailureGraph(x, inst, rel), k, CleanupOp(inst[k]), MainStage(Uninstall));
  }

  /** After the clean-up its absence is tracked. */
  lemma CleanupTracked(x: Executed, inst: seq<InstallableInfo>, rel: seq<ReleaseInfo>, k: nat)
    requires k < |inst| && MustCleanUp(x, inst[k]) && UniqueIterations(inst) && DistinctRevisions(rel)
    ensures CleanupTrackOp(inst[k]).ID() in FailureGraph(x, inst, rel).ops
    ensures FailureGraph(x, inst, rel).ops[CleanupTrackOp(inst[k]).ID()] == CleanupTrackOp(inst[k])
    ensures Precedes(FailureGraph(x, inst, rel).edges, CleanupOp(inst[k]).ID(), CleanupTrackOp(inst[k]).ID())
  {
    var g := FailedReleases(x, rel);
    var cs: seq<Chain> := CleanupChains(x, inst);
    FailedReleasesFit(x, rel);
    NoDeletionsYet(x, rel);
    CleanupChainsFit(g, x, inst, cs, |cs|);
    ChainStepDone(g, cs, k, 1);
    EdgePrecedes(FailureGraph(x, inst, rel).edges, CleanupOp(inst[k]).ID(), CleanupTrackOp(inst[k]).ID());
  }

  lemma FailedReleasesFit(x: Executed, rel: seq<ReleaseInfo>)
    requires DistinctRevisions(rel)
    ensures ValidGraph(FailedReleases(x, rel)) && AllOpen(FailedReleases(x, rel))
  {
    MainStagesFit([MainChain()], Staged());
    FailedReleasesLone(x, rel);
    LoneChainsFit(Staged(), FailedReleaseChains(x, rel), |rel|);
  }

  lemma FailedReleaseCategories(x: Executed, rel: seq<ReleaseInfo>, id: OpID)
    requires id in FailedReleases(x, rel).ops
    ensures FailedReleases(x, rel).ops[id].category != CategoryResource
  {
    StagesPaired();
    var cs: seq<Chain> := FailedReleaseChains(x, rel);
    AllGrows(Staged(), cs);
    ChainOrigin(Staged(), cs, |cs|, id);
  }

  lemma FailureResource(x: Executed, inst: seq<InstallableInfo>, rel: seq<ReleaseInfo>, id: OpID)
    requires id in FailureGraph(x, inst, rel).ops && FailureGraph(x, inst, rel).ops[id].category == CategoryResource
    ensures exists k :: 0 <= k < |inst| && id == CleanupOp(inst[k]).ID()
  {
    var g := FailedReleases(x, rel);
    var cs: seq<Chain> := CleanupChains(x, inst);
    AllGrows(g, cs);
    ChainOrigin(g, cs, |cs|, id);
    if id in g.ops {
      FailedReleaseCategories(x, rel, id);
    } else {
      var k :| 0 <= k < |cs| && PlacedBy(FailureGraph(x, inst, rel), cs[k], id);
      assert cs[k] == CleanupChain(x, inst[k]);
      assert id == CleanupOp(inst[k]).ID();
    }
  }

  /** The clean-up of a resource is in the failure graph iff its readiness failed. */
  lemma CleanedUpIff(q: Request, h: Graph, noFinalTracking: bool, parallelism: nat, s: State, x: Executed, k: nat)
    requires Built(q, h, noFinalTracking) && ExecutionOf(h, parallelism, s, x) && k < |q.inst|
    requires UniqueIterations(q.inst) && Sound(q.inst[k])
    ensures CleanupOp(q.inst[k]).ID() in FailureGraph(x, q.inst, q.rel).ops <==>
      q.inst[k].mustDeleteOnFailed && StatusOf(x, ReadinessOp(q.inst[k]).ID()) == StatusFailed
    ensures CleanupOp(q.inst[k]).ID() in FailureGraph(x, q.inst, q.rel).ops ==>
      FailureGraph(x, q.inst, q.rel).ops[CleanupOp(q.inst[k]).ID()].category == CategoryResource
  {
    var id := CleanupOp(q.inst[k]).ID();
    CleanupIffFailed(q, h, noFinalTracking, parallelism, s, x, k);
    if MustCleanUp(x, q.inst[k]) {
      CleanupAdded(x, q.inst, q.rel, k);
    } else if id in FailureGraph(x, q.inst, q.rel).ops {
      var _ := FailureOpOrigin(x, q.inst, q.rel, id);
    }
  }

  lemma ResourceKept(g: Graph, f: Graph, noFinalTracking: bool, id: OpID)
    requires Optimized(g, f, noFinalTracking) && (id in g.ops ==> g.ops[id].category == CategoryResource)
    ensures id in f.ops <==> id in g.ops
  {
  }

  /** The failure plan deletes exactly the resources that are to be deleted on failure and whose
      readiness failed in the executed plan, whatever happened in that execution. */
  lemma FailurePlanDeletesExactly(q: Request, h: Graph, noFinalTracking: bool, parallelism: nat, s: State, x: Executed,
                                  f: Graph, failureNoFinalTracking: bool)
    requires Built(q, h, noFinalTracking) && ExecutionOf(h, parallelism, s, x)
    requires UniqueIterations(q.inst) && forall k :: 0 <= k < |q.inst| ==> Sound(q.inst[k])
    requires Optimized(FailureGraph(x, q.inst, q.rel), f, failureNoFinalTracking)
    ensures forall k :: 0 <= k < |q.inst| ==>
      (CleanupOp(q.inst[k]).ID() in f.ops <==>
        q.inst[k].mustDeleteOnFailed && StatusOf(x, ReadinessOp(q.inst[k]).ID()) == StatusFailed)
    ensures forall k :: 0 <= k < |q.inst| && CleanupOp(q.inst[k]).ID() in f.ops ==>
      SkipDelete !in q.inst[k].res.policies && !LiveForbidsDelete(q.inst[k].live)
    ensures forall id :: id in f.ops && f.ops[id].category == CategoryResource ==>
      exists k :: 0 <= k < |q.inst| && id == CleanupOp(q.inst[k]).ID()
  {
    forall k | 0 <= k < |q.inst|
      ensures CleanupOp(q.inst[k]).ID() in f.ops <==>
        q.inst[k].mustDeleteOnFailed && StatusOf(x, ReadinessOp(q.inst[k]).ID()) == StatusFailed
    {
      CleanedUpIff(q, h, noFinalTracking, parallelism, s, x, k);
      ResourceKept(FailureGraph(x, q.inst, q.rel), f, failureNoFinalTracking, CleanupOp(q.inst[k]).ID());
    }
    forall id | id in f.ops && f.ops[id].category == CategoryResource
      ensures exists k :: 0 <= k < |q.inst| && id == CleanupOp(q.inst[k]).ID()
    {
      FailureResource(x, q.inst, q.rel, id);
    }
  }
}
