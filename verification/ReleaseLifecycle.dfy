/** The life of a release over whole sequences of actions: every install, upgrade, rollback and
    uninstall, succeeding or failing, in every order of execution (pkg/action/release_install.go,
    pkg/action/release_rollback.go, pkg/action/release_uninstall.go). */
module ReleaseLifecycle {
  import opened Operations
  import opened Precedence
  import opened PlanGraph
  import opened Scheduler
  import opened StartOrders
  import opened Chains
  import opened ResourceInfo
  import opened ReleaseInfo
  import opened PlanRequest
  import opened PlanBuild
  import opened Stages
  import opened Builder
  import opened StageOrder
  import opened PlanProperties
  import opened FailurePlan
  import opened History
  import opened ReleaseRuns

  // ----- the release operations of a built plan -----

  ghost function StageOfOp(i: ReleaseInfo, op: Operation): StageRef {
    if op == FinalReleaseOp(i) then MainStage(Final) else MainStage(Init)
  }

  lemma ReleaseChainOf(rel: seq<ReleaseInfo>, i: nat, op: Operation) returns (k: nat)
    requires i < |rel| && IsOpOf(rel[i], op)
    ensures k < |ReleaseChains(rel)| && HasStep(ReleaseChains(rel)[k], op, Some(StageOfOp(rel[i], op)))
  {
    k := if op == FinalReleaseOp(rel[i]) then 2 * i + 1 else 2 * i;
    var c := ReleaseChains(rel)[k];
    assert c[0] == ChainStep(op, Some(StageOfOp(rel[i], op)), false);
  }

  lemma ReleaseOpStands(q: Request, i: nat, op: Operation)
    requires CoversWeights(q.order, q.inst) && DistinctRevisions(q.rel) && i < |q.rel| && IsOpOf(q.rel[i], op)
    ensures Stands(Described(q), op, StageOfOp(q.rel[i], op))
  {
    PartsGrow(q);
    FrameFits(q);
    var cs: seq<Chain> := ReleaseChains(q.rel);
    var k := ReleaseChainOf(q.rel, i, op);
    StepStands(Weighted(q), cs, Described(q), k, op, StageOfOp(q.rel[i], op));
  }

  lemma ReleaseOpKept(g: Graph, h: Graph, noFinalTracking: bool, id: OpID)
    requires Optimized(g, h, noFinalTracking) && id in g.ops && g.ops[id].category == CategoryRelease
    ensures id in h.ops && h.ops[id] == g.ops[id]
  {
  }

  lemma ReleaseOpInPlan(q: Request, h: Graph, noFinalTracking: bool, i: nat, op: Operation)
    requires Built(q, h, noFinalTracking) && i < |q.rel| && IsOpOf(q.rel[i], op)
    ensures op.ID() in h.ops && h.ops[op.ID()] == op
  {
    ReleaseOpStands(q, i, op);
    OpOfRevision(q.rel[i], op);
    var g, id := Described(q), op.ID();
    assert g.ops[id] == op;
    ReleaseOpKept(g, h, noFinalTracking, id);
  }

  /** The plan has every operation of every revision. */
  lemma BuiltHasReleaseOps(q: Request, h: Graph, noFinalTracking: bool)
    requires Built(q, h, noFinalTracking)
    ensures HasReleaseOps(h.ops, q.rel)
  {
    forall i, op | 0 <= i < |q.rel| && IsOpOf(q.rel[i], op) ensures op.ID() in h.ops && h.ops[op.ID()] == op {
      ReleaseOpInPlan(q, h, noFinalTracking, i, op);
    }
  }

  lemma InitPrecedesFinal(q: Request, h: Graph, noFinalTracking: bool, i: nat)
    requires Built(q, h, noFinalTracking) && HasReleaseOps(h.ops, q.rel) && i < |q.rel| && InitReleaseOp(q.rel[i]).Some?
    ensures Precedes(h.edges, InitReleaseOp(q.rel[i]).value.ID(), FinalReleaseOp(q.rel[i]).ID())
  {
    var x, y := InitReleaseOp(q.rel[i]).value, FinalReleaseOp(q.rel[i]);
    assert IsOpOf(q.rel[i], x) && IsOpOf(q.rel[i], y);
    OpOfRevision(q.rel[i], x);
    assert x.ID() in h.ops && y.ID() in h.ops && x != y;
    ReleaseOpStands(q, i, x);
    ReleaseOpStands(q, i, y);
    StagesInOrder(q, h, noFinalTracking, x.ID(), MainStage(Init), y.ID(), MainStage(Final));
  }

  lemma ReleaseChainOps(rel: seq<ReleaseInfo>, k: nat, n: nat)
    requires k < 2 * |rel| && n < |ReleaseChains(rel)[k]|
    ensures IsOpOf(rel[k / 2], ReleaseChains(rel)[k][n].op)
  {
  }

  /** Every release operation of the plan is one of the infos'. */
  lemma ReleaseOpOrigin(q: Request, id: OpID)
    requires id in Described(q).ops && id.config.RevisionKey?
    ensures exists i :: 0 <= i < |q.rel| && IsOpOf(q.rel[i], Described(q).ops[id])
  {
    PartsGrow(q);
    StagesAreBrackets(q);
    InstallOnlyResources(q.inst);
    DeleteOnlyResources(q.del);
    OnlyResourcesAdded(Deleted(q), InstallChains(q.inst), id);
    OnlyResourcesAdded(Released(q), DeleteChains(q.del), id);
    var cs: seq<Chain> := ReleaseChains(q.rel);
    ChainOrigin(Weighted(q), cs, |cs|, id);
    var k :| 0 <= k < |cs| && PlacedBy(Released(q), cs[k], id);
    PlacedOpOf(Released(q), q.rel, k, id);
  }

  lemma PlacedOpOf(g: Graph, rel: seq<ReleaseInfo>, k: nat, id: OpID)
    requires k < 2 * |rel| && PlacedBy(g, ReleaseChains(rel)[k], id)
    ensures IsOpOf(rel[k / 2], g.ops[id])
  {
    var c := ReleaseChains(rel)[k];
    var n :| 0 <= n < |c| && PlacedAs(g, c[n], id);
    ReleaseChainOps(rel, k, n);
  }

  ghost predicate OnlyResources(cs: seq<Chain>) {
    forall k, i :: 0 <= k < |cs| && 0 <= i < |cs[k]| ==> cs[k][i].op.ID().config.ResourceKey?
  }

  lemma InstallOnlyResources(inst: seq<InstallableInfo>)
    ensures OnlyResources(InstallChains(inst))
  {
  }

  lemma DeleteOnlyResources(del: seq<DeletableInfo>)
    ensures OnlyResources(DeleteChains(del))
  {
  }

  lemma OnlyResourcesAdded(g: Graph, cs: seq<Chain>, id: OpID)
    requires OnlyResources(cs) && !id.config.ResourceKey? && id in AfterAll(g, cs).ops
    ensures id in g.ops
  {
    ChainOrigin(g, cs, |cs|, id);
  }

  lemma BuiltReleaseOpsOf(q: Request, h: Graph, noFinalTracking: bool)
    requires Built(q, h, noFinalTracking)
    ensures ReleaseOpsOf(h.ops, q.rel)
  {
    forall id | id in h.ops
      ensures h.ops[id].ID() == id
        && (IsReleaseOp(h.ops[id]) ==> exists i :: 0 <= i < |q.rel| && IsOpOf(q.rel[i], h.ops[id]))
    {
      if IsReleaseOp(h.ops[id]) { ReleaseOpOrigin(q, id); }
    }
  }

  // ----- executing it -----

  lemma {:induction false} AncestorsFirst(E: set<Edge>, l: seq<OpID>, n: nat, a: OpID)
    requires PredsFirst(E, l) && n < |l| && Precedes(E, a, l[n])
    ensures a in l[..n]
    decreases n
  {
    var c := LastStep(E, a, l[n]);
    assert c in l[..n];
    if a != c {
      var m :| 0 <= m < n && l[m] == c;
      AncestorsFirst(E, l, m, a);
      var k :| 0 <= k < m && l[k] == a;
      assert l[..n][k] == a;
    }
  }

  ghost function Applied(s: State): set<OpID> {
    Done(s.applied, |s.applied|)
  }

  /** No operation has taken effect without being marked as completed yet. */
  ghost predicate AllMarked(s: State) {
    forall x :: x in s.workers ==> s.workers[x] != Effective
  }

  /** The history that an execution leaves. */
  ghost function HistoryLeft(h0: seq<Release>, h: Graph, s: State): Option<seq<Release>> {
    HistoryAfter(h0, h.ops, s.applied, |s.applied|)
  }

  lemma AppliedMeans(j: Job, s: State)
    requires ValidJob(j) && Reachable(j, s)
    ensures s.status.Keys == j.ids && NoDuplicates(s.applied) && PredsFirst(j.edges, s.applied)
    ensures forall x :: x in s.applied ==> x in j.ids
    ensures forall x :: x in Applied(s) <==> InEffect(s, x)
    ensures AllMarked(s) ==> forall x :: x in Applied(s) <==> x in s.status && s.status[x] == StatusCompleted
    ensures s.loop.Returned? ==> AllMarked(s)
  {
    ReachableInv(j, s);
    assert s.applied[..|s.applied|] == s.applied;
  }

  lemma InitTakesEffectFirst(q: Request, h: Graph, noFinalTracking: bool, l: seq<OpID>)
    requires Built(q, h, noFinalTracking) && HasReleaseOps(h.ops, q.rel) && PredsFirst(h.edges, l)
    ensures InitFirst(q.rel, l)
  {
    forall i, n | 0 <= i < |q.rel| && 0 <= n < |l| && InitReleaseOp(q.rel[i]).Some?
      && l[n] == FinalReleaseOp(q.rel[i]).ID()
      ensures InitReleaseOp(q.rel[i]).value.ID() in l[..n]
    {
      InitPrecedesFinal(q, h, noFinalTracking, i);
      AncestorsFirst(h.edges, l, n, InitReleaseOp(q.rel[i]).value.ID());
    }
  }

  /** At every moment of every execution of a built plan, each release operation that has taken
      effect was possible, and each revision has the status that these operations give it. They are
      the completed ones and those whose worker has yet to mark them as completed. */
  lemma ExecutionHistory(q: Request, h: Graph, noFinalTracking: bool, parallelism: nat, s: State, h0: seq<Release>)
    requires Built(q, h, noFinalTracking) && Fits(q.rel, h0)
    requires parallelism > 0 && Reachable(JobOf(h, parallelism), s)
    ensures s.status.Keys == h.ops.Keys && forall x :: x in Applied(s) <==> InEffect(s, x)
    ensures AllMarked(s) ==> forall x :: x in Applied(s) <==> x in s.status && s.status[x] == StatusCompleted
    ensures s.loop.Returned? ==> AllMarked(s)
    ensures HistoryLeft(h0, h, s).Some? && StateFor(q.rel, h0, Applied(s), HistoryLeft(h0, h, s).value)
  {
    var l := s.applied;
    AppliedMeans(JobOf(h, parallelism), s);
    BuiltHasReleaseOps(q, h, noFinalTracking);
    BuiltReleaseOpsOf(q, h, noFinalTracking);
    InitTakesEffectFirst(q, h, noFinalTracking, l);
    RunState(q.rel, h0, h.ops, l, |l|);
  }

  /** Two executions of a plan, at any two moments, in which the same operations have taken effect
      have left the same history, whatever order their workers took. */
  lemma ExecutionsAgree(q: Request, h: Graph, noFinalTracking: bool, h0: seq<Release>,
                        parallelism: nat, s: State, otherParallelism: nat, other: State)
    requires Built(q, h, noFinalTracking) && Fits(q.rel, h0)
    requires parallelism > 0 && Reachable(JobOf(h, parallelism), s)
    requires otherParallelism > 0 && Reachable(JobOf(h, otherParallelism), other)
    requires Applied(s) == Applied(other) || (AllMarked(s) && AllMarked(other) && s.status == other.status)
    ensures HistoryLeft(h0, h, s).Some? && HistoryLeft(h0, h, s) == HistoryLeft(h0, h, other)
  {
    ExecutionHistory(q, h, noFinalTracking, parallelism, s, h0);
    ExecutionHistory(q, h, noFinalTracking, otherParallelism, other, h0);
    assert Applied(s) == Applied(other);
    StateDetermined(q.rel, h0, Applied(s), HistoryLeft(h0, h, s).value, HistoryLeft(h0, h, other).value);
  }

  // ----- what an action does, from what took effect -----

  lemma DeployFits(d: DeployType, h0: seq<Release>, newRel: Release)
    requires d != DeployUninstall && Increasing(h0) && AllBelow(h0, newRel.version)
    ensures Fits(InfosFor(d, h0, newRel), h0)
  {
    var rel := InfosFor(d, h0, newRel);
    InfosDistinct(d, h0, newRel);
    NewInfoCreates(d, h0, newRel);
    forall i | 0 < i < |rel| ensures rel[i].must == ReleaseSupersede && Lookup(h0, rel[i].rel.version).Some? {
      DeployInfo(d, h0, newRel, i);
    }
    FitsFrom(rel, h0);
  }

  /** The first info of a deployment creates the new revision. */
  lemma NewInfoCreates(d: DeployType, h0: seq<Release>, newRel: Release)
    requires d != DeployUninstall
    ensures InfosFor(d, h0, newRel) != [] && InfosFor(d, h0, newRel)[0].rel == newRel
    ensures Creates(InfosFor(d, h0, newRel)[0]) && InfosFor(d, h0, newRel)[0].mustFailOnFailedDeploy
  {
  }

  /** Infos fit if the first one creates the newest revision and the others supersede old ones. */
  lemma FitsFrom(rel: seq<ReleaseInfo>, h0: seq<Release>)
    requires rel != [] && Increasing(h0) && DistinctRevisions(rel)
    requires Creates(rel[0]) && AllBelow(h0, rel[0].rel.version)
    requires forall i :: 0 < i < |rel| ==> rel[i].must == ReleaseSupersede && Lookup(h0, rel[i].rel.version).Some?
    ensures Fits(rel, h0)
  {
    forall i | 0 < i < |rel| ensures !Creates(rel[i]) {
      assert InitReleaseOp(rel[i]).None?;
    }
  }

  lemma UninstallFits(h0: seq<Release>)
    requires Increasing(h0)
    ensures Fits(Removals(h0), h0)
  {
    forall i | 0 <= i < |h0| ensures Lookup(h0, h0[i].version).Some? { IndexUnique(h0, i); }
    var rel := Removals(h0);
    forall i | 0 <= i < |rel| ensures rel[i].rel == h0[i] && !Creates(rel[i]) {
    }
  }

  ghost predicate FinalsDone(rel: seq<ReleaseInfo>, done: set<OpID>) {
    forall i :: 0 <= i < |rel| ==> FinalReleaseOp(rel[i]).ID() in done
  }

  /** The status of a revision after a successful deployment of revision `n`. */
  ghost function AfterDeploy(h0: seq<Release>, n: int, v: int): Option<ReleaseStatus> {
    if v == n then Some(Deployed)
    else if Lookup(h0, v) == Some(Deployed) then Some(Superseded)
    else Lookup(h0, v)
  }

  lemma SupersedeIndex(d: DeployType, h0: seq<Release>, newRel: Release, k: nat) returns (i: nat)
    requires d != DeployUninstall && k < |h0| && h0[k].status == Deployed
    ensures i < |InfosFor(d, h0, newRel)| && InfosFor(d, h0, newRel)[i] == ReleaseInfo(h0[k], ReleaseSupersede, false)
  {
    SupersedesMembers(h0, |h0|);
    var x := ReleaseInfo(h0[k], ReleaseSupersede, false);
    assert x in Supersedes(h0, |h0|);
    var j :| 0 <= j < |Supersedes(h0, |h0|)| && Supersedes(h0, |h0|)[j] == x;
    i := j + 1;
  }

  lemma DeployInfo(d: DeployType, h0: seq<Release>, newRel: Release, i: nat)
    requires d != DeployUninstall && Increasing(h0) && 0 < i < |InfosFor(d, h0, newRel)|
    ensures InfosFor(d, h0, newRel)[i].must == ReleaseSupersede
    ensures Lookup(h0, InfosFor(d, h0, newRel)[i].rel.version) == Some(Deployed)
  {
    var x := InfosFor(d, h0, newRel)[i];
    SupersedesMembers(h0, |h0|);
    assert x in Supersedes(h0, |h0|);
    var k :| 0 <= k < |h0| && h0[k].status == Deployed && x == ReleaseInfo(h0[k], ReleaseSupersede, false);
    IndexUnique(h0, k);
  }

  lemma DeployedStatus(d: DeployType, h0: seq<Release>, newRel: Release, done: set<OpID>, g: seq<Release>, v: int)
    requires d != DeployUninstall && Increasing(h0) && AllBelow(h0, newRel.version)
    requires StateFor(InfosFor(d, h0, newRel), h0, done, g) && FinalsDone(InfosFor(d, h0, newRel), done)
    ensures Lookup(g, v) == AfterDeploy(h0, newRel.version, v)
  {
    var rel := InfosFor(d, h0, newRel);
    if v == newRel.version {
      assert rel[0].rel == newRel;
    } else if Lookup(h0, v) == Some(Deployed) {
      var i := SupersedeIndex(d, h0, newRel, IndexOf(h0, v));
      assert rel[i].rel.version == v;
    } else {
      forall i | 0 <= i < |rel| ensures rel[i].rel.version != v {
        if i > 0 { DeployInfo(d, h0, newRel, i); }
      }
    }
  }

  lemma RemovedStatus(h0: seq<Release>, done: set<OpID>, g: seq<Release>, v: int)
    requires Increasing(h0) && StateFor(Removals(h0), h0, done, g) && FinalsDone(Removals(h0), done)
    ensures Lookup(g, v).None?
  {
    var k := IndexOf(h0, v);
    if k < |h0| {
      assert Removals(h0)[k].rel.version == v;
    }
  }

  lemma NothingLeft(g: seq<Release>)
    requires forall v :: Lookup(g, v).None?
    ensures g == []
  {
    FirstFound(g);
  }

  // ----- the failure plan -----

  /** The first operation of a failure plan marks a stored revision as failed. */
  ghost predicate FailsRevision(x: Executed, i: ReleaseInfo) {
    i.mustFailOnFailedDeploy && ReleaseStored(x, i.rel.version)
  }

  ghost predicate FailsRevisionBy(x: Executed, i: ReleaseInfo, op: Operation) {
    FailsRevision(x, i) && op == UpdateReleaseOp(i.rel, FailedRelease)
  }

  /** All release operations mark revisions of the infos as failed. */
  ghost predicate OnlyFailing(ops: map<OpID, Operation>, rel: seq<ReleaseInfo>, x: Executed) {
    forall id :: id in ops && IsReleaseOp(ops[id]) ==>
      exists i :: 0 <= i < |rel| && FailsRevisionBy(x, rel[i], ops[id])
  }

  ghost predicate Marked(ops: map<OpID, Operation>, l: seq<OpID>, n: nat, v: int)
    requires n <= |l|
  {
    exists m :: 0 <= m < n && l[m] in ops && IsReleaseOp(ops[l[m]]) && RevisionOf(ops[l[m]]) == v
  }

  /** Marking revisions as failed changes nothing else. */
  lemma {:induction false} FailingRun(ops: map<OpID, Operation>, rel: seq<ReleaseInfo>, x: Executed, h: seq<Release>,
                                      l: seq<OpID>, n: nat, v: int)
    requires OnlyFailing(ops, rel, x) && Increasing(h) && n <= |l| && HistoryAfter(h, ops, l, n).Some?
    ensures Increasing(HistoryAfter(h, ops, l, n).value)
    ensures Lookup(HistoryAfter(h, ops, l, n).value, v) ==
      if Marked(ops, l, n, v) then Some(FailedRelease) else Lookup(h, v)
    decreases n
  {
    if n > 0 {
      FailingRun(ops, rel, x, h, l, n - 1, v);
      var g, id := HistoryAfter(h, ops, l, n - 1).value, l[n - 1];
      assert Marked(ops, l, n, v) <==>
        Marked(ops, l, n - 1, v) || (id in ops && IsReleaseOp(ops[id]) && RevisionOf(ops[id]) == v);
      if id in ops && IsReleaseOp(ops[id]) {
        EffectIncreasing(g, ops[id]);
        EffectLookup(g, ops[id], v);
      }
    }
  }

  lemma FailureOpsOrigin(x: Executed, q: Request, id: OpID)
    requires id in FailureGraph(x, q.inst, q.rel).ops && id.config.RevisionKey?
    ensures exists i :: 0 <= i < |q.rel| && FailsRevisionBy(x, q.rel[i], FailureGraph(x, q.inst, q.rel).ops[id])
  {
    var cs: seq<Chain> := CleanupChains(x, q.inst);
    assert OnlyResources(cs);
    AllGrows(FailedReleases(x, q.rel), cs);
    OnlyResourcesAdded(FailedReleases(x, q.rel), cs, id);
    var fs: seq<Chain> := FailedReleaseChains(x, q.rel);
    StagedBrackets([MainChain()]);
    ChainOrigin(Staged(), fs, |fs|, id);
    var i :| 0 <= i < |fs| && PlacedBy(FailedReleases(x, q.rel), fs[i], id);
    assert fs[i] == FailedReleaseChain(x, q.rel[i]);
  }

  lemma FailureOnlyFails(x: Executed, q: Request, f: Graph, noFinalTracking: bool)
    requires ValidGraph(f) && Optimized(FailureGraph(x, q.inst, q.rel), f, noFinalTracking)
    ensures OnlyFailing(f.ops, q.rel, x)
  {
    forall id | id in f.ops && IsReleaseOp(f.ops[id])
      ensures exists i :: 0 <= i < |q.rel| && FailsRevisionBy(x, q.rel[i], f.ops[id])
    {
      assert f.ops[id].ID() == id;
      FailureOpsOrigin(x, q, id);
    }
  }

  /** The failure plan marks every revision that it has to. */
  lemma FailureMarks(x: Executed, q: Request, f: Graph, noFinalTracking: bool, i: nat)
    requires Optimized(FailureGraph(x, q.inst, q.rel), f, noFinalTracking) && DistinctRevisions(q.rel)
    requires i < |q.rel| && FailsRevision(x, q.rel[i])
    ensures var op := UpdateReleaseOp(q.rel[i].rel, FailedRelease);
      op.ID() in f.ops && f.ops[op.ID()] == op && Stands(FailureGraph(x, q.inst, q.rel), op, MainStage(Init))
  {
    var op := UpdateReleaseOp(q.rel[i].rel, FailedRelease);
    var fs: seq<Chain> := FailedReleaseChains(x, q.rel);
    MainStagesFit([MainChain()], Staged());
    FailedReleasesLone(x, q.rel);
    LoneChainsFit(Staged(), fs, |fs|);
    AllGrows(FailedReleases(x, q.rel), CleanupChains(x, q.inst));
    assert fs[i][0] == ChainStep(op, Some(MainStage(Init)), false);
    StepStands(Staged(), fs, FailureGraph(x, q.inst, q.rel), i, op, MainStage(Init));
    ReleaseOpKept(FailureGraph(x, q.inst, q.rel), f, noFinalTracking, op.ID());
  }

  /** A failure plan marks revisions before it cleans anything up. */
  lemma MarkedBeforeCleanUp(x: Executed, q: Request, f: Graph, noFinalTracking: bool, i: nat, k: nat)
    requires Optimized(FailureGraph(x, q.inst, q.rel), f, noFinalTracking) && DistinctRevisions(q.rel)
    requires UniqueIterations(q.inst) && i < |q.rel| && FailsRevision(x, q.rel[i])
    requires k < |q.inst| && MustCleanUp(x, q.inst[k])
    ensures Precedes(f.edges, RevisionOpID(TypeUpdateRelease, q.rel[i].rel.version), CleanupOp(q.inst[k]).ID())
  {
    var g, m := FailureGraph(x, q.inst, q.rel), UpdateReleaseOp(q.rel[i].rel, FailedRelease);
    FailureMarks(x, q, f, noFinalTracking, i);
    CleanupAdded(x, q.inst, q.rel, k);
    CleanupStands(x, q.inst, q.rel, k);
    AllGrows(Staged(), FailedReleaseChains(x, q.rel));
    AllGrows(FailedReleases(x, q.rel), CleanupChains(x, q.inst));
    GrowsTrans(Staged(), FailedReleases(x, q.rel), g);
    MainStagesInOrder(g, Init, Uninstall);
    EdgePrecedes(g.edges, m.ID(), BracketID(MainStage(Init), true));
    EdgePrecedes(g.edges, BracketID(MainStage(Uninstall), false), CleanupOp(q.inst[k]).ID());
    PrecedesTrans(g.edges, m.ID(), BracketID(MainStage(Init), true), BracketID(MainStage(Uninstall), false));
    PrecedesTrans(g.edges, m.ID(), BracketID(MainStage(Uninstall), false), CleanupOp(q.inst[k]).ID());
  }

  // ----- whole actions -----

  /** One execution of a plan, and, if it failed, of its failure plan. */
  datatype Execution = Execution(
    q: Request, h: Graph, noFinalTracking: bool, parallelism: nat, s: State,
    f: Graph, failureNoFinalTracking: bool, failureParallelism: nat, t: State)

  ghost function NextRevision(h: seq<Release>): int {
    if h == [] then 1 else h[|h| - 1].version + 1
  }

  /** A plan for the given infos was built, executed and has returned. */
  ghost predicate Ran(e: Execution, rel: seq<ReleaseInfo>) {
    && e.q.rel == rel && Built(e.q, e.h, e.noFinalTracking)
    && e.parallelism > 0 && Reachable(JobOf(e.h, e.parallelism), e.s) && e.s.loop.Returned?
  }

  ghost predicate Succeeds(e: Execution, rel: seq<ReleaseInfo>, h0: seq<Release>, h1: seq<Release>) {
    Ran(e, rel) && e.s.loop.succeeded && HistoryLeft(h0, e.h, e.s) == Some(h1)
  }

  /** The plan failed; its failure plan was then built, executed and has returned no error. */
  ghost predicate RanFailurePlan(e: Execution, rel: seq<ReleaseInfo>) {
    && Ran(e, rel) && !e.s.loop.succeeded && ValidGraph(e.f)
    && Optimized(FailureGraph(Executed(e.h.ops, e.s.status), e.q.inst, e.q.rel), e.f, e.failureNoFinalTracking)
    && e.failureParallelism > 0 && Reachable(JobOf(e.f, e.failureParallelism), e.t) && e.t.loop == Returned(true)
  }

  ghost predicate Fails(e: Execution, rel: seq<ReleaseInfo>, h0: seq<Release>, h1: seq<Release>) {
    && RanFailurePlan(e, rel) && HistoryLeft(h0, e.h, e.s).Some?
    && HistoryLeft(HistoryLeft(h0, e.h, e.s).value, e.f, e.t) == Some(h1)
  }

  /** A successful install, upgrade or rollback: the new revision is the only one deployed, and
      what was deployed before is superseded. */
  lemma SuccessfulDeploy(e: Execution, d: DeployType, newRel: Release, h0: seq<Release>, h1: seq<Release>)
    requires d != DeployUninstall && Increasing(h0) && AllBelow(h0, newRel.version)
    requires Succeeds(e, InfosFor(d, h0, newRel), h0, h1)
    ensures Increasing(h1) && forall v :: Lookup(h1, v) == AfterDeploy(h0, newRel.version, v)
  {
    var rel := InfosFor(d, h0, newRel);
    DeployFits(d, h0, newRel);
    AllFinalsDone(e, rel, h0);
    forall v ensures Lookup(h1, v) == AfterDeploy(h0, newRel.version, v) {
      DeployedStatus(d, h0, newRel, Applied(e.s), h1, v);
    }
  }

  /** After a success every operation has completed. */
  lemma AllFinalsDone(e: Execution, rel: seq<ReleaseInfo>, h0: seq<Release>)
    requires Ran(e, rel) && e.s.loop.succeeded && Fits(rel, h0)
    ensures HistoryLeft(h0, e.h, e.s).Some? && StateFor(rel, h0, Applied(e.s), HistoryLeft(h0, e.h, e.s).value)
    ensures FinalsDone(rel, Applied(e.s))
  {
    ExecutionHistory(e.q, e.h, e.noFinalTracking, e.parallelism, e.s, h0);
    SuccessMeansAllCompleted(JobOf(e.h, e.parallelism), e.s);
    BuiltHasReleaseOps(e.q, e.h, e.noFinalTracking);
    forall i | 0 <= i < |rel| ensures FinalReleaseOp(rel[i]).ID() in Applied(e.s) {
      assert IsOpOf(rel[i], FinalReleaseOp(rel[i]));
    }
  }

  /** A successful uninstall leaves nothing. */
  lemma SuccessfulUninstall(e: Execution, newRel: Release, h0: seq<Release>, h1: seq<Release>)
    requires Increasing(h0) && Succeeds(e, InfosFor(DeployUninstall, h0, newRel), h0, h1)
    ensures h1 == []
  {
    UninstallFits(h0);
    AllFinalsDone(e, Removals(h0), h0);
    forall v ensures Lookup(h1, v).None? {
      RemovedStatus(h0, Applied(e.s), h1, v);
    }
    NothingLeft(h1);
  }

  // ----- revisions frame resources -----

  ghost function RevisionOpID(typ: OpType, revision: int): OpID {
    OpID(typ, OPERATION_VERSION, 0, RevisionKey(revision))
  }

  ghost predicate DeletionsInside(del: seq<DeletableInfo>) {
    forall i :: 0 <= i < |del| ==> del[i].stage !in {Init, Final}
  }

  /** Every operation on a resource comes after the initial operation of every revision, and before
      the final one. */
  lemma RevisionsFrameResources(q: Request, h: Graph, noFinalTracking: bool, i: nat, x: OpID)
    requires Built(q, h, noFinalTracking) && DeletionsInside(q.del) && i < |q.rel|
    requires (forall k :: 0 <= k < |q.inst| ==> Sound(q.inst[k])) && x in h.ops && x.config.ResourceKey?
    ensures InitReleaseOp(q.rel[i]).Some? ==> Precedes(h.edges, InitReleaseOp(q.rel[i]).value.ID(), x)
    ensures Precedes(h.edges, x, FinalReleaseOp(q.rel[i]).ID())
  {
    var ref := ResourceOpStage(q, x);
    RevisionOpInOrder(q, h, noFinalTracking, i, FinalReleaseOp(q.rel[i]), x, ref);
    if InitReleaseOp(q.rel[i]).Some? {
      RevisionOpInOrder(q, h, noFinalTracking, i, InitReleaseOp(q.rel[i]).value, x, ref);
    }
  }

  lemma RevisionOpInOrder(q: Request, h: Graph, noFinalTracking: bool, i: nat, op: Operation, x: OpID, ref: StageRef)
    requires Built(q, h, noFinalTracking) && i < |q.rel| && IsOpOf(q.rel[i], op)
    requires x in h.ops && Placed(Described(q), x, ref) && ref.stage !in {Init, Final}
    ensures if op == FinalReleaseOp(q.rel[i]) then Precedes(h.edges, x, op.ID()) else Precedes(h.edges, op.ID(), x)
  {
    ReleaseOpStands(q, i, op);
    ReleaseOpInPlan(q, h, noFinalTracking, i, op);
    var at := StageOfOp(q.rel[i], op);
    if op == FinalReleaseOp(q.rel[i]) {
      StagesInOrder(q, h, noFinalTracking, x, ref, op.ID(), at);
    } else {
      StagesInOrder(q, h, noFinalTracking, op.ID(), at, x, ref);
    }
  }

  /** What precedes an operation that has taken effect has completed, and what precedes one that has
      begun has taken effect. */
  lemma EffectsInOrder(j: Job, s: State, a: OpID, x: OpID)
    requires ValidJob(j) && Reachable(j, s) && x in j.ids && Precedes(j.edges, a, x)
    ensures x in s.started ==> a in s.applied
    ensures x in s.applied ==> a in s.status && s.status[a] == StatusCompleted
  {
    SchedulerSafety(j, s);
    ReachableInv(j, s);
    if x in s.applied { assert InEffect(s, x); }
    if x in s.started { assert InEffect(s, a); }
  }

  /** In every execution of an install, upgrade or rollback: no operation on a resource begins before the
      new revision is recorded as pending, and the revision is deployed, and others superseded, only
      once all of them have completed. */
  lemma RecordedThroughout(q: Request, h: Graph, noFinalTracking: bool, parallelism: nat, s: State, d: DeployType,
                           newRel: Release, h0: seq<Release>, x: OpID, v: int)
    requires d != DeployUninstall && Increasing(h0) && q.rel == InfosFor(d, h0, newRel)
    requires Built(q, h, noFinalTracking) && DeletionsInside(q.del)
    requires forall k :: 0 <= k < |q.inst| ==> Sound(q.inst[k])
    requires parallelism > 0 && Reachable(JobOf(h, parallelism), s) && x in h.ops && x.config.ResourceKey?
    ensures x in s.started ==> RevisionOpID(TypeCreateRelease, newRel.version) in s.applied
    ensures RevisionOpID(TypeUpdateRelease, v) in s.applied ==> x in s.status && s.status[x] == StatusCompleted
  {
    var j := JobOf(h, parallelism);
    NewInfoCreates(d, h0, newRel);
    RevisionsFrameResources(q, h, noFinalTracking, 0, x);
    EffectsInOrder(j, s, RevisionOpID(TypeCreateRelease, newRel.version), x);
    if RevisionOpID(TypeUpdateRelease, v) in s.applied {
      AppliedMeans(j, s);
      var i := UpdateOfInfo(q, h, noFinalTracking, d, newRel, h0, v);
      RevisionsFrameResources(q, h, noFinalTracking, i, x);
      EffectsInOrder(j, s, x, RevisionOpID(TypeUpdateRelease, v));
    }
  }

  /** Every update of a revision in the plan of a deployment is a final operation. */
  lemma UpdateOfInfo(q: Request, h: Graph, noFinalTracking: bool, d: DeployType, newRel: Release, h0: seq<Release>,
                     v: int) returns (i: nat)
    requires d != DeployUninstall && Increasing(h0) && q.rel == InfosFor(d, h0, newRel)
    requires Built(q, h, noFinalTracking) && RevisionOpID(TypeUpdateRelease, v) in h.ops
    ensures i < |q.rel| && FinalReleaseOp(q.rel[i]).ID() == RevisionOpID(TypeUpdateRelease, v)
  {
    var id := RevisionOpID(TypeUpdateRelease, v);
    assert h.ops[id].ID() == id;
    ReleaseOpOrigin(q, id);
    i :| 0 <= i < |q.rel| && IsOpOf(q.rel[i], Described(q).ops[id]);
    if i > 0 { DeployInfo(d, h0, newRel, i); }
  }

  // ----- in between -----

  /** The status in which a revision waits for its deployment to succeed. */
  ghost function WhilePending(d: DeployType): ReleaseStatus
    requires d != DeployUninstall
  {
    match d
    case DeployInitial => PendingInstall
    case DeployInstall => PendingInstall
    case DeployUpgrade => PendingUpgrade
    case DeployRollback => PendingRollback
  }

  /** At every moment of an install, upgrade or rollback the new revision is missing until it has been
      created, then pending in its own way, and deployed once that has taken effect; a formerly
      deployed one is superseded once that has; and nothing else changes. */
  lemma DuringDeploy(q: Request, h: Graph, noFinalTracking: bool, parallelism: nat, s: State, d: DeployType,
                     newRel: Release, h0: seq<Release>, v: int)
    requires d != DeployUninstall && Increasing(h0) && AllBelow(h0, newRel.version)
    requires q.rel == InfosFor(d, h0, newRel) && Built(q, h, noFinalTracking)
    requires parallelism > 0 && Reachable(JobOf(h, parallelism), s)
    ensures HistoryLeft(h0, h, s).Some?
    ensures Lookup(HistoryLeft(h0, h, s).value, v) ==
      if v == newRel.version then
        if RevisionOpID(TypeUpdateRelease, v) in s.applied then Some(Deployed)
        else if RevisionOpID(TypeCreateRelease, v) in s.applied then Some(WhilePending(d)) else None
      else if Lookup(h0, v) == Some(Deployed) && RevisionOpID(TypeUpdateRelease, v) in s.applied then Some(Superseded)
      else Lookup(h0, v)
  {
    DeployFits(d, h0, newRel);
    ExecutionHistory(q, h, noFinalTracking, parallelism, s, h0);
    forall x ensures x in Applied(s) <==> x in s.applied { assert s.applied[..|s.applied|] == s.applied; }
    DeployState(d, newRel, h0, Applied(s), HistoryLeft(h0, h, s).value, v);
  }

  lemma DeployState(d: DeployType, newRel: Release, h0: seq<Release>, done: set<OpID>, g: seq<Release>, v: int)
    requires d != DeployUninstall && Increasing(h0) && AllBelow(h0, newRel.version)
    requires StateFor(InfosFor(d, h0, newRel), h0, done, g)
    ensures Lookup(g, v) ==
      if v == newRel.version then
        if RevisionOpID(TypeUpdateRelease, v) in done then Some(Deployed)
        else if RevisionOpID(TypeCreateRelease, v) in done then Some(WhilePending(d)) else None
      else if Lookup(h0, v) == Some(Deployed) && RevisionOpID(TypeUpdateRelease, v) in done then Some(Superseded)
      else Lookup(h0, v)
  {
    var rel := InfosFor(d, h0, newRel);
    if v == newRel.version {
      NewInfoStatus(d, h0, newRel, done);
      assert rel[0].rel.version == v;
    } else if Lookup(h0, v) == Some(Deployed) {
      var i := SupersedeIndex(d, h0, newRel, IndexOf(h0, v));
      assert rel[i].rel.version == v;
    } else {
      forall i | 0 <= i < |rel| ensures rel[i].rel.version != v {
        if i > 0 { DeployInfo(d, h0, newRel, i); }
      }
    }
  }

  lemma NewInfoStatus(d: DeployType, h0: seq<Release>, newRel: Release, done: set<OpID>)
    requires d != DeployUninstall
    ensures InfosFor(d, h0, newRel) != [] && InfosFor(d, h0, newRel)[0].rel == newRel
    ensures InfoStatus(InfosFor(d, h0, newRel)[0], done, None) ==
      if RevisionOpID(TypeUpdateRelease, newRel.version) in done then Some(Deployed)
      else if RevisionOpID(TypeCreateRelease, newRel.version) in done then Some(WhilePending(d)) else None
  {
  }

  /** At every moment of an uninstall the last revision is as it was until it is marked as being
      uninstalled, and each revision is gone once its deletion has taken effect. */
  lemma DuringUninstall(q: Request, h: Graph, noFinalTracking: bool, parallelism: nat, s: State, newRel: Release,
                        h0: seq<Release>, k: nat)
    requires Increasing(h0) && q.rel == InfosFor(DeployUninstall, h0, newRel) && Built(q, h, noFinalTracking)
    requires parallelism > 0 && Reachable(JobOf(h, parallelism), s) && k < |h0|
    ensures HistoryLeft(h0, h, s).Some?
    ensures Lookup(HistoryLeft(h0, h, s).value, h0[k].version) ==
      if RevisionOpID(TypeDeleteRelease, h0[k].version) in s.applied then None
      else if k == |h0| - 1 && RevisionOpID(TypeUpdateRelease, h0[k].version) in s.applied then Some(Uninstalling)
      else Some(h0[k].status)
  {
    UninstallFits(h0);
    ExecutionHistory(q, h, noFinalTracking, parallelism, s, h0);
    forall x ensures x in Applied(s) <==> x in s.applied { assert s.applied[..|s.applied|] == s.applied; }
    IndexUnique(h0, k);
    RemovalStatus(h0, k, Applied(s));
    assert q.rel[k].rel.version == h0[k].version;
  }

  lemma RemovalStatus(h0: seq<Release>, k: nat, done: set<OpID>)
    requires k < |h0|
    ensures InfoStatus(Removals(h0)[k], done, Some(h0[k].status)) ==
      if RevisionOpID(TypeDeleteRelease, h0[k].version) in done then None
      else if k == |h0| - 1 && RevisionOpID(TypeUpdateRelease, h0[k].version) in done then Some(Uninstalling)
      else Some(h0[k].status)
  {
  }

  // ----- failures -----

  lemma StoredBy(x: Executed, op: Operation)
    requires op.ID() in x.ops && x.ops[op.ID()] == op && op.config.ReleaseConfig?
    requires op.ID() in x.status && x.status[op.ID()] == StatusCompleted
    ensures ReleaseStored(x, op.config.rel.version)
  {
  }

  /** A revision is deployed only if it was before, or if it is new and its final operation has
      completed. */
  lemma DeployedBecause(rel: seq<ReleaseInfo>, h0: seq<Release>, done: set<OpID>, g: seq<Release>, i: nat)
    requires StateFor(rel, h0, done, g) && i < |rel| && Lookup(g, rel[i].rel.version) == Some(Deployed)
    ensures Lookup(h0, rel[i].rel.version) == Some(Deployed)
      || (Creates(rel[i]) && FinalReleaseOp(rel[i]).ID() in done
        && FinalReleaseOp(rel[i]) == UpdateReleaseOp(rel[i].rel, Deployed))
  {
  }

  lemma ThereBecause(rel: seq<ReleaseInfo>, h0: seq<Release>, done: set<OpID>, g: seq<Release>, v: int)
    requires Fits(rel, h0) && StateFor(rel, h0, done, g) && Lookup(g, v).Some?
    ensures Lookup(h0, v).Some? || exists i :: 0 <= i < |rel| && Creates(rel[i]) && rel[i].rel.version == v
  {
    if i :| 0 <= i < |rel| && rel[i].rel.version == v {
      assert Creates(rel[i]) || Lookup(h0, v).Some?;
    }
  }

  /** What the failure plan marks was there before it. */
  lemma MarkedWasThere(ops: map<OpID, Operation>, rel: seq<ReleaseInfo>, x: Executed, l: seq<OpID>, n: nat, v: int)
    requires n <= |l| && OnlyFailing(ops, rel, x) && Marked(ops, l, n, v)
    ensures exists i :: 0 <= i < |rel| && rel[i].rel.version == v
  {
    var m :| 0 <= m < n && l[m] in ops && IsReleaseOp(ops[l[m]]) && RevisionOf(ops[l[m]]) == v;
    var i :| 0 <= i < |rel| && FailsRevisionBy(x, rel[i], ops[l[m]]);
  }

  /** The failure plan changes the history only where it marks a revision as failed. */
  lemma AfterFailurePlan(e: Execution, rel: seq<ReleaseInfo>, h0: seq<Release>, h1: seq<Release>, v: int)
    requires Fails(e, rel, h0, h1) && Fits(rel, h0)
    ensures StateFor(rel, h0, Applied(e.s), HistoryLeft(h0, e.h, e.s).value) && Increasing(h1)
    ensures forall x :: x in Applied(e.s) ==> x in e.s.status && e.s.status[x] == StatusCompleted
    ensures Marked(e.f.ops, e.t.applied, |e.t.applied|, v) ==>
      Lookup(h1, v) == Some(FailedRelease) && exists i :: 0 <= i < |rel| && rel[i].rel.version == v
    ensures !Marked(e.f.ops, e.t.applied, |e.t.applied|, v) ==>
      Lookup(h1, v) == Lookup(HistoryLeft(h0, e.h, e.s).value, v)
  {
    var x, g, l := Executed(e.h.ops, e.s.status), HistoryLeft(h0, e.h, e.s).value, e.t.applied;
    ExecutionHistory(e.q, e.h, e.noFinalTracking, e.parallelism, e.s, h0);
    FailureOnlyFails(x, e.q, e.f, e.failureNoFinalTracking);
    FailingRun(e.f.ops, rel, x, g, l, |l|, v);
    if Marked(e.f.ops, l, |l|, v) { MarkedWasThere(e.f.ops, rel, x, l, |l|, v); }
  }

  // ----- when a failure plan can succeed -----

  /** A run of failure marks is possible iff every revision to be marked is there. */
  lemma {:induction false} MarksPossible(ops: map<OpID, Operation>, rel: seq<ReleaseInfo>, x: Executed,
                                         h: seq<Release>, l: seq<OpID>, n: nat)
    requires OnlyFailing(ops, rel, x) && Increasing(h) && n <= |l|
    ensures HistoryAfter(h, ops, l, n).Some? <==>
      forall m :: 0 <= m < n && l[m] in ops && IsReleaseOp(ops[l[m]]) ==> Lookup(h, RevisionOf(ops[l[m]])).Some?
    decreases n
  {
    if n > 0 {
      MarksPossible(ops, rel, x, h, l, n - 1);
      var id := l[n - 1];
      if HistoryAfter(h, ops, l, n - 1).Some? && id in ops && IsReleaseOp(ops[id]) {
        var g := HistoryAfter(h, ops, l, n - 1).value;
        FailingRun(ops, rel, x, h, l, n - 1, RevisionOf(ops[id]));
        var i :| 0 <= i < |rel| && FailsRevisionBy(x, rel[i], ops[id]);
        assert Effect(g, ops[id]).Some? <==> Lookup(g, RevisionOf(ops[id])).Some?;
      }
    }
  }

  /** The last operation of the revision was to delete it, and it has completed. */
  ghost predicate DeletionDone(i: ReleaseInfo, s: State) {
    var op := FinalReleaseOp(i);
    op.typ == TypeDeleteRelease && op.ID() in s.status && s.status[op.ID()] == StatusCompleted
  }

  lemma StoredByInfo(e: Execution, rel: seq<ReleaseInfo>, i: nat) returns (op: Operation)
    requires Ran(e, rel) && DistinctRevisions(rel) && i < |rel|
    requires ReleaseStored(Executed(e.h.ops, e.s.status), rel[i].rel.version)
    ensures IsOpOf(rel[i], op) && op.config.ReleaseConfig?
    ensures op.ID() in e.s.status && e.s.status[op.ID()] == StatusCompleted
  {
    var id :| id in e.h.ops && id in e.s.status && e.s.status[id] == StatusCompleted
      && e.h.ops[id].config.ReleaseConfig? && e.h.ops[id].config.rel.version == rel[i].rel.version;
    op := e.h.ops[id];
    assert op.ID() == id;
    ReleaseOpOrigin(e.q, id);
    var k :| 0 <= k < |rel| && IsOpOf(rel[k], op);
    OpOfRevision(rel[k], op);
  }

  lemma ThereIff(rel: seq<ReleaseInfo>, h0: seq<Release>, done: set<OpID>, g: seq<Release>, i: nat, op: Operation)
    requires StateFor(rel, h0, done, g) && i < |rel|
    requires IsOpOf(rel[i], op) && op.config.ReleaseConfig? && op.ID() in done
    ensures Lookup(g, rel[i].rel.version).Some? <==>
      !(FinalReleaseOp(rel[i]).typ == TypeDeleteRelease && FinalReleaseOp(rel[i]).ID() in done)
  {
  }

  /** A revision that the failure plan is to mark is there iff it has not been deleted. */
  lemma MarkableIff(e: Execution, rel: seq<ReleaseInfo>, h0: seq<Release>, i: nat)
    requires Ran(e, rel) && Fits(rel, h0) && HistoryLeft(h0, e.h, e.s).Some?
    requires i < |rel| && FailsRevision(Executed(e.h.ops, e.s.status), rel[i])
    ensures Lookup(HistoryLeft(h0, e.h, e.s).value, rel[i].rel.version).Some? <==> !DeletionDone(rel[i], e.s)
  {
    ExecutionHistory(e.q, e.h, e.noFinalTracking, e.parallelism, e.s, h0);
    var op := StoredByInfo(e, rel, i);
    ThereIff(rel, h0, Applied(e.s), HistoryLeft(h0, e.h, e.s).value, i, op);
  }

  /** What is to be marked is marked by an operation that was executed. */
  lemma MarkIsExecuted(e: Execution, rel: seq<ReleaseInfo>, i: nat)
    requires RanFailurePlan(e, rel) && DistinctRevisions(rel)
    requires i < |rel| && FailsRevision(Executed(e.h.ops, e.s.status), rel[i])
    ensures var op := UpdateReleaseOp(rel[i].rel, FailedRelease);
      op.ID() in e.t.applied && op.ID() in e.f.ops && e.f.ops[op.ID()] == op
  {
    FailureMarks(Executed(e.h.ops, e.s.status), e.q, e.f, e.failureNoFinalTracking, i);
    SuccessMeansAllCompleted(JobOf(e.f, e.failureParallelism), e.t);
  }

  lemma FailurePlanNeeds(e: Execution, rel: seq<ReleaseInfo>, g: seq<Release>)
    requires RanFailurePlan(e, rel) && DistinctRevisions(rel) && Increasing(g)
    ensures HistoryLeft(g, e.f, e.t).Some? <==>
      forall i :: 0 <= i < |rel| && FailsRevision(Executed(e.h.ops, e.s.status), rel[i]) ==>
        Lookup(g, rel[i].rel.version).Some?
  {
    var x, l := Executed(e.h.ops, e.s.status), e.t.applied;
    FailureOnlyFails(x, e.q, e.f, e.failureNoFinalTracking);
    MarksPossible(e.f.ops, rel, x, g, l, |l|);
    if HistoryLeft(g, e.f, e.t).Some? {
      forall i | 0 <= i < |rel| && FailsRevision(x, rel[i]) ensures Lookup(g, rel[i].rel.version).Some? {
        MarkIsExecuted(e, rel, i);
      }
    } else {
      var m :| 0 <= m < |l| && l[m] in e.f.ops && IsReleaseOp(e.f.ops[l[m]])
        && Lookup(g, RevisionOf(e.f.ops[l[m]])).None?;
      var i :| 0 <= i < |rel| && FailsRevisionBy(x, rel[i], e.f.ops[l[m]]);
    }
  }

  /** All marks of a failure plan are possible iff no revision it is to mark has been deleted. */
  lemma FailurePlanPossibleIff(e: Execution, rel: seq<ReleaseInfo>, h0: seq<Release>)
    requires RanFailurePlan(e, rel) && Fits(rel, h0)
    ensures HistoryLeft(h0, e.h, e.s).Some?
    ensures HistoryLeft(HistoryLeft(h0, e.h, e.s).value, e.f, e.t).Some? <==>
      forall i :: 0 <= i < |rel| && FailsRevision(Executed(e.h.ops, e.s.status), rel[i]) ==> !DeletionDone(rel[i], e.s)
  {
    ExecutionHistory(e.q, e.h, e.noFinalTracking, e.parallelism, e.s, h0);
    FailurePlanNeeds(e, rel, HistoryLeft(h0, e.h, e.s).value);
    forall i | 0 <= i < |rel| && FailsRevision(Executed(e.h.ops, e.s.status), rel[i])
      ensures Lookup(HistoryLeft(h0, e.h, e.s).value, rel[i].rel.version).Some? <==> !DeletionDone(rel[i], e.s)
    {
      MarkableIff(e, rel, h0, i);
    }
  }

  /** A revision that has been deleted after it was marked for removal is one that the failure plan
      is to mark. */
  lemma DeletedIsToFail(e: Execution, h0: seq<Release>)
    requires Ran(e, Removals(h0)) && h0 != [] && DistinctRevisions(Removals(h0))
    requires DeletionDone(Removals(h0)[|h0| - 1], e.s)
    ensures FailsRevision(Executed(e.h.ops, e.s.status), Removals(h0)[|h0| - 1])
  {
    var i := |h0| - 1;
    var x, y := InitReleaseOp(Removals(h0)[i]).value, FinalReleaseOp(Removals(h0)[i]);
    BuiltHasReleaseOps(e.q, e.h, e.noFinalTracking);
    InitPrecedesFinal(e.q, e.h, e.noFinalTracking, i);
    SchedulerSafety(JobOf(e.h, e.parallelism), e.s);
    assert IsOpOf(Removals(h0)[i], x);
    StoredBy(Executed(e.h.ops, e.s.status), x);
  }

  lemma DeployKeeps(d: DeployType, h0: seq<Release>, newRel: Release, i: nat)
    requires d != DeployUninstall && Increasing(h0) && i < |InfosFor(d, h0, newRel)|
    ensures FinalReleaseOp(InfosFor(d, h0, newRel)[i]).typ != TypeDeleteRelease
  {
    if i > 0 { DeployInfo(d, h0, newRel, i); }
  }

  /** The last revision is the only one that the failure plan of an uninstall marks. */
  lemma OnlyLastToFail(e: Execution, h0: seq<Release>)
    requires Ran(e, Removals(h0)) && DistinctRevisions(Removals(h0))
    ensures (forall i :: 0 <= i < |Removals(h0)| && FailsRevision(Executed(e.h.ops, e.s.status), Removals(h0)[i]) ==>
        !DeletionDone(Removals(h0)[i], e.s))
      <==> !(h0 != [] && DeletionDone(Removals(h0)[|h0| - 1], e.s))
  {
    if h0 != [] && DeletionDone(Removals(h0)[|h0| - 1], e.s) { DeletedIsToFail(e, h0); }
    forall i | 0 <= i < |h0| ensures Removals(h0)[i].mustFailOnFailedDeploy ==> i == |h0| - 1 {
    }
  }

  lemma UninstallFailureIff(e: Execution, h0: seq<Release>)
    requires Increasing(h0) && RanFailurePlan(e, Removals(h0))
    ensures HistoryLeft(h0, e.h, e.s).Some?
    ensures HistoryLeft(HistoryLeft(h0, e.h, e.s).value, e.f, e.t).Some? <==>
      !(h0 != [] && DeletionDone(Removals(h0)[|h0| - 1], e.s))
  {
    UninstallFits(h0);
    FailurePlanPossibleIff(e, Removals(h0), h0);
    OnlyLastToFail(e, h0);
  }

  /** The failure plan of an install, upgrade or rollback can always succeed. That of an uninstall
      can iff the last revision had not been deleted yet when another operation failed. */
  lemma FailurePlanSucceedsIff(e: Execution, d: DeployType, newRel: Release, h0: seq<Release>)
    requires Increasing(h0) && (d != DeployUninstall ==> AllBelow(h0, newRel.version))
    requires RanFailurePlan(e, InfosFor(d, h0, newRel))
    ensures HistoryLeft(h0, e.h, e.s).Some?
    ensures HistoryLeft(HistoryLeft(h0, e.h, e.s).value, e.f, e.t).Some? <==>
      !(d == DeployUninstall && h0 != [] && DeletionDone(Removals(h0)[|h0| - 1], e.s))
  {
    if d == DeployUninstall {
      UninstallFailureIff(e, h0);
    } else {
      var rel := InfosFor(d, h0, newRel);
      DeployFits(d, h0, newRel);
      FailurePlanPossibleIff(e, rel, h0);
      forall i | 0 <= i < |rel| ensures !DeletionDone(rel[i], e.s) { DeployKeeps(d, h0, newRel, i); }
    }
  }

  // ----- what a failed action leaves -----

  /** A revision that is deployed after a failure and its failure plan was deployed before, and
      the only new revision is the one that was to be created. */
  lemma FailureDeploysNothing(e: Execution, rel: seq<ReleaseInfo>, h0: seq<Release>, h1: seq<Release>, v: int)
    requires Fails(e, rel, h0, h1) && Fits(rel, h0)
    requires forall i :: 0 <= i < |rel| && Creates(rel[i]) ==> rel[i].mustFailOnFailedDeploy
    ensures Increasing(h1)
    ensures Lookup(h1, v) == Some(Deployed) ==> Lookup(h0, v) == Some(Deployed)
    ensures Lookup(h1, v).Some? ==>
      Lookup(h0, v).Some? || exists i :: 0 <= i < |rel| && Creates(rel[i]) && rel[i].rel.version == v
  {
    var g, done := HistoryLeft(h0, e.h, e.s).value, Applied(e.s);
    AfterFailurePlan(e, rel, h0, h1, v);
    if !Marked(e.f.ops, e.t.applied, |e.t.applied|, v) && Lookup(g, v).Some? {
      ThereBecause(rel, h0, done, g, v);
      if i :| 0 <= i < |rel| && rel[i].rel.version == v && Lookup(g, v) == Some(Deployed) {
        DeployedBecause(rel, h0, done, g, i);
        if Lookup(h0, v) != Some(Deployed) { NewIsMarked(e, rel, h0, h1, i); }
      }
    }
  }

  /** A new revision that got as far as being deployed is marked as failed. */
  lemma NewIsMarked(e: Execution, rel: seq<ReleaseInfo>, h0: seq<Release>, h1: seq<Release>, i: nat)
    requires Fails(e, rel, h0, h1) && DistinctRevisions(rel) && i < |rel| && rel[i].mustFailOnFailedDeploy
    requires FinalReleaseOp(rel[i]) == UpdateReleaseOp(rel[i].rel, Deployed)
    requires FinalReleaseOp(rel[i]).ID() in e.s.status && e.s.status[FinalReleaseOp(rel[i]).ID()] == StatusCompleted
    ensures Marked(e.f.ops, e.t.applied, |e.t.applied|, rel[i].rel.version)
  {
    var x, done := Executed(e.h.ops, e.s.status), FinalReleaseOp(rel[i]);
    ReleaseOpInPlan(e.q, e.h, e.noFinalTracking, i, done);
    StoredBy(x, done);
    FailureMarks(x, e.q, e.f, e.failureNoFinalTracking, i);
    SuccessMeansAllCompleted(JobOf(e.f, e.failureParallelism), e.t);
    MarkedBy(e.f.ops, e.t.applied, UpdateReleaseOp(rel[i].rel, FailedRelease));
  }

  lemma MarkedBy(ops: map<OpID, Operation>, l: seq<OpID>, op: Operation)
    requires op.ID() in ops && ops[op.ID()] == op && IsReleaseOp(op) && op.ID() in l
    ensures Marked(ops, l, |l|, RevisionOf(op))
  {
  }

  /** The new revision is deployed only after it was created. */
  lemma CreatedFirst(q: Request, h: Graph, noFinalTracking: bool, parallelism: nat, s: State, d: DeployType,
                     newRel: Release, h0: seq<Release>)
    requires d != DeployUninstall && q.rel == InfosFor(d, h0, newRel) && Built(q, h, noFinalTracking)
    requires parallelism > 0 && Reachable(JobOf(h, parallelism), s)
    ensures RevisionOpID(TypeUpdateRelease, newRel.version) in s.applied ==>
      RevisionOpID(TypeCreateRelease, newRel.version) in s.applied
  {
    AppliedMeans(JobOf(h, parallelism), s);
    BuiltHasReleaseOps(q, h, noFinalTracking);
    InitTakesEffectFirst(q, h, noFinalTracking, s.applied);
    NewInfoCreates(d, h0, newRel);
    FirstNeedsInit(q.rel, s.applied, 0);
  }

  lemma FirstNeedsInit(rel: seq<ReleaseInfo>, l: seq<OpID>, i: nat)
    requires InitFirst(rel, l) && i < |rel| && Creates(rel[i])
    ensures RevisionOpID(TypeUpdateRelease, rel[i].rel.version) in l ==>
      RevisionOpID(TypeCreateRelease, rel[i].rel.version) in l
  {
    var id := RevisionOpID(TypeUpdateRelease, rel[i].rel.version);
    assert FinalReleaseOp(rel[i]).ID() == id && InitReleaseOp(rel[i]).value.ID().typ == TypeCreateRelease;
    if id in l { var n :| 0 <= n < |l| && l[n] == id; }
  }

  lemma CreatedIsMarked(e: Execution, d: DeployType, newRel: Release, h0: seq<Release>)
    requires d != DeployUninstall && Increasing(h0) && AllBelow(h0, newRel.version)
    requires RanFailurePlan(e, InfosFor(d, h0, newRel))
    requires RevisionOpID(TypeCreateRelease, newRel.version) in e.s.applied
    ensures Marked(e.f.ops, e.t.applied, |e.t.applied|, newRel.version)
  {
    var rel := InfosFor(d, h0, newRel);
    DeployFits(d, h0, newRel);
    NewInfoCreates(d, h0, newRel);
    var op := InitReleaseOp(rel[0]).value;
    CreationCompleted(e, op.ID());
    assert IsOpOf(rel[0], op);
    ReleaseOpInPlan(e.q, e.h, e.noFinalTracking, 0, op);
    StoredBy(Executed(e.h.ops, e.s.status), op);
    MarkIsExecuted(e, rel, 0);
    MarkedBy(e.f.ops, e.t.applied, UpdateReleaseOp(rel[0].rel, FailedRelease));
  }

  lemma CreationCompleted(e: Execution, id: OpID)
    requires Ran(e, e.q.rel)
    ensures id in e.s.applied <==> id in e.s.status && e.s.status[id] == StatusCompleted
  {
    AppliedMeans(JobOf(e.h, e.parallelism), e.s);
    assert e.s.applied[..|e.s.applied|] == e.s.applied;
    assert id in Applied(e.s) <==> id in e.s.applied;
  }

  /** The failure plan marks the new revision iff it was created. */
  lemma NewMarkedIff(e: Execution, d: DeployType, newRel: Release, h0: seq<Release>)
    requires d != DeployUninstall && Increasing(h0) && AllBelow(h0, newRel.version)
    requires RanFailurePlan(e, InfosFor(d, h0, newRel))
    ensures Marked(e.f.ops, e.t.applied, |e.t.applied|, newRel.version) <==>
      RevisionOpID(TypeCreateRelease, newRel.version) in e.s.applied
  {
    var rel, x, v := InfosFor(d, h0, newRel), Executed(e.h.ops, e.s.status), newRel.version;
    if RevisionOpID(TypeCreateRelease, v) in e.s.applied { CreatedIsMarked(e, d, newRel, h0); }
    if Marked(e.f.ops, e.t.applied, |e.t.applied|, v) {
      DeployFits(d, h0, newRel);
      FailureOnlyFails(x, e.q, e.f, e.failureNoFinalTracking);
      var i := MarkedInfo(e.f.ops, rel, x, e.t.applied, v);
      NewInfoCreates(d, h0, newRel);
      assert i == 0;
      var done := StoredByInfo(e, rel, 0);
      CreationCompleted(e, done.ID());
      NewInfoOps(d, h0, newRel, done);
      CreatedFirst(e.q, e.h, e.noFinalTracking, e.parallelism, e.s, d, newRel, h0);
    }
  }

  lemma NewInfoOps(d: DeployType, h0: seq<Release>, newRel: Release, op: Operation)
    requires d != DeployUninstall && IsOpOf(InfosFor(d, h0, newRel)[0], op)
    ensures op.ID() == RevisionOpID(TypeCreateRelease, newRel.version)
      || op.ID() == RevisionOpID(TypeUpdateRelease, newRel.version)
  {
  }

  lemma MarkedInfo(ops: map<OpID, Operation>, rel: seq<ReleaseInfo>, x: Executed, l: seq<OpID>, v: int) returns (i: nat)
    requires OnlyFailing(ops, rel, x) && Marked(ops, l, |l|, v)
    ensures i < |rel| && rel[i].rel.version == v && FailsRevision(x, rel[i])
  {
    var m :| 0 <= m < |l| && l[m] in ops && IsReleaseOp(ops[l[m]]) && RevisionOf(ops[l[m]]) == v;
    i :| 0 <= i < |rel| && FailsRevisionBy(x, rel[i], ops[l[m]]);
  }

  lemma OldNotMarked(e: Execution, d: DeployType, newRel: Release, h0: seq<Release>, v: int)
    requires d != DeployUninstall && Increasing(h0) && RanFailurePlan(e, InfosFor(d, h0, newRel)) && v != newRel.version
    ensures !Marked(e.f.ops, e.t.applied, |e.t.applied|, v)
  {
    var rel, x := InfosFor(d, h0, newRel), Executed(e.h.ops, e.s.status);
    NewInfoCreates(d, h0, newRel);
    if Marked(e.f.ops, e.t.applied, |e.t.applied|, v) {
      FailureOnlyFails(x, e.q, e.f, e.failureNoFinalTracking);
      var i := MarkedInfo(e.f.ops, rel, x, e.t.applied, v);
      OldNeverFail(d, h0, newRel, i);
    }
  }

  lemma OldNeverFail(d: DeployType, h0: seq<Release>, newRel: Release, i: nat)
    requires d != DeployUninstall && i < |InfosFor(d, h0, newRel)|
    ensures InfosFor(d, h0, newRel)[i].mustFailOnFailedDeploy ==> InfosFor(d, h0, newRel)[i].rel == newRel
  {
    SupersedesMembers(h0, |h0|);
    if i > 0 { assert InfosFor(d, h0, newRel)[i] in Supersedes(h0, |h0|); }
  }

  /** What a failed install, upgrade or rollback leaves: its revision failed, if it was created at
      all, and all others as they were, or superseded if that had taken effect. */
  lemma FailedDeploy(e: Execution, d: DeployType, newRel: Release, h0: seq<Release>, h1: seq<Release>, v: int)
    requires d != DeployUninstall && Increasing(h0) && AllBelow(h0, newRel.version)
    requires Fails(e, InfosFor(d, h0, newRel), h0, h1)
    ensures Lookup(h1, v) ==
      if v == newRel.version then
        if RevisionOpID(TypeCreateRelease, v) in e.s.applied then Some(FailedRelease) else None
      else if Lookup(h0, v) == Some(Deployed) && RevisionOpID(TypeUpdateRelease, v) in e.s.applied then Some(Superseded)
      else Lookup(h0, v)
  {
    var rel := InfosFor(d, h0, newRel);
    DeployFits(d, h0, newRel);
    AfterFailurePlan(e, rel, h0, h1, v);
    DuringDeploy(e.q, e.h, e.noFinalTracking, e.parallelism, e.s, d, newRel, h0, v);
    if v == newRel.version {
      NewMarkedIff(e, d, newRel, h0);
      CreatedFirst(e.q, e.h, e.noFinalTracking, e.parallelism, e.s, d, newRel, h0);
    } else {
      OldNotMarked(e, d, newRel, h0, v);
    }
  }

  // ----- sequences of actions -----

  /** No two revisions are deployed. */
  ghost predicate OneDeployed(h: seq<Release>) {
    forall i, k :: 0 <= i < k < |h| ==> !(h[i].status == Deployed && h[k].status == Deployed)
  }

  ghost predicate Good(h: seq<Release>) {
    Increasing(h) && OneDeployed(h)
  }

  lemma NextIsAbove(h: seq<Release>)
    requires Increasing(h)
    ensures AllBelow(h, NextRevision(h))
  {
  }

  lemma DeployedMember(h: seq<Release>)
    requires Increasing(h)
    ensures forall i :: 0 <= i < |h| ==> Lookup(h, h[i].version) == Some(h[i].status)
  {
    forall i | 0 <= i < |h| ensures Lookup(h, h[i].version) == Some(h[i].status) { IndexUnique(h, i); }
  }

  /** Of the deployed revisions of a good history at most one remains. */
  lemma GoodAfterLoss(h0: seq<Release>, h1: seq<Release>)
    requires Good(h0) && Increasing(h1)
    requires forall v :: Lookup(h1, v) == Some(Deployed) ==> Lookup(h0, v) == Some(Deployed)
    ensures Good(h1)
  {
    DeployedMember(h1);
    assert forall u, v :: Lookup(h0, u) == Some(Deployed) && Lookup(h0, v) == Some(Deployed) ==> u == v;
  }

  lemma GoodAfterDeploy(h0: seq<Release>, n: int, h1: seq<Release>)
    requires Increasing(h1) && forall v :: Lookup(h1, v) == AfterDeploy(h0, n, v)
    ensures Good(h1)
  {
    DeployedMember(h1);
    assert forall i :: 0 <= i < |h1| && h1[i].status == Deployed ==> h1[i].version == n;
  }

  /** One plan, for any kind of deployment, that succeeded or failed with its failure plan. */
  ghost predicate Deployment(h0: seq<Release>, h1: seq<Release>, d: DeployType, newRel: Release) {
    exists e :: Succeeds(e, InfosFor(d, h0, newRel), h0, h1) || Fails(e, InfosFor(d, h0, newRel), h0, h1)
  }

  lemma FailureBound(h0: seq<Release>, h1: seq<Release>, n: int)
    requires AllBelow(h0, n) && Increasing(h1)
    requires forall v :: Lookup(h1, v).Some? ==> Lookup(h0, v).Some? || v == n
    ensures AllBelow(h1, n + 1)
  {
    forall k | 0 <= k < |h1| ensures h1[k].version < n + 1 {
      IndexUnique(h1, k);
      var v := h1[k].version;
      if v != n { assert h0[IndexOf(h0, v)].version == v; }
    }
  }

  lemma DeploymentSucceeds(e: Execution, h0: seq<Release>, h1: seq<Release>, d: DeployType, newRel: Release)
    requires Good(h0) && (d != DeployUninstall ==> AllBelow(h0, newRel.version))
    requires Succeeds(e, InfosFor(d, h0, newRel), h0, h1)
    ensures Good(h1) && (d != DeployUninstall ==> AllBelow(h1, newRel.version + 1))
  {
    if d == DeployUninstall {
      SuccessfulUninstall(e, newRel, h0, h1);
    } else {
      SuccessfulDeploy(e, d, newRel, h0, h1);
      GoodAfterDeploy(h0, newRel.version, h1);
      FailureBound(h0, h1, newRel.version);
    }
  }

  lemma RemovalsCreateNothing(h0: seq<Release>, i: nat)
    requires i < |h0|
    ensures !Creates(Removals(h0)[i])
  {
  }

  /** Whatever creates a revision is marked on failure, and it is the new one. */
  lemma CreatingInfo(d: DeployType, h0: seq<Release>, newRel: Release, i: nat)
    requires Increasing(h0) && i < |InfosFor(d, h0, newRel)|
    ensures var x := InfosFor(d, h0, newRel)[i];
      Creates(x) ==> d != DeployUninstall && x.rel == newRel && x.mustFailOnFailedDeploy
  {
    if d == DeployUninstall {
      RemovalsCreateNothing(h0, i);
    } else if i > 0 {
      DeployInfo(d, h0, newRel, i);
    }
  }

  lemma DeploymentFails(e: Execution, h0: seq<Release>, h1: seq<Release>, d: DeployType, newRel: Release)
    requires Good(h0) && (d != DeployUninstall ==> AllBelow(h0, newRel.version))
    requires Fails(e, InfosFor(d, h0, newRel), h0, h1)
    ensures Good(h1) && (d != DeployUninstall ==> AllBelow(h1, newRel.version + 1))
  {
    var rel := InfosFor(d, h0, newRel);
    if d == DeployUninstall { UninstallFits(h0); } else { DeployFits(d, h0, newRel); }
    forall i | 0 <= i < |rel| ensures Creates(rel[i]) ==> rel[i].mustFailOnFailedDeploy && rel[i].rel == newRel {
      CreatingInfo(d, h0, newRel, i);
    }
    FailureDeploysNothing(e, rel, h0, h1, newRel.version);
    forall v ensures (Lookup(h1, v) == Some(Deployed) ==> Lookup(h0, v) == Some(Deployed))
      && (d != DeployUninstall && Lookup(h1, v).Some? ==> Lookup(h0, v).Some? || v == newRel.version)
    {
      FailureDeploysNothing(e, rel, h0, h1, v);
    }
    GoodAfterLoss(h0, h1);
    if d != DeployUninstall { FailureBound(h0, h1, newRel.version); }
  }

  /** Whatever a deployment does, a good history stays good. */
  lemma DeploymentKeepsGood(h0: seq<Release>, h1: seq<Release>, d: DeployType, newRel: Release)
    requires Good(h0) && Deployment(h0, h1, d, newRel) && (d != DeployUninstall ==> AllBelow(h0, newRel.version))
    ensures Good(h1) && (d != DeployUninstall ==> AllBelow(h1, newRel.version + 1))
  {
    var e :| Succeeds(e, InfosFor(d, h0, newRel), h0, h1) || Fails(e, InfosFor(d, h0, newRel), h0, h1);
    if Succeeds(e, InfosFor(d, h0, newRel), h0, h1) {
      DeploymentSucceeds(e, h0, h1, d, newRel);
    } else {
      DeploymentFails(e, h0, h1, d, newRel);
    }
  }

  /** A new revision comes right after the last one. */
  ghost predicate NextInLine(h0: seq<Release>, d: DeployType, newRel: Release) {
    d != DeployUninstall ==> newRel.version == NextRevision(h0)
  }

  /** One action of the user: nothing to do, one plan, or a plan and the automatic rollback that
      comes after its failure. */
  ghost predicate Action(h0: seq<Release>, h1: seq<Release>) {
    || h1 == h0
    || (exists d, newRel: Release :: NextInLine(h0, d, newRel) && Deployment(h0, h1, d, newRel))
    || (exists d, newRel: Release, mid, rollbackRel: Release ::
          && d != DeployUninstall && NextInLine(h0, d, newRel) && Deployment(h0, mid, d, newRel)
          && rollbackRel.version == newRel.version + 1 && Deployment(mid, h1, DeployRollback, rollbackRel))
  }

  lemma ActionKeepsGood(h0: seq<Release>, h1: seq<Release>)
    requires Good(h0) && Action(h0, h1)
    ensures Good(h1)
  {
    NextIsAbove(h0);
    if d, newRel: Release :| NextInLine(h0, d, newRel) && Deployment(h0, h1, d, newRel) {
      DeploymentKeepsGood(h0, h1, d, newRel);
    } else if h1 != h0 {
      var d, newRel: Release, mid, rollbackRel: Release :|
        && d != DeployUninstall && NextInLine(h0, d, newRel) && Deployment(h0, mid, d, newRel)
        && rollbackRel.version == newRel.version + 1 && Deployment(mid, h1, DeployRollback, rollbackRel);
      DeploymentKeepsGood(h0, mid, d, newRel);
      DeploymentKeepsGood(mid, h1, DeployRollback, rollbackRel);
    }
  }

  /** Over every sequence of actions from an empty history, whichever succeed and whichever fail
      and in whatever order their operations run, revisions stay strictly increasing and at most
      one of them is deployed after every action. */
  lemma {:induction false} HistoriesStayGood(hs: seq<seq<Release>>, n: nat)
    requires n < |hs| && hs[0] == []
    requires forall i :: 0 <= i < |hs| - 1 ==> Action(hs[i], hs[i + 1])
    ensures Increasing(hs[n]) && OneDeployed(hs[n])
    decreases n
  {
    if n > 0 {
      HistoriesStayGood(hs, n - 1);
      assert Action(hs[n - 1], hs[n - 1 + 1]);
      ActionKeepsGood(hs[n - 1], hs[n]);
    }
  }
}
