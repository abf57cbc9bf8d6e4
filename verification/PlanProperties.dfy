/** What every built plan guarantees for resources: where their operations stand, what they wait
    for, and which policies they respect (pkg/plan/plan_build.go, pkg/plan/resource_info.go). */
module PlanProperties {
  import opened Operations
  import opened Precedence
  import opened PlanGraph
  import opened Chains
  import opened ResourceInfo
  import opened ReleaseInfo
  import opened PlanRequest
  import opened PlanBuild
  import opened Dependencies
  import opened Stages
  import opened Builder
  import opened StageOrder

  // ----- where operations stand -----

  ghost predicate HasStep(c: Chain, op: Operation, stage: Option<StageRef>) {
    exists n :: 0 <= n < |c| && c[n] == ChainStep(op, stage, false)
  }

  /** `op` is in the graph as it was asked for, in `ref`. */
  ghost predicate Stands(g: Graph, op: Operation, ref: StageRef) {
    op.ID() in g.ops && g.ops[op.ID()] == op && Placed(g, op.ID(), ref)
  }

  lemma StepStands(g: Graph, cs: seq<Chain>, h: Graph, k: nat, op: Operation, ref: StageRef)
    requires AllFresh(g, cs) && Grows(AfterAll(g, cs), h) && k < |cs| && HasStep(cs[k], op, Some(ref))
    ensures Stands(h, op, ref)
  {
    var n :| 0 <= n < |cs[k]| && cs[k][n] == ChainStep(op, Some(ref), false);
    ChainStepDone(g, cs, k, n);
    var f := AfterAll(g, cs);
    assert StepDone(f, cs[k], n);
  }

  /** What stands where in the chain of an info. */
  lemma ChainPositions(i: InstallableInfo)
    ensures var c, e := InstallChain(i), |ExternalSteps(i)|;
      var d, t := if i.mustInstall == InstallNone then 0 else 1, if i.mustTrackReadiness then 1 else 0;
      && |c| == e + d + t + (if i.mustDeleteOnSuccess then 2 else 0)
      && (i.res.externalDeps == [] ==> e == 0)
      && (i.mustInstall != InstallNone ==>
            && e == |i.res.externalDeps| && c[e] == ChainStep(DeployOp(i), Some(DeployRef(i)), false)
            && forall n :: 0 <= n < e ==> c[n].op.ID() == ResourceOpID(TypeTrackPresence, 0, i.res.externalDeps[n]))
      && (i.mustTrackReadiness ==> c[e + d] == ChainStep(ReadinessOp(i), Some(DeployRef(i)), false))
      && (i.mustDeleteOnSuccess ==>
            && c[e + d + t] == ChainStep(CleanupOp(i), CleanupRef(i), false)
            && c[e + d + t + 1] == ChainStep(CleanupTrackOp(i), CleanupRef(i), false))
  {
  }

  lemma InstallSteps(i: InstallableInfo)
    ensures i.mustInstall != InstallNone ==> HasStep(InstallChain(i), DeployOp(i), Some(DeployRef(i)))
    ensures i.mustTrackReadiness ==> HasStep(InstallChain(i), ReadinessOp(i), Some(DeployRef(i)))
    ensures i.mustDeleteOnSuccess ==> HasStep(InstallChain(i), CleanupOp(i), CleanupRef(i))
    ensures i.mustDeleteOnSuccess ==> HasStep(InstallChain(i), CleanupTrackOp(i), CleanupRef(i))
  {
    ChainPositions(i);
  }

  /** An operation of info `i`, and where it is to stand. */
  ghost predicate OperationOf(i: InstallableInfo, op: Operation, ref: StageRef) {
    || (i.mustInstall != InstallNone && op == DeployOp(i) && ref == DeployRef(i))
    || (i.mustTrackReadiness && op == ReadinessOp(i) && ref == DeployRef(i))
    || (i.mustDeleteOnSuccess && op in {CleanupOp(i), CleanupTrackOp(i)} && CleanupRef(i) == Some(ref))
  }

  /** Every operation of every info is in the plan, in its stage. */
  lemma InstallOpStands(q: Request, k: nat, op: Operation, ref: StageRef)
    requires NoCollisions(q) && k < |q.inst| && OperationOf(q.inst[k], op, ref)
    ensures Stands(Described(q), op, ref)
  {
    PartsGrow(q);
    NoCollisionsMeans(q);
    InstallSteps(q.inst[k]);
    var cs: seq<Chain> := InstallChains(q.inst);
    StepStands(Deleted(q), cs, Described(q), k, op, ref);
  }

  lemma DeletionStands(q: Request, k: nat)
    requires NoCollisions(q) && k < |q.del| && q.del[k].mustDelete
    ensures Stands(Described(q), ResourceOp(TypeDelete, CategoryResource, 0, q.del[k].id), MainStage(q.del[k].stage))
  {
    PartsGrow(q);
    NoCollisionsMeans(q);
    var cs: seq<Chain> := DeleteChains(q.del);
    var op := ResourceOp(TypeDelete, CategoryResource, 0, q.del[k].id);
    assert cs[k][0] == ChainStep(op, Some(MainStage(q.del[k].stage)), false);
    StepStands(Released(q), cs, Described(q), k, op, MainStage(q.del[k].stage));
  }

  lemma AwaitedOpKept(q: Request, h: Graph, noFinalTracking: bool, id: OpID, r: OpID)
    requires Built(q, h, noFinalTracking) && id in Described(q).ops && id.config.ResourceKey?
    requires r in Described(q).ops && Described(q).ops[r].category == CategoryResource
      && Precedes(Described(q).edges, id, r)
    ensures id in h.ops && r in h.ops && Precedes(h.edges, id, r)
  {
    assert Described(q).ops[id].ID() == id;
    assert HasResourceAfter(Described(q), id);
  }

  // ----- dependencies -----

  lemma DependentIsResource(q: Request, id: OpID)
    requires NoCollisions(q) && Dependent(q.inst, q.del, id)
    ensures id in Described(q).ops && Described(q).ops[id].category == CategoryResource
  {
    if i :| i in q.inst && i.mustInstall != InstallNone && id == DeployOp(i).ID() {
      var k :| 0 <= k < |q.inst| && q.inst[k] == i;
      InstallOpStands(q, k, DeployOp(i), DeployRef(i));
    } else {
      var i :| i in q.del && i.mustDelete && id == DeleteID(i);
      var k :| 0 <= k < |q.del| && q.del[k] == i;
      DeletionStands(q, k);
    }
  }

  lemma DependencyEdgesShaped(q: Request)
    ensures DependencyShaped(Requested(q).ops.Keys, q.inst, q.del, DependencyEdges(q))
  {
    TargetsAdded(q);
    DeployDepEdgesShaped(Requested(q).ops.Keys, q.del, q.inst, |q.inst|);
    DeleteDepEdgesShaped(Requested(q).ops.Keys, q.del, q.inst, |q.del|);
  }

  /** Every edge that a dependency adds survives optimisation as a precedence between two
      operations of the plan. */
  lemma DependencySurvives(q: Request, h: Graph, noFinalTracking: bool, x: OpID, y: OpID)
    requires Built(q, h, noFinalTracking) && (x, y) in DependencyEdges(q)
    ensures x in h.ops && y in h.ops && Precedes(h.edges, x, y)
  {
    DependencyEdgesShaped(q);
    PartsGrow(q);
    DependentIsResource(q, y);
    EdgePrecedes(Described(q).edges, x, y);
    AwaitedOpKept(q, h, noFinalTracking, x, y);
  }

  /** A resource is deployed after the operation each of its dependencies waits for. */
  lemma DeployDependencyKept(q: Request, h: Graph, noFinalTracking: bool, i: nat, d: Dependency, t: OpID)
    requires Built(q, h, noFinalTracking) && i < |q.inst| && q.inst[i].mustInstall != InstallNone
      && d in Deps(q.inst[i])
    requires DeployTarget(Requested(q).ops.Keys, q.del, q.inst, d, q.inst[i].stage) == Some(t)
    ensures t in h.ops && DeployOp(q.inst[i]).ID() in h.ops && Precedes(h.edges, t, DeployOp(q.inst[i]).ID())
  {
    var ids, deps := Requested(q).ops.Keys, Deps(q.inst[i]);
    var k :| 0 <= k < |deps| && deps[k] == d;
    InfoEdgeIn(ids, q.del, q.inst, q.inst[i], deps, |deps|, k);
    EdgesOfIn(ids, q.del, q.inst, |q.inst|, i);
    assert (t, DeployOp(q.inst[i]).ID()) in DeployEdge(ids, q.del, q.inst, q.inst[i], d);
    DependencySurvives(q, h, noFinalTracking, t, DeployOp(q.inst[i]).ID());
  }

  /** A resource is deleted after the absence of everything it depends upon was seen. */
  lemma DeleteDependencyKept(q: Request, h: Graph, noFinalTracking: bool, i: nat, k: nat, t: OpID)
    requires Built(q, h, noFinalTracking) && i < |q.del| && q.del[i].mustDelete && k < |q.del[i].deps|
    requires t in AbsenceOps(Requested(q).ops.Keys, q.del, q.inst, q.del[i].deps[k], q.del[i].stage)
    ensures t in h.ops && DeleteID(q.del[i]) in h.ops && Precedes(h.edges, t, DeleteID(q.del[i]))
  {
    var ids := Requested(q).ops.Keys;
    DeletedEdgeIn(ids, q.del, q.inst, q.del[i], |q.del[i].deps|, k, t);
    DeletedEdgesIn(ids, q.del, q.inst, |q.del|, i);
    DependencySurvives(q, h, noFinalTracking, t, DeleteID(q.del[i]));
  }

  /** If a resource to be deployed has a manual dependency on the readiness of a resource of its
      stage that is installed or live, then in every built plan, with or without final tracking,
      the readiness of a matching resource is tracked before the resource is deployed. */
  lemma ReadyBeforeDeploy(q: Request, h: Graph, noFinalTracking: bool, i: nat, d: Dependency, t: nat)
      returns (m: InstallableInfo)
    requires Built(q, h, noFinalTracking) && ReadyTargetsTracked(q.inst)
    requires i < |q.inst| && q.inst[i].mustInstall != InstallNone
    requires d in q.inst[i].res.manualDeps && d.state == Ready
    requires t < |q.inst| && q.inst[t].res.id in d.matches && q.inst[t].stage == q.inst[i].stage && !q.inst[t].res.isCRD
    requires q.inst[t].mustInstall != InstallNone || q.inst[t].live.Some?
    ensures m in q.inst && m.res.id in d.matches && m.stage == q.inst[i].stage
    ensures ReadinessOp(m).ID() in h.ops && DeployOp(q.inst[i]).ID() in h.ops
    ensures Precedes(h.edges, ReadinessOp(m).ID(), DeployOp(q.inst[i]).ID())
  {
    assert AwaitedReady(q.inst, q.inst[t]);
    assert Eligible(TrackedOne, d, q.inst[i].stage, q.inst[t]);
    LowestMatchIsLowest(q.inst, TrackedOne, d, q.inst[i].stage, |q.inst|);
    m := LowestMatch(q.inst, TrackedOne, d, q.inst[i].stage, |q.inst|).value;
    assert m in q.inst;
    var k :| 0 <= k < |q.inst| && q.inst[k] == m;
    InstallOpStands(q, k, ReadinessOp(m), DeployRef(m));
    DeployDependencyKept(q, h, noFinalTracking, i, d, ReadinessOp(m).ID());
  }

  // ----- what a dependency means, said of the resources -----

  ghost predicate DependsOn(i: InstallableInfo, d: Dependency) {
    d in i.res.autoDeps || d in i.res.manualDeps
  }

  /** A resource that the dependency matches is deployed in the stage. */
  ghost predicate DeployedMatch(d: Dependency, s: Stage, t: InstallableInfo) {
    t.mustInstall != InstallNone && t.stage == s && t.res.id in d.matches
  }

  ghost predicate TrackedMatch(d: Dependency, s: Stage, t: InstallableInfo) {
    t.mustTrackReadiness && t.stage == s && t.res.id in d.matches
  }

  ghost predicate CleanedUpMatch(d: Dependency, s: Stage, t: InstallableInfo) {
    t.mustDeleteOnSuccess && t.deleteStage == Some(s) && t.res.id in d.matches
  }

  ghost predicate DeletedTrackedMatch(d: Dependency, s: Stage, c: DeletableInfo) {
    c.mustDelete && c.mustTrackAbsence && c.stage == s && c.id in d.matches
  }

  /** Info `k` does not come before info `m`, in iterations or else in the list. */
  ghost predicate NoEarlier(inst: seq<InstallableInfo>, m: nat, k: nat)
    requires m < |inst| && k < |inst|
  {
    inst[m].iteration < inst[k].iteration || (inst[m].iteration == inst[k].iteration && m <= k)
  }

  /** With a dependency on presence, automatic or manual, a resource is deployed after a matching
      one of its stage, the first one of the lowest iteration that matches. */
  lemma DeployWaitsForPresence(q: Request, h: Graph, noFinalTracking: bool, i: nat, d: Dependency, t: nat)
      returns (m: nat)
    requires Built(q, h, noFinalTracking) && i < |q.inst| && q.inst[i].mustInstall != InstallNone
    requires DependsOn(q.inst[i], d) && d.state == Present
    requires t < |q.inst| && DeployedMatch(d, q.inst[i].stage, q.inst[t])
    ensures m < |q.inst| && DeployedMatch(d, q.inst[i].stage, q.inst[m])
    ensures forall k :: 0 <= k < |q.inst| && DeployedMatch(d, q.inst[i].stage, q.inst[k]) ==>
      NoEarlier(q.inst, m, k)
    ensures DeployOp(q.inst[m]).ID() in h.ops && DeployOp(q.inst[i]).ID() in h.ops
    ensures Precedes(h.edges, DeployOp(q.inst[m]).ID(), DeployOp(q.inst[i]).ID())
  {
    var s := q.inst[i].stage;
    assert Eligible(DeployedOne, d, s, q.inst[t]);
    m := LowestIndex(q.inst, DeployedOne, d, s);
    forall k | 0 <= k < |q.inst| && DeployedMatch(d, s, q.inst[k]) ensures Eligible(DeployedOne, d, s, q.inst[k]) {
    }
    DeployDependencyKept(q, h, noFinalTracking, i, d, DeployOp(q.inst[m]).ID());
  }

  /** With a dependency on readiness, a resource is deployed after a matching one of its stage that
      is tracked, the first one of the lowest iteration that matches, has become ready. */
  lemma DeployWaitsForReadiness(q: Request, h: Graph, noFinalTracking: bool, i: nat, d: Dependency, t: nat)
      returns (m: nat)
    requires Built(q, h, noFinalTracking) && i < |q.inst| && q.inst[i].mustInstall != InstallNone
    requires DependsOn(q.inst[i], d) && d.state == Ready
    requires t < |q.inst| && TrackedMatch(d, q.inst[i].stage, q.inst[t])
    ensures m < |q.inst| && TrackedMatch(d, q.inst[i].stage, q.inst[m])
    ensures forall k :: 0 <= k < |q.inst| && TrackedMatch(d, q.inst[i].stage, q.inst[k]) ==>
      NoEarlier(q.inst, m, k)
    ensures ReadinessOp(q.inst[m]).ID() in h.ops && DeployOp(q.inst[i]).ID() in h.ops
    ensures Precedes(h.edges, ReadinessOp(q.inst[m]).ID(), DeployOp(q.inst[i]).ID())
  {
    var s := q.inst[i].stage;
    assert Eligible(TrackedOne, d, s, q.inst[t]);
    m := LowestIndex(q.inst, TrackedOne, d, s);
    forall k | 0 <= k < |q.inst| && TrackedMatch(d, s, q.inst[k]) ensures Eligible(TrackedOne, d, s, q.inst[k]) {
    }
    InstallOpStands(q, m, ReadinessOp(q.inst[m]), DeployRef(q.inst[m]));
    DeployDependencyKept(q, h, noFinalTracking, i, d, ReadinessOp(q.inst[m]).ID());
  }

  lemma LowestIndex(inst: seq<InstallableInfo>, w: Wanted, d: Dependency, s: Stage) returns (m: nat)
    requires exists t :: 0 <= t < |inst| && Eligible(w, d, s, inst[t])
    ensures m < |inst| && LowestMatch(inst, w, d, s, |inst|) == Some(inst[m]) && Eligible(w, d, s, inst[m])
    ensures forall k :: 0 <= k < |inst| && Eligible(w, d, s, inst[k]) ==> NoEarlier(inst, m, k)
  {
    m := LowestMatchIsFirst(inst, w, d, s, |inst|);
  }

  lemma AbsenceInPlan(q: Request, k: nat)
    requires NoCollisions(q) && k < |q.del| && q.del[k].mustDelete && q.del[k].mustTrackAbsence
    ensures ResourceOpID(TypeTrackAbsence, 0, q.del[k].id) in Requested(q).ops
    ensures Stands(Described(q), ResourceOp(TypeTrackAbsence, CategoryTrack, 0, q.del[k].id), MainStage(q.del[k].stage))
  {
    PartsGrow(q);
    NoCollisionsMeans(q);
    var cs: seq<Chain> := DeleteChains(q.del);
    var op := ResourceOp(TypeTrackAbsence, CategoryTrack, 0, q.del[k].id);
    assert cs[k][1] == ChainStep(op, Some(MainStage(q.del[k].stage)), false);
    StepStands(Released(q), cs, Described(q), k, op, MainStage(q.del[k].stage));
  }

  ghost predicate AbsenceOfMatch(del: seq<DeletableInfo>, d: Dependency, s: Stage, x: OpID) {
    exists c :: 0 <= c < |del| && del[c].stage == s && del[c].id in d.matches
      && x == ResourceOpID(TypeTrackAbsence, 0, del[c].id)
  }

  /** The absence operations of all matching deleted resources are found. */
  lemma DeletedAreFound(q: Request, d: Dependency, s: Stage, k: nat)
    requires NoCollisions(q) && k < |q.del| && DeletedTrackedMatch(d, s, q.del[k])
    ensures ResourceOpID(TypeTrackAbsence, 0, q.del[k].id) in AbsenceOps(Requested(q).ops.Keys, q.del, q.inst, d, s)
    ensures forall x :: x in AbsenceOps(Requested(q).ops.Keys, q.del, q.inst, d, s) ==> AbsenceOfMatch(q.del, d, s, x)
  {
    var ids := Requested(q).ops.Keys;
    AbsenceInPlan(q, k);
    var a := ResourceOpID(TypeTrackAbsence, 0, q.del[k].id);
    DeletedMatchesExactly(ids, q.del, d, s, |q.del|, a);
    assert DeletedMatch(q.del[k], d, s) && a == AbsenceID(q.del[k]);
    forall x | x in AbsenceOps(ids, q.del, q.inst, d, s)
      ensures AbsenceOfMatch(q.del, d, s, x)
    {
      DeletedMatchesExactly(ids, q.del, d, s, |q.del|, x);
    }
  }

  /** With a dependency on absence, a resource is deployed after the absence of a matching one that
      is deleted in its stage was seen. */
  lemma DeployWaitsForAbsence(q: Request, h: Graph, noFinalTracking: bool, i: nat, d: Dependency, t: nat)
      returns (m: nat)
    requires Built(q, h, noFinalTracking) && i < |q.inst| && q.inst[i].mustInstall != InstallNone
    requires DependsOn(q.inst[i], d) && d.state == Absent
    requires t < |q.del| && DeletedTrackedMatch(d, q.inst[i].stage, q.del[t])
    ensures m < |q.del| && q.del[m].stage == q.inst[i].stage && q.del[m].id in d.matches
    ensures forall k :: 0 <= k < |q.del| && DeletedTrackedMatch(d, q.inst[i].stage, q.del[k]) ==> m <= k
    ensures ResourceOpID(TypeTrackAbsence, 0, q.del[m].id) in h.ops && DeployOp(q.inst[i]).ID() in h.ops
    ensures Precedes(h.edges, ResourceOpID(TypeTrackAbsence, 0, q.del[m].id), DeployOp(q.inst[i]).ID())
  {
    var s := q.inst[i].stage;
    DeletedAreFound(q, d, s, t);
    AbsenceInPlan(q, t);
    m := FirstDeleted(Requested(q).ops.Keys, q.del, d, s, |q.del|, t);
    forall k | 0 <= k < |q.del| && DeletedTrackedMatch(d, s, q.del[k]) ensures m <= k { AbsenceInPlan(q, k); }
    DeployDependencyKept(q, h, noFinalTracking, i, d, ResourceOpID(TypeTrackAbsence, 0, q.del[m].id));
  }

  /** The absence found first is that of the first matching deletable resource that has one. */
  lemma {:induction false} FirstDeleted(ids: set<OpID>, del: seq<DeletableInfo>, d: Dependency, s: Stage, n: nat,
                                        t: nat) returns (m: nat)
    requires t < n <= |del| && DeletedMatch(del[t], d, s) && AbsenceID(del[t]) in ids
    ensures m < n && DeletedMatch(del[m], d, s) && AbsenceID(del[m]) in ids
    ensures DeletedMatches(ids, del, d, s, n) != [] && DeletedMatches(ids, del, d, s, n)[0] == AbsenceID(del[m])
    ensures forall k :: 0 <= k < n && DeletedMatch(del[k], d, s) && AbsenceID(del[k]) in ids ==> m <= k
  {
    if k :| 0 <= k < n - 1 && DeletedMatch(del[k], d, s) && AbsenceID(del[k]) in ids {
      m := FirstDeleted(ids, del, d, s, n - 1, k);
    } else {
      m := n - 1;
      if DeletedMatches(ids, del, d, s, n - 1) != [] {
        var x := DeletedMatches(ids, del, d, s, n - 1)[0];
        assert x in DeletedMatches(ids, del, d, s, n - 1);
        DeletedMatchesExactly(ids, del, d, s, n - 1, x);
      }
    }
  }

  /** A resource is deleted after the absence of every matching one that is deleted in its stage. */
  lemma DeletionWaitsForDeletions(q: Request, h: Graph, noFinalTracking: bool, i: nat, d: Dependency, t: nat)
    requires Built(q, h, noFinalTracking) && i < |q.del| && q.del[i].mustDelete && d in q.del[i].deps
    requires t < |q.del| && DeletedTrackedMatch(d, q.del[i].stage, q.del[t])
    ensures ResourceOpID(TypeTrackAbsence, 0, q.del[t].id) in h.ops && ResourceOpID(TypeDelete, 0, q.del[i].id) in h.ops
    ensures Precedes(h.edges, ResourceOpID(TypeTrackAbsence, 0, q.del[t].id), ResourceOpID(TypeDelete, 0, q.del[i].id))
  {
    DeletedAreFound(q, d, q.del[i].stage, t);
    var k :| 0 <= k < |q.del[i].deps| && q.del[i].deps[k] == d;
    DeleteDependencyKept(q, h, noFinalTracking, i, k, ResourceOpID(TypeTrackAbsence, 0, q.del[t].id));
  }

  /** Where no matching resource is deleted, a resource is deleted after the absence of a matching
      one that is cleaned up in its stage, the first one of the lowest iteration that matches. */
  lemma DeletionWaitsForCleanUp(q: Request, h: Graph, noFinalTracking: bool, i: nat, d: Dependency, t: nat)
      returns (m: nat)
    requires Built(q, h, noFinalTracking) && i < |q.del| && q.del[i].mustDelete && d in q.del[i].deps
    requires forall c :: 0 <= c < |q.del| && q.del[c].stage == q.del[i].stage && q.del[c].id in d.matches ==>
      ResourceOpID(TypeTrackAbsence, 0, q.del[c].id) !in Requested(q).ops
    requires t < |q.inst| && CleanedUpMatch(d, q.del[i].stage, q.inst[t])
    ensures m < |q.inst| && CleanedUpMatch(d, q.del[i].stage, q.inst[m])
    ensures forall k :: 0 <= k < |q.inst| && CleanedUpMatch(d, q.del[i].stage, q.inst[k]) ==>
      NoEarlier(q.inst, m, k)
    ensures CleanupTrackOp(q.inst[m]).ID() in h.ops && ResourceOpID(TypeDelete, 0, q.del[i].id) in h.ops
    ensures Precedes(h.edges, CleanupTrackOp(q.inst[m]).ID(), ResourceOpID(TypeDelete, 0, q.del[i].id))
  {
    var ids, s := Requested(q).ops.Keys, q.del[i].stage;
    assert Eligible(CleanedUpOne, d, s, q.inst[t]);
    m := LowestIndex(q.inst, CleanedUpOne, d, s);
    forall k | 0 <= k < |q.inst| && CleanedUpMatch(d, s, q.inst[k]) ensures Eligible(CleanedUpOne, d, s, q.inst[k]) {
    }
    InstallOpStands(q, m, CleanupTrackOp(q.inst[m]), MainStage(s));
    NoneFound(q, d, s);
    var k :| 0 <= k < |q.del[i].deps| && q.del[i].deps[k] == d;
    DeleteDependencyKept(q, h, noFinalTracking, i, k, CleanupTrackOp(q.inst[m]).ID());
  }

  lemma NoneFound(q: Request, d: Dependency, s: Stage)
    requires forall c :: 0 <= c < |q.del| && q.del[c].stage == s && q.del[c].id in d.matches ==>
      ResourceOpID(TypeTrackAbsence, 0, q.del[c].id) !in Requested(q).ops
    ensures DeletedMatches(Requested(q).ops.Keys, q.del, d, s, |q.del|) == []
  {
    var found := DeletedMatches(Requested(q).ops.Keys, q.del, d, s, |q.del|);
    if found != [] {
      assert found[0] in found;
      DeletedMatchesExactly(Requested(q).ops.Keys, q.del, d, s, |q.del|, found[0]);
    }
  }

  // ----- exactly what dependencies make wait -----

  /** Deletable resource `c` is one that the dependency matches, and its absence is tracked. */
  ghost predicate AbsenceTracked(q: Request, d: Dependency, s: Stage, c: nat)
    requires c < |q.del|
  {
    && q.del[c].mustTrackAbsence && q.del[c].stage == s && q.del[c].id in d.matches
    && ResourceOpID(TypeTrackAbsence, 0, q.del[c].id) in Requested(q).ops
  }

  ghost predicate AnyAbsenceTracked(q: Request, d: Dependency, s: Stage) {
    exists c :: 0 <= c < |q.del| && AbsenceTracked(q, d, s, c)
  }

  ghost predicate CleanUpToSee(q: Request, d: Dependency, s: Stage, x: OpID) {
    && x in Requested(q).ops
    && exists m :: 0 <= m < |q.inst| && IsFirst(q, CleanedUpOne, d, s, m) && x == CleanupTrackOp(q.inst[m]).ID()
  }

  ghost predicate IsFirst(q: Request, w: Wanted, d: Dependency, s: Stage, m: nat) {
    FirstLowest(q.inst, w, d, s, |q.inst|, m)
  }

  /** `x` tracks the absence of a matching deleted resource, or, without any, of the matching cleaned-up
      one that comes first. */
  ghost predicate AbsenceToSee(q: Request, d: Dependency, s: Stage, x: OpID) {
    if AnyAbsenceTracked(q, d, s) then
      exists c :: 0 <= c < |q.del| && AbsenceTracked(q, d, s, c) && x == ResourceOpID(TypeTrackAbsence, 0, q.del[c].id)
    else
      CleanUpToSee(q, d, s, x)
  }

  /** A deletion waits for an operation because of a dependency. */
  ghost predicate DeletionWaitsFor(q: Request, i: nat, x: OpID)
    requires i < |q.del|
  {
    q.del[i].mustDelete && exists d :: d in q.del[i].deps && AbsenceToSee(q, d, q.del[i].stage, x)
  }

  lemma DeletedFoundAre(q: Request, d: Dependency, s: Stage, y: OpID)
    ensures y in DeletedMatches(Requested(q).ops.Keys, q.del, d, s, |q.del|) <==>
      exists c :: 0 <= c < |q.del| && AbsenceTracked(q, d, s, c) && y == ResourceOpID(TypeTrackAbsence, 0, q.del[c].id)
  {
    DeletedMatchesExactly(Requested(q).ops.Keys, q.del, d, s, |q.del|, y);
    if c :| 0 <= c < |q.del| && AbsenceTracked(q, d, s, c) && y == ResourceOpID(TypeTrackAbsence, 0, q.del[c].id) {
      assert DeletedMatch(q.del[c], d, s) && y == AbsenceID(q.del[c]);
    }
  }

  lemma DeletedFoundIff(q: Request, d: Dependency, s: Stage)
    ensures DeletedMatches(Requested(q).ops.Keys, q.del, d, s, |q.del|) != [] <==> AnyAbsenceTracked(q, d, s)
  {
    var found := DeletedMatches(Requested(q).ops.Keys, q.del, d, s, |q.del|);
    if found != [] {
      assert found[0] in found;
      DeletedFoundAre(q, d, s, found[0]);
    }
    if AnyAbsenceTracked(q, d, s) {
      var c :| 0 <= c < |q.del| && AbsenceTracked(q, d, s, c);
      DeletedFoundAre(q, d, s, ResourceOpID(TypeTrackAbsence, 0, q.del[c].id));
    }
  }

  lemma AbsenceOpsAre(q: Request, d: Dependency, s: Stage, x: OpID)
    ensures x in AbsenceOps(Requested(q).ops.Keys, q.del, q.inst, d, s) <==> AbsenceToSee(q, d, s, x)
  {
    DeletedFoundIff(q, d, s);
    DeletedFoundAre(q, d, s, x);
    FoundIsFirst(q, CleanedUpOne, d, s);
  }

  lemma LowestUnique(q: Request, w: Wanted, d: Dependency, s: Stage, m: nat)
    requires m < |q.inst| && IsFirst(q, w, d, s, m)
    ensures forall k :: 0 <= k < |q.inst| && IsFirst(q, w, d, s, k) ==> k == m
  {
  }

  ghost predicate OnlyFirst(q: Request, w: Wanted, d: Dependency, s: Stage, m: nat) {
    IsFirst(q, w, d, s, m) && forall k :: 0 <= k < |q.inst| && IsFirst(q, w, d, s, k) ==> k == m
  }

  lemma FoundIsFirst(q: Request, w: Wanted, d: Dependency, s: Stage)
    ensures var found := LowestMatch(q.inst, w, d, s, |q.inst|);
      if found.Some?
      then exists m :: 0 <= m < |q.inst| && OnlyFirst(q, w, d, s, m) && found == Some(q.inst[m])
      else forall k :: 0 <= k < |q.inst| ==> !IsFirst(q, w, d, s, k)
  {
    var m := LowestMatchIsFirst(q.inst, w, d, s, |q.inst|);
    if LowestMatch(q.inst, w, d, s, |q.inst|).Some? {
      assert IsFirst(q, w, d, s, m);
      LowestUnique(q, w, d, s, m);
      assert OnlyFirst(q, w, d, s, m);
    }
  }

  /** What the operation is that a dependency of a resource to be deployed waits for. */
  ghost predicate DeployWaitsFor(q: Request, i: nat, d: Dependency, x: OpID)
    requires i < |q.inst|
  {
    var s := q.inst[i].stage;
    match d.state
    case Present =>
      exists m :: 0 <= m < |q.inst| && IsFirst(q, DeployedOne, d, s, m) && x == DeployOp(q.inst[m]).ID()
    case Ready =>
      && x in Requested(q).ops
      && exists m :: 0 <= m < |q.inst| && IsFirst(q, TrackedOne, d, s, m) && x == ReadinessOp(q.inst[m]).ID()
    case Absent =>
      AbsenceToSee(q, d, s, x) && (AnyAbsenceTracked(q, d, s) ==> IsFirstAbsence(q, d, s, x))
  }

  ghost predicate IsFirstAbsence(q: Request, d: Dependency, s: Stage, x: OpID) {
    exists c :: 0 <= c < |q.del| && AbsenceTracked(q, d, s, c) && x == ResourceOpID(TypeTrackAbsence, 0, q.del[c].id)
      && forall k :: 0 <= k < c ==> !AbsenceTracked(q, d, s, k)
  }

  lemma DeployTargetIs(q: Request, i: nat, d: Dependency, x: OpID)
    requires i < |q.inst|
    ensures DeployTarget(Requested(q).ops.Keys, q.del, q.inst, d, q.inst[i].stage) == Some(x) <==>
      DeployWaitsFor(q, i, d, x)
  {
    var ids, s := Requested(q).ops.Keys, q.inst[i].stage;
    match d.state
    case Present =>
      FoundIsFirst(q, DeployedOne, d, s);
    case Ready =>
      FoundIsFirst(q, TrackedOne, d, s);
    case Absent =>
      FirstAbsenceIs(q, d, s, x);
  }

  lemma FirstAbsenceIs(q: Request, d: Dependency, s: Stage, x: OpID)
    ensures var found := AbsenceOps(Requested(q).ops.Keys, q.del, q.inst, d, s);
      (found != [] && found[0] == x) <==>
        AbsenceToSee(q, d, s, x) && (AnyAbsenceTracked(q, d, s) ==> IsFirstAbsence(q, d, s, x))
  {
    if AnyAbsenceTracked(q, d, s) {
      FirstDeletedIs(q, d, s);
      AbsenceOpsAre(q, d, s, x);
    } else {
      DeletedFoundIff(q, d, s);
      FoundIsFirst(q, CleanedUpOne, d, s);
    }
  }

  /** With deleted resources to wait for, what is found first is the absence of the first of them. */
  lemma FirstDeletedIs(q: Request, d: Dependency, s: Stage)
    requires AnyAbsenceTracked(q, d, s)
    ensures var found := AbsenceOps(Requested(q).ops.Keys, q.del, q.inst, d, s);
      found != [] && found[0] in found && forall x :: IsFirstAbsence(q, d, s, x) <==> x == found[0]
  {
    var ids := Requested(q).ops.Keys;
    var c :| 0 <= c < |q.del| && AbsenceTracked(q, d, s, c);
    assert DeletedMatch(q.del[c], d, s) && AbsenceID(q.del[c]) in ids;
    var m := FirstDeleted(ids, q.del, d, s, |q.del|, c);
    FirstAbsenceOf(q, d, s, m);
  }

  lemma FirstAbsenceOf(q: Request, d: Dependency, s: Stage, m: nat)
    requires m < |q.del| && AbsenceTracked(q, d, s, m)
    requires forall k :: 0 <= k < |q.del| && AbsenceTracked(q, d, s, k) ==> m <= k
    ensures forall x :: IsFirstAbsence(q, d, s, x) <==> x == ResourceOpID(TypeTrackAbsence, 0, q.del[m].id)
  {
  }

  /** `y` deploys info `i`, which has to wait for `x` because of a dependency. */
  ghost predicate DeploymentWaits(q: Request, i: int, d: Dependency, x: OpID, y: OpID) {
    && 0 <= i < |q.inst| && q.inst[i].mustInstall != InstallNone && y == DeployOp(q.inst[i]).ID()
    && DependsOn(q.inst[i], d) && DeployWaitsFor(q, i, d, x)
  }

  /** Dependencies add exactly the edges from what they wait for. */
  lemma DependencyEdgesExactly(q: Request, x: OpID, y: OpID)
    ensures (x, y) in DependencyEdges(q) <==>
      || (exists i, d :: DeploymentWaits(q, i, d, x, y))
      || (exists i :: 0 <= i < |q.del| && y == ResourceOpID(TypeDelete, 0, q.del[i].id) && DeletionWaitsFor(q, i, x))
  {
    var ids := Requested(q).ops.Keys;
    if (x, y) in DeployDepEdges(ids, q.del, q.inst, |q.inst|) {
      var i, d := DeployDepEdgeOrigin(ids, q.del, q.inst, |q.inst|, (x, y));
      DeployTargetIs(q, i, d, x);
      assert DeploymentWaits(q, i, d, x, y);
    }
    if (x, y) in DeleteDepEdges(ids, q.del, q.inst, |q.del|) {
      var i, d := DeleteDepEdgeOrigin(ids, q.del, q.inst, |q.del|, (x, y));
      AbsenceOpsAre(q, d, q.del[i].stage, x);
    }
    if i, d :| DeploymentWaits(q, i, d, x, y) {
      DeployTargetIs(q, i, d, x);
      DeployEdgeThere(q, i, d, x);
    }
    if i :| 0 <= i < |q.del| && y == ResourceOpID(TypeDelete, 0, q.del[i].id) && DeletionWaitsFor(q, i, x) {
      var d :| d in q.del[i].deps && AbsenceToSee(q, d, q.del[i].stage, x);
      AbsenceOpsAre(q, d, q.del[i].stage, x);
      DeletionEdgeThere(q, i, d, x);
    }
  }

  lemma DeployEdgeThere(q: Request, i: nat, d: Dependency, x: OpID)
    requires i < |q.inst| && q.inst[i].mustInstall != InstallNone && DependsOn(q.inst[i], d)
    requires DeployTarget(Requested(q).ops.Keys, q.del, q.inst, d, q.inst[i].stage) == Some(x)
    ensures (x, DeployOp(q.inst[i]).ID()) in DependencyEdges(q)
  {
    var ids, deps := Requested(q).ops.Keys, Deps(q.inst[i]);
    assert d in deps;
    var k :| 0 <= k < |deps| && deps[k] == d;
    InfoEdgeIn(ids, q.del, q.inst, q.inst[i], deps, |deps|, k);
    EdgesOfIn(ids, q.del, q.inst, |q.inst|, i);
    assert (x, DeployOp(q.inst[i]).ID()) in DeployEdge(ids, q.del, q.inst, q.inst[i], d);
  }

  lemma DeletionEdgeThere(q: Request, i: nat, d: Dependency, x: OpID)
    requires i < |q.del| && q.del[i].mustDelete && d in q.del[i].deps
    requires x in AbsenceOps(Requested(q).ops.Keys, q.del, q.inst, d, q.del[i].stage)
    ensures (x, DeleteID(q.del[i])) in DependencyEdges(q)
  {
    var ids := Requested(q).ops.Keys;
    var k :| 0 <= k < |q.del[i].deps| && q.del[i].deps[k] == d;
    DeletedEdgeIn(ids, q.del, q.inst, q.del[i], |q.del[i].deps|, k, x);
    DeletedEdgesIn(ids, q.del, q.inst, |q.del|, i);
  }

  // ----- the operations of one resource -----

  lemma InstallChainLinked(q: Request, k: nat)
    requires NoCollisions(q) && k < |q.inst|
    ensures Linked(Described(q), InstallChain(q.inst[k]))
  {
    var cs: seq<Chain> := InstallChains(q.inst);
    PartsGrow(q);
    NoCollisionsMeans(q);
    ChainsLinked(Deleted(q), cs, Described(q), k);
  }

  lemma DeployedThenTracked(h: Graph, i: InstallableInfo)
    requires Linked(h, InstallChain(i)) && i.mustInstall != InstallNone
    ensures i.mustTrackReadiness ==> Precedes(h.edges, DeployOp(i).ID(), ReadinessOp(i).ID())
    ensures i.mustDeleteOnSuccess ==> Precedes(h.edges, DeployOp(i).ID(), CleanupOp(i).ID())
    ensures forall n :: 0 <= n < |i.res.externalDeps| ==>
      Precedes(h.edges, ResourceOpID(TypeTrackPresence, 0, i.res.externalDeps[n]), DeployOp(i).ID())
  {
    ChainPositions(i);
    var c, e, t := InstallChain(i), |i.res.externalDeps|, if i.mustTrackReadiness then 1 else 0;
    if i.mustTrackReadiness { ChainOrder(h, c, e, e + 1); }
    if i.mustDeleteOnSuccess { ChainOrder(h, c, e, e + 1 + t); }
    forall n | 0 <= n < e
      ensures Precedes(h.edges, ResourceOpID(TypeTrackPresence, 0, i.res.externalDeps[n]), DeployOp(i).ID())
    {
      ChainOrder(h, c, n, e);
    }
  }

  lemma TrackedThenCleanedUp(h: Graph, i: InstallableInfo)
    requires Linked(h, InstallChain(i)) && i.mustDeleteOnSuccess
    ensures i.mustTrackReadiness ==> Precedes(h.edges, ReadinessOp(i).ID(), CleanupOp(i).ID())
    ensures Precedes(h.edges, CleanupOp(i).ID(), CleanupTrackOp(i).ID())
  {
    ChainPositions(i);
    var c := InstallChain(i);
    var n := |c| - 2;
    if i.mustTrackReadiness { ChainOrder(h, c, n - 1, n); }
    ChainOrder(h, c, n, n + 1);
  }

  /** A resource is deployed after its external dependencies were seen, tracked after it was
      deployed, cleaned up after all of that, and its absence is tracked last. */
  lemma ResourceOpsInOrder(q: Request, k: nat)
    requires NoCollisions(q) && k < |q.inst|
    ensures var i, E := q.inst[k], Described(q).edges;
      && (i.mustInstall != InstallNone ==> forall n :: 0 <= n < |i.res.externalDeps| ==>
            Precedes(E, ResourceOpID(TypeTrackPresence, 0, i.res.externalDeps[n]), DeployOp(i).ID()))
      && (i.mustInstall != InstallNone && i.mustTrackReadiness ==> Precedes(E, DeployOp(i).ID(), ReadinessOp(i).ID()))
      && (i.mustInstall != InstallNone && i.mustDeleteOnSuccess ==> Precedes(E, DeployOp(i).ID(), CleanupOp(i).ID()))
      && (i.mustTrackReadiness && i.mustDeleteOnSuccess ==> Precedes(E, ReadinessOp(i).ID(), CleanupOp(i).ID()))
      && (i.mustDeleteOnSuccess ==> Precedes(E, CleanupOp(i).ID(), CleanupTrackOp(i).ID()))
  {
    InstallChainLinked(q, k);
    var h, i := Described(q), q.inst[k];
    if i.mustInstall != InstallNone { DeployedThenTracked(h, i); }
    if i.mustDeleteOnSuccess { TrackedThenCleanedUp(h, i); }
  }

  // ----- iterations -----

  /** Infos come ordered by stage, and the infos of one resource are in different stages. */
  ghost predicate StageSorted(s: seq<InstallableInfo>) {
    forall i, k :: 0 <= i < k < |s| ==>
      && StageIndex(s[i].stage) <= StageIndex(s[k].stage)
      && (s[i].res.id == s[k].res.id ==> s[i].stage != s[k].stage)
  }

  /** The clean-up stage of a deploy stage comes before every later deploy stage. */
  lemma LaterStage(i: InstallableInfo, k: InstallableInfo, x: Operation, a: StageRef, y: Operation, b: StageRef)
    requires Sound(i) && Sound(k) && StageIndex(i.stage) < StageIndex(k.stage)
    requires OperationOf(i, x, a) && OperationOf(k, y, b)
    ensures RefBefore(a, b)
  {
  }

  /** Everything done for a resource in its earlier stage, its clean-up included, precedes
      everything done for it in its later one. */
  lemma IterationsInOrder(q: Request, h: Graph, noFinalTracking: bool, i: nat, k: nat, x: Operation, a: StageRef,
                          y: Operation, b: StageRef)
    requires Built(q, h, noFinalTracking) && StageSorted(q.inst) && i < k < |q.inst|
    requires Sound(q.inst[i]) && Sound(q.inst[k]) && q.inst[i].res.id == q.inst[k].res.id
    requires OperationOf(q.inst[i], x, a) && OperationOf(q.inst[k], y, b)
    ensures Precedes(Described(q).edges, x.ID(), y.ID())
    ensures x.ID() in h.ops && y.ID() in h.ops ==> Precedes(h.edges, x.ID(), y.ID())
  {
    InstallOpStands(q, i, x, a);
    InstallOpStands(q, k, y, b);
    assert StageIndex(q.inst[i].stage) < StageIndex(q.inst[k].stage);
    LaterStage(q.inst[i], q.inst[k], x, a, y, b);
    StagesInOrder(q, h, noFinalTracking, x.ID(), a, y.ID(), b);
  }

  // ----- where operations come from -----

  /** A resource operation of the plan is one of a chain to delete or to install a resource. */
  lemma ResourceOpOrigin(q: Request, id: OpID)
    requires id in Described(q).ops && id.config.ResourceKey?
    ensures (exists k :: 0 <= k < |q.del| && PlacedBy(Described(q), DeleteChain(q.del[k]), id))
         || (exists k :: 0 <= k < |q.inst| && PlacedBy(Described(q), InstallChain(q.inst[k]), id))
  {
    PartsGrow(q);
    StagesAreBrackets(q);
    var ins: seq<Chain> := InstallChains(q.inst);
    var dels: seq<Chain> := DeleteChains(q.del);
    ChainOrigin(Deleted(q), ins, |ins|, id);
    if id !in Deleted(q).ops {
      var k :| 0 <= k < |ins| && PlacedBy(Requested(q), ins[k], id);
      PlacedByGrows(Requested(q), Described(q), ins[k], id);
    } else {
      ChainOrigin(Released(q), dels, |dels|, id);
      ReleasedHasNoResource(q, id);
      var k :| 0 <= k < |dels| && PlacedBy(Deleted(q), dels[k], id);
      PlacedByGrows(Deleted(q), Described(q), dels[k], id);
    }
  }

  ghost predicate NoResources(cs: seq<Chain>) {
    forall k, i :: 0 <= k < |cs| && 0 <= i < |cs[k]| ==> !cs[k][i].op.ID().config.ResourceKey?
  }

  lemma ReleaseNoResources(rel: seq<ReleaseInfo>)
    ensures NoResources(ReleaseChains(rel))
  {
  }

  lemma NotAdded(g: Graph, cs: seq<Chain>, id: OpID)
    requires NoResources(cs) && id.config.ResourceKey? && id !in g.ops
    ensures id !in AfterAll(g, cs).ops
  {
    if id in AfterAll(g, cs).ops { ChainOrigin(g, cs, |cs|, id); }
  }

  lemma ReleasedHasNoResource(q: Request, id: OpID)
    requires id.config.ResourceKey?
    ensures id !in Released(q).ops
  {
    StagesAreBrackets(q);
    ReleaseNoResources(q.rel);
    NotAdded(Weighted(q), ReleaseChains(q.rel), id);
  }

  lemma InstallChainOps(i: InstallableInfo, n: nat)
    requires n < |InstallChain(i)| && InstallChain(i)[n].op.typ != TypeTrackPresence
    ensures (i.mustInstall != InstallNone && InstallChain(i)[n].op == DeployOp(i))
         || (i.mustTrackReadiness && InstallChain(i)[n].op == ReadinessOp(i))
         || (i.mustDeleteOnSuccess && InstallChain(i)[n].op in {CleanupOp(i), CleanupTrackOp(i)})
  {
  }

  lemma InstallOrigin(g: Graph, i: InstallableInfo, id: OpID)
    requires PlacedBy(g, InstallChain(i), id) && id.typ in {TypeCreate, TypeUpdate, TypeRecreate, TypeApply, TypeDelete}
    ensures id.iteration == i.iteration && id.config == ResourceKey(i.res.id)
    ensures (i.mustInstall != InstallNone && DeployOpType(i.mustInstall) == id.typ)
      || (id.typ == TypeDelete && i.mustDeleteOnSuccess)
  {
    var n :| 0 <= n < |InstallChain(i)| && PlacedAs(g, InstallChain(i)[n], id);
    InstallChainOps(i, n);
  }

  /** An operation of an info's chain, other than waiting for others' resources, is one of its own. */
  lemma OwnOperation(g: Graph, i: InstallableInfo, id: OpID) returns (op: Operation, ref: StageRef)
    requires PlacedBy(g, InstallChain(i), id) && id.typ != TypeTrackPresence && Sound(i)
    ensures OperationOf(i, op, ref) && op.ID() == id
    ensures id.iteration == i.iteration && id.config == ResourceKey(i.res.id)
  {
    var n :| 0 <= n < |InstallChain(i)| && PlacedAs(g, InstallChain(i)[n], id);
    InstallChainOps(i, n);
    op := InstallChain(i)[n].op;
    ref := if op in {CleanupOp(i), CleanupTrackOp(i)} then CleanupRef(i).value else DeployRef(i);
  }

  lemma DeleteOrigin(g: Graph, d: DeletableInfo, id: OpID)
    requires PlacedBy(g, DeleteChain(d), id)
    ensures d.mustDelete && id.config == ResourceKey(d.id) && id.typ in {TypeDelete, TypeTrackAbsence}
  {
  }

  /** An operation on a resource stands between the initial and the final stage, if deletions do. */
  lemma ResourceOpStage(q: Request, id: OpID) returns (ref: StageRef)
    requires id in Described(q).ops && id.config.ResourceKey?
    requires forall i :: 0 <= i < |q.inst| ==> Sound(q.inst[i])
    requires forall i :: 0 <= i < |q.del| ==> q.del[i].stage !in {Init, Final}
    ensures Placed(Described(q), id, ref) && ref.stage !in {Init, Final}
  {
    var g := Described(q);
    ResourceOpOrigin(q, id);
    if k :| 0 <= k < |q.del| && PlacedBy(g, DeleteChain(q.del[k]), id) {
      ref := DeletedIn(g, q.del[k], id);
    } else {
      var k :| 0 <= k < |q.inst| && PlacedBy(g, InstallChain(q.inst[k]), id);
      ref := InstalledIn(g, q.inst[k], id);
    }
  }

  lemma DeletedIn(g: Graph, i: DeletableInfo, id: OpID) returns (ref: StageRef)
    requires PlacedBy(g, DeleteChain(i), id) && i.stage !in {Init, Final}
    ensures Placed(g, id, ref) && ref.stage !in {Init, Final}
  {
    ref := MainStage(i.stage);
  }

  lemma InstalledIn(g: Graph, i: InstallableInfo, id: OpID) returns (ref: StageRef)
    requires PlacedBy(g, InstallChain(i), id) && Sound(i)
    ensures Placed(g, id, ref) && ref.stage !in {Init, Final}
  {
    var n :| 0 <= n < |InstallChain(i)| && PlacedAs(g, InstallChain(i)[n], id);
    StepStages(i, n);
    ref := InstallChain(i)[n].stage.value;
  }

  lemma StepStages(i: InstallableInfo, n: nat)
    requires Sound(i) && n < |InstallChain(i)|
    ensures InstallChain(i)[n].stage.Some?
    ensures InstallChain(i)[n].stage == Some(DeployRef(i))
      || (i.mustDeleteOnSuccess && InstallChain(i)[n].stage == CleanupRef(i))
  {
    ChainPositions(i);
  }

  /** No plan deploys or cleans up a resource in a way that its policies forbid. */
  lemma PoliciesRespected(q: Request, h: Graph, noFinalTracking: bool, i: nat)
    requires Built(q, h, noFinalTracking) && UniqueIterations(q.inst) && i < |q.inst|
    requires forall k :: 0 <= k < |q.inst| ==> Sound(q.inst[k])
    ensures ResourceOpID(TypeCreate, q.inst[i].iteration, q.inst[i].res.id) in h.ops ==>
      SkipCreate !in q.inst[i].res.policies
    ensures ResourceOpID(TypeUpdate, q.inst[i].iteration, q.inst[i].res.id) in h.ops ==>
      SkipUpdate !in q.inst[i].res.policies
    ensures ResourceOpID(TypeRecreate, q.inst[i].iteration, q.inst[i].res.id) in h.ops ==>
      SkipRecreate !in q.inst[i].res.policies
    ensures ResourceOpID(TypeApply, q.inst[i].iteration, q.inst[i].res.id) in h.ops ==>
      SkipCreate !in q.inst[i].res.policies && SkipUpdate !in q.inst[i].res.policies
    ensures ResourceOpID(TypeDelete, q.inst[i].iteration, q.inst[i].res.id) in h.ops ==>
      || (SkipDelete !in q.inst[i].res.policies && !LiveForbidsDelete(q.inst[i].live))
      || exists d :: d in q.del && d.mustDelete && d.id == q.inst[i].res.id
  {
    PolicyOf(q, i, TypeCreate);
    PolicyOf(q, i, TypeUpdate);
    PolicyOf(q, i, TypeRecreate);
    PolicyOf(q, i, TypeApply);
    PolicyOf(q, i, TypeDelete);
  }

  /** What an operation of a given type on info `i` says about it. */
  lemma PolicyOf(q: Request, i: nat, typ: OpType)
    requires UniqueIterations(q.inst) && i < |q.inst|
      && typ in {TypeCreate, TypeUpdate, TypeRecreate, TypeApply, TypeDelete}
    ensures ResourceOpID(typ, q.inst[i].iteration, q.inst[i].res.id) in Described(q).ops ==>
      || (q.inst[i].mustInstall != InstallNone && DeployOpType(q.inst[i].mustInstall) == typ)
      || (typ == TypeDelete && q.inst[i].mustDeleteOnSuccess)
      || (typ == TypeDelete && exists d :: d in q.del && d.mustDelete && d.id == q.inst[i].res.id)
  {
    var g, id := Described(q), ResourceOpID(typ, q.inst[i].iteration, q.inst[i].res.id);
    if id in g.ops {
      ResourceOpOrigin(q, id);
      if k :| 0 <= k < |q.del| && PlacedBy(g, DeleteChain(q.del[k]), id) {
        DeleteOrigin(g, q.del[k], id);
        assert q.del[k] in q.del;
      } else {
        var k :| 0 <= k < |q.inst| && PlacedBy(g, InstallChain(q.inst[k]), id);
        InstallOrigin(g, q.inst[k], id);
        assert k == i;
      }
    }
  }
}
