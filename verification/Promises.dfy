/** What a built plan promises of the resources that were decided upon (pkg/plan/resource_info.go,
    pkg/plan/plan_build.go): exactly which operations it has, in which order they come, and what
    they wait for. Everything is said of the cases, in the order of their stages. */
module Promises {
  import opened Operations
  import opened Precedence
  import opened PlanGraph
  import opened Chains
  import opened ResourceInfo
  import opened ReleaseInfo
  import opened PlanRequest
  import opened PlanBuild
  import opened Builder
  import opened StageOrder
  import opened PlanProperties
  import opened Collisions
  import opened Scheduler
  import opened StartOrders
  import opened FailurePlan
  import opened Pipeline

  // ----- the operations of a case -----

  ghost function IDOf(os: seq<Case>, k: nat, typ: OpType): OpID
    requires k < |os|
  {
    ResourceOpID(typ, Iteration(os, k), os[k].res.id)
  }

  /** The case asks for an operation of this type. */
  ghost predicate Asked(os: seq<Case>, k: nat, typ: OpType)
    requires k < |os|
  {
    match typ
    case TypeCreate => InstallOf(os, k) == InstallCreate
    case TypeRecreate => InstallOf(os, k) == InstallRecreate
    case TypeUpdate => InstallOf(os, k) == InstallUpdate
    case TypeApply => InstallOf(os, k) == InstallApply
    case TypeTrackReadiness => Tracked(os, os[k])
    case TypeDelete => CleanedUp(os[k])
    case TypeTrackAbsence => CleanedUp(os[k])
    case _ => false
  }

  ghost predicate Deploying(typ: OpType) {
    typ in {TypeCreate, TypeRecreate, TypeUpdate, TypeApply}
  }

  ghost predicate Watching(typ: OpType) {
    typ in {TypeTrackReadiness, TypeTrackAbsence}
  }

  /** Deploying, tracking readiness, deleting and tracking absence, in this order. */
  ghost function Turn(typ: OpType): nat {
    match typ
    case TypeTrackReadiness => 1
    case TypeDelete => 2
    case TypeTrackAbsence => 3
    case _ => 0
  }

  /** Clean-ups come in the stage after the one in which the resource is deployed. */
  ghost function StageNumber(c: Case, typ: OpType): nat {
    StageIndex(c.stage) + if typ in {TypeDelete, TypeTrackAbsence} then 1 else 0
  }

  /** An earlier stage, or, deploying or tracking readiness, a lower weight in the same one. */
  ghost predicate StageBefore(a: Case, x: OpType, b: Case, y: OpType) {
    || StageNumber(a, x) < StageNumber(b, y)
    || (a.stage == b.stage && a.res.weight.Some? && b.res.weight.Some? && a.res.weight.value < b.res.weight.value
        && Turn(x) <= 1 && Turn(y) <= 1)
  }

  lemma AskedOperation(os: seq<Case>, t: seq<InstallableInfo>, k: nat, typ: OpType)
      returns (op: Operation, ref: StageRef)
    requires AllRealized(os, t) && k < |os| && Asked(os, k, typ)
    ensures OperationOf(t[k], op, ref) && op.ID() == IDOf(os, k, typ)
    ensures op.category == if Watching(typ) then CategoryTrack else CategoryResource
    ensures StageIndex(ref.stage) == StageNumber(os[k], typ)
    ensures Turn(typ) <= 1 && os[k].res.weight.Some? ==> ref == SubStage(os[k].stage, os[k].res.weight.value)
  {
    var i := t[k];
    assert Realizes(os, k, i);
    if Deploying(typ) {
      op, ref := DeployOp(i), DeployRef(i);
    } else if typ == TypeTrackReadiness {
      op, ref := ReadinessOp(i), DeployRef(i);
    } else {
      op := if typ == TypeDelete then CleanupOp(i) else CleanupTrackOp(i);
      ref := CleanupRef(i).value;
    }
  }

  lemma OperationAsked(os: seq<Case>, t: seq<InstallableInfo>, k: nat, op: Operation, ref: StageRef)
    requires AllRealized(os, t) && k < |os| && OperationOf(t[k], op, ref)
    ensures Asked(os, k, op.typ) && op.ID() == IDOf(os, k, op.typ)
  {
    assert Realizes(os, k, t[k]);
  }

  // ----- which operations a plan has -----

  /** Some deletable resource asks for the operation. */
  ghost predicate AskedByDeletion(del: seq<DeletableInfo>, x: OpID) {
    exists d :: d in del && IsDeletionOp(d, x)
  }

  ghost predicate AskedByCase(os: seq<Case>, x: OpID) {
    exists k :: 0 <= k < |os| && Asked(os, k, x.typ) && x == IDOf(os, k, x.typ)
  }

  /** The plan has all that is asked for, though without final tracking perhaps not all tracking,
      and on resources nothing that is not asked for, except tracking what others depend upon. */
  ghost predicate HasWhatIsAsked(os: seq<Case>, del: seq<DeletableInfo>, h: Graph, noFinalTracking: bool) {
    && (forall k, typ :: 0 <= k < |os| && Asked(os, k, typ) && (noFinalTracking ==> !Watching(typ)) ==>
      IDOf(os, k, typ) in h.ops)
    && (forall x :: AskedByDeletion(del, x) && (noFinalTracking ==> !Watching(x.typ)) ==> x in h.ops)
    && (forall x :: x in h.ops && x.config.ResourceKey? && x.typ != TypeTrackPresence ==>
      AskedByCase(os, x) || AskedByDeletion(del, x))
  }

  lemma AskedIsThere(os: seq<Case>, q: Request, h: Graph, noFinalTracking: bool, k: nat, typ: OpType)
    requires Built(q, h, noFinalTracking) && AllRealized(os, q.inst) && k < |os| && Asked(os, k, typ)
    ensures IDOf(os, k, typ) in Described(q).ops
    ensures Described(q).ops[IDOf(os, k, typ)].category == if Watching(typ) then CategoryTrack else CategoryResource
    ensures (noFinalTracking ==> !Watching(typ)) ==> IDOf(os, k, typ) in h.ops
  {
    var op, ref := AskedOperation(os, q.inst, k, typ);
    InstallOpStands(q, k, op, ref);
  }

  lemma DeletionIsThere(q: Request, h: Graph, noFinalTracking: bool, x: OpID)
    requires Built(q, h, noFinalTracking) && AskedByDeletion(q.del, x)
    ensures x in Described(q).ops && ((noFinalTracking ==> !Watching(x.typ)) ==> x in h.ops)
  {
    var d :| d in q.del && IsDeletionOp(d, x);
    var k :| 0 <= k < |q.del| && q.del[k] == d;
    DeletionStands(q, k);
    if x.typ == TypeTrackAbsence { AbsenceInPlan(q, k); }
  }

  lemma EverythingAsked(os: seq<Case>, q: Request, x: OpID)
    requires AllRealized(os, q.inst) && x in Described(q).ops && x.config.ResourceKey? && x.typ != TypeTrackPresence
    ensures AskedByCase(os, x) || AskedByDeletion(q.del, x)
  {
    var g := Described(q);
    ResourceOpOrigin(q, x);
    if k :| 0 <= k < |q.del| && PlacedBy(g, DeleteChain(q.del[k]), x) {
      var n :| 0 <= n < |DeleteChain(q.del[k])| && PlacedAs(g, DeleteChain(q.del[k])[n], x);
      DeletionOps(q.del[k], x);
      assert q.del[k] in q.del;
    } else {
      var k :| 0 <= k < |q.inst| && PlacedBy(g, InstallChain(q.inst[k]), x);
      var op, ref := OwnOperation(g, q.inst[k], x);
      OperationAsked(os, q.inst, k, op, ref);
    }
  }

  lemma PlanHasWhatIsAsked(os: seq<Case>, q: Request, h: Graph, noFinalTracking: bool)
    requires Built(q, h, noFinalTracking) && AllRealized(os, q.inst)
    ensures HasWhatIsAsked(os, q.del, h, noFinalTracking)
  {
    forall k, typ | 0 <= k < |os| && Asked(os, k, typ) && (noFinalTracking ==> !Watching(typ))
      ensures IDOf(os, k, typ) in h.ops
    {
      AskedIsThere(os, q, h, noFinalTracking, k, typ);
    }
    forall x | AskedByDeletion(q.del, x) && (noFinalTracking ==> !Watching(x.typ)) ensures x in h.ops {
      DeletionIsThere(q, h, noFinalTracking, x);
    }
    forall x | x in h.ops && x.config.ResourceKey? && x.typ != TypeTrackPresence
      ensures AskedByCase(os, x) || AskedByDeletion(q.del, x)
    {
      EverythingAsked(os, q, x);
    }
  }

  // ----- the order of operations -----

  /** The operations of a case come one after the other, and after what it depends upon from
      outside the release. */
  ghost predicate CasesInOrder(os: seq<Case>, h: Graph) {
    && (forall k, x, y ::
          0 <= k < |os| && Asked(os, k, x) && Asked(os, k, y) && Turn(x) < Turn(y)
          && IDOf(os, k, x) in h.ops && IDOf(os, k, y) in h.ops ==>
          Precedes(h.edges, IDOf(os, k, x), IDOf(os, k, y)))
    && (forall k, x, e :: 0 <= k < |os| && Asked(os, k, x) && Deploying(x) && e in os[k].res.externalDeps ==>
          ResourceOpID(TypeTrackPresence, 0, e) in h.ops
            && Precedes(h.edges, ResourceOpID(TypeTrackPresence, 0, e), IDOf(os, k, x)))
  }

  /** Stage by stage, and weight by weight. */
  ghost predicate StagesKept(os: seq<Case>, h: Graph) {
    forall k, x, m, y ::
      0 <= k < |os| && 0 <= m < |os| && Asked(os, k, x) && Asked(os, m, y)
      && StageBefore(os[k], x, os[m], y) && IDOf(os, k, x) in h.ops && IDOf(os, m, y) in h.ops ==>
      Precedes(h.edges, IDOf(os, k, x), IDOf(os, m, y))
  }

  lemma AskedPrecedes(os: seq<Case>, q: Request, k: nat, x: OpType, y: OpType)
    requires NoCollisions(q) && AllRealized(os, q.inst) && k < |os|
    requires Asked(os, k, x) && Asked(os, k, y) && Turn(x) < Turn(y)
    ensures Precedes(Described(q).edges, IDOf(os, k, x), IDOf(os, k, y))
  {
    var a, ra := AskedOperation(os, q.inst, k, x);
    var b, rb := AskedOperation(os, q.inst, k, y);
    assert Realizes(os, k, q.inst[k]);
    ResourceOpsInOrder(q, k);
    PrecedesTransAll(Described(q).edges);
  }

  lemma KeptPrecedence(q: Request, h: Graph, noFinalTracking: bool, x: OpID, y: OpID)
    requires Built(q, h, noFinalTracking) && Precedes(Described(q).edges, x, y) && x in h.ops && y in h.ops
    ensures Precedes(h.edges, x, y)
  {
  }

  lemma ExternalFirst(os: seq<Case>, q: Request, h: Graph, noFinalTracking: bool, k: nat, x: OpType, e: string)
    requires Built(q, h, noFinalTracking) && AllRealized(os, q.inst) && k < |os|
    requires Asked(os, k, x) && Deploying(x) && e in os[k].res.externalDeps
    ensures ResourceOpID(TypeTrackPresence, 0, e) in h.ops
    ensures Precedes(h.edges, ResourceOpID(TypeTrackPresence, 0, e), IDOf(os, k, x))
  {
    var op, ref := AskedOperation(os, q.inst, k, x);
    assert Realizes(os, k, q.inst[k]);
    AskedIsThere(os, q, h, noFinalTracking, k, x);
    ResourceOpsInOrder(q, k);
    var n :| 0 <= n < |os[k].res.externalDeps| && os[k].res.externalDeps[n] == e;
    var p := ResourceOpID(TypeTrackPresence, 0, e);
    assert q.inst[k].res.externalDeps[n] == e;
    PrecedesWithin(Described(q).edges, Described(q).ops.Keys, p, IDOf(os, k, x));
    AwaitedOpKept(q, h, noFinalTracking, p, IDOf(os, k, x));
  }

  lemma PlanKeepsCasesInOrder(os: seq<Case>, q: Request, h: Graph, noFinalTracking: bool)
    requires Built(q, h, noFinalTracking) && AllRealized(os, q.inst)
    ensures CasesInOrder(os, h)
  {
    forall k, x, y | 0 <= k < |os| && Asked(os, k, x) && Asked(os, k, y) && Turn(x) < Turn(y)
      && IDOf(os, k, x) in h.ops && IDOf(os, k, y) in h.ops
      ensures Precedes(h.edges, IDOf(os, k, x), IDOf(os, k, y))
    {
      AskedPrecedes(os, q, k, x, y);
      KeptPrecedence(q, h, noFinalTracking, IDOf(os, k, x), IDOf(os, k, y));
    }
    forall k, x, e | 0 <= k < |os| && Asked(os, k, x) && Deploying(x) && e in os[k].res.externalDeps
      ensures ResourceOpID(TypeTrackPresence, 0, e) in h.ops
        && Precedes(h.edges, ResourceOpID(TypeTrackPresence, 0, e), IDOf(os, k, x))
    {
      ExternalFirst(os, q, h, noFinalTracking, k, x, e);
    }
  }

  lemma PlanKeepsStages(os: seq<Case>, q: Request, h: Graph, noFinalTracking: bool)
    requires Built(q, h, noFinalTracking) && AllRealized(os, q.inst)
    ensures StagesKept(os, h)
  {
    forall k, x, m, y | 0 <= k < |os| && 0 <= m < |os| && Asked(os, k, x) && Asked(os, m, y)
      && StageBefore(os[k], x, os[m], y) && IDOf(os, k, x) in h.ops && IDOf(os, m, y) in h.ops
      ensures Precedes(h.edges, IDOf(os, k, x), IDOf(os, m, y))
    {
      var a, ra := AskedOperation(os, q.inst, k, x);
      var b, rb := AskedOperation(os, q.inst, m, y);
      InstallOpStands(q, k, a, ra);
      InstallOpStands(q, m, b, rb);
      StagesInOrder(q, h, noFinalTracking, IDOf(os, k, x), ra, IDOf(os, m, y), rb);
    }
  }

  // ----- dependencies -----

  ghost predicate CaseDependsOn(c: Case, d: Dependency) {
    d in c.res.autoDeps || d in c.res.manualDeps
  }

  /** The case is one that the dependency of a case in stage `s` matches, with its operation. */
  ghost predicate Matches(os: seq<Case>, k: nat, d: Dependency, s: Stage, typ: OpType)
    requires k < |os|
  {
    && os[k].stage == s && os[k].res.id in d.matches && Asked(os, k, typ)
    && match d.state
       case Present => Deploying(typ)
       case Ready => typ == TypeTrackReadiness
       case Absent => false
  }

  /** Case `k` does not come before case `m`, in iterations or else in the order of stages. */
  ghost predicate CaseNoEarlier(os: seq<Case>, m: nat, k: nat)
    requires m < |os| && k < |os|
  {
    Iteration(os, m) < Iteration(os, k) || (Iteration(os, m) == Iteration(os, k) && m <= k)
  }

  /** `x` comes after the operation of a case that the dependency matches, the first one of the lowest
      iteration. */
  ghost predicate AfterMatch(os: seq<Case>, h: Graph, d: Dependency, s: Stage, x: OpID) {
    exists m, typ :: 0 <= m < |os| && Matches(os, m, d, s, typ) && IDOf(os, m, typ) in h.ops
      && Precedes(h.edges, IDOf(os, m, typ), x)
      && forall k, y :: 0 <= k < |os| && Matches(os, k, d, s, y) ==> CaseNoEarlier(os, m, k)
  }

  /** `x` comes after the absence of a deleted resource was seen that the dependency matches, none
      listed before it. */
  ghost predicate AfterDeletion(del: seq<DeletableInfo>, h: Graph, d: Dependency, s: Stage, x: OpID) {
    exists c :: 0 <= c < |del| && del[c].stage == s && del[c].id in d.matches
      && ResourceOpID(TypeTrackAbsence, 0, del[c].id) in h.ops
      && Precedes(h.edges, ResourceOpID(TypeTrackAbsence, 0, del[c].id), x)
      && forall k :: 0 <= k < |del| && DeletedTrackedMatch(d, s, del[k]) ==> c <= k
  }

  /** Whatever is deployed waits for each of its dependencies, automatic or manual, that something in
      its stage meets. */
  ghost predicate DependenciesMet(os: seq<Case>, del: seq<DeletableInfo>, h: Graph) {
    forall k, x, d :: 0 <= k < |os| && Asked(os, k, x) && Deploying(x) && CaseDependsOn(os[k], d) ==>
      && ((exists t, y :: 0 <= t < |os| && Matches(os, t, d, os[k].stage, y)) ==>
            AfterMatch(os, h, d, os[k].stage, IDOf(os, k, x)))
      && (d.state == Absent && (exists t :: 0 <= t < |del| && DeletedTrackedMatch(d, os[k].stage, del[t])) ==>
            AfterDeletion(del, h, d, os[k].stage, IDOf(os, k, x)))
  }

  lemma MatchMeans(os: seq<Case>, t: seq<InstallableInfo>, k: nat, d: Dependency, s: Stage)
    requires AllRealized(os, t) && k < |os|
    ensures d.state == Present ==> (DeployedMatch(d, s, t[k]) <==> exists typ :: Matches(os, k, d, s, typ))
    ensures d.state == Ready ==> (TrackedMatch(d, s, t[k]) <==> exists typ :: Matches(os, k, d, s, typ))
    ensures t[k].iteration == Iteration(os, k)
  {
    var i := t[k];
    assert Realizes(os, k, i);
    if i.mustInstall != InstallNone { assert Asked(os, k, DeployOpType(i.mustInstall)); }
    if d.state == Present && DeployedMatch(d, s, i) { assert Matches(os, k, d, s, DeployOpType(i.mustInstall)); }
    if d.state == Ready && TrackedMatch(d, s, i) { assert Matches(os, k, d, s, TypeTrackReadiness); }
  }

  lemma DeployID(os: seq<Case>, t: seq<InstallableInfo>, k: nat, typ: OpType)
    requires AllRealized(os, t) && k < |os| && Asked(os, k, typ) && Deploying(typ)
    ensures t[k].mustInstall != InstallNone && DeployOp(t[k]).ID() == IDOf(os, k, typ)
  {
    assert Realizes(os, k, t[k]);
  }

  lemma PresenceMet(os: seq<Case>, q: Request, h: Graph, noFinalTracking: bool, k: nat, x: OpType, d: Dependency,
                    t: nat)
    requires Built(q, h, noFinalTracking) && AllRealized(os, q.inst) && k < |os| && Asked(os, k, x) && Deploying(x)
    requires CaseDependsOn(os[k], d) && d.state == Present
    requires t < |os| && exists y :: Matches(os, t, d, os[k].stage, y)
    ensures AfterMatch(os, h, d, os[k].stage, IDOf(os, k, x))
  {
    var s := os[k].stage;
    assert Realizes(os, k, q.inst[k]);
    DeployID(os, q.inst, k, x);
    MatchMeans(os, q.inst, t, d, s);
    var m := DeployWaitsForPresence(q, h, noFinalTracking, k, d, t);
    MatchMeans(os, q.inst, m, d, s);
    var typ :| Matches(os, m, d, s, typ);
    DeployID(os, q.inst, m, typ);
    forall n, y | 0 <= n < |os| && Matches(os, n, d, s, y) ensures CaseNoEarlier(os, m, n) {
      MatchMeans(os, q.inst, n, d, s);
    }
  }

  lemma ReadinessMet(os: seq<Case>, q: Request, h: Graph, noFinalTracking: bool, k: nat, x: OpType, d: Dependency,
                     t: nat)
    requires Built(q, h, noFinalTracking) && AllRealized(os, q.inst) && k < |os| && Asked(os, k, x) && Deploying(x)
    requires CaseDependsOn(os[k], d) && d.state == Ready
    requires t < |os| && exists y :: Matches(os, t, d, os[k].stage, y)
    ensures AfterMatch(os, h, d, os[k].stage, IDOf(os, k, x))
  {
    var s := os[k].stage;
    assert Realizes(os, k, q.inst[k]);
    DeployID(os, q.inst, k, x);
    MatchMeans(os, q.inst, t, d, s);
    var m := DeployWaitsForReadiness(q, h, noFinalTracking, k, d, t);
    MatchMeans(os, q.inst, m, d, s);
    assert Matches(os, m, d, s, TypeTrackReadiness);
    assert Realizes(os, m, q.inst[m]);
    assert ReadinessOp(q.inst[m]).ID() == IDOf(os, m, TypeTrackReadiness);
    forall n, y | 0 <= n < |os| && Matches(os, n, d, s, y) ensures CaseNoEarlier(os, m, n) {
      MatchMeans(os, q.inst, n, d, s);
    }
  }

  lemma AbsenceMet(os: seq<Case>, q: Request, h: Graph, noFinalTracking: bool, k: nat, x: OpType, d: Dependency, t: nat)
    requires Built(q, h, noFinalTracking) && AllRealized(os, q.inst) && k < |os| && Asked(os, k, x) && Deploying(x)
    requires CaseDependsOn(os[k], d) && d.state == Absent
    requires t < |q.del| && DeletedTrackedMatch(d, os[k].stage, q.del[t])
    ensures AfterDeletion(q.del, h, d, os[k].stage, IDOf(os, k, x))
  {
    assert Realizes(os, k, q.inst[k]);
    DeployID(os, q.inst, k, x);
    var m := DeployWaitsForAbsence(q, h, noFinalTracking, k, d, t);
  }

  lemma PlanMeetsDependencies(os: seq<Case>, q: Request, h: Graph, noFinalTracking: bool)
    requires Built(q, h, noFinalTracking) && AllRealized(os, q.inst)
    ensures DependenciesMet(os, q.del, h)
  {
    forall k, x, d | 0 <= k < |os| && Asked(os, k, x) && Deploying(x) && CaseDependsOn(os[k], d)
      ensures (exists t, y :: 0 <= t < |os| && Matches(os, t, d, os[k].stage, y)) ==>
        AfterMatch(os, h, d, os[k].stage, IDOf(os, k, x))
      ensures d.state == Absent && (exists t :: 0 <= t < |q.del| && DeletedTrackedMatch(d, os[k].stage, q.del[t])) ==>
        AfterDeletion(q.del, h, d, os[k].stage, IDOf(os, k, x))
    {
      if t, y :| 0 <= t < |os| && Matches(os, t, d, os[k].stage, y) {
        if d.state == Present {
          PresenceMet(os, q, h, noFinalTracking, k, x, d, t);
        } else {
          ReadinessMet(os, q, h, noFinalTracking, k, x, d, t);
        }
      }
      if t :| d.state == Absent && 0 <= t < |q.del| && DeletedTrackedMatch(d, os[k].stage, q.del[t]) {
        AbsenceMet(os, q, h, noFinalTracking, k, x, d, t);
      }
    }
  }

  // ----- resources that are only deleted -----

  /** Absence is tracked after the deletion. */
  ghost predicate DeletionsInOrder(del: seq<DeletableInfo>, h: Graph) {
    forall c ::
      0 <= c < |del| && del[c].mustDelete && del[c].mustTrackAbsence
      && ResourceOpID(TypeTrackAbsence, 0, del[c].id) in h.ops ==>
      Precedes(h.edges, ResourceOpID(TypeDelete, 0, del[c].id), ResourceOpID(TypeTrackAbsence, 0, del[c].id))
  }

  /** The case is cleaned up in stage `s`, and the dependency matches it. */
  ghost predicate CleanedUpFor(os: seq<Case>, k: nat, d: Dependency, s: Stage)
    requires k < |os|
  {
    CleanedUp(os[k]) && StageIndex(os[k].stage) + 1 == StageIndex(s) && os[k].res.id in d.matches
  }

  ghost predicate AfterCleanUp(os: seq<Case>, h: Graph, d: Dependency, s: Stage, x: OpID) {
    exists m :: 0 <= m < |os| && CleanedUpFor(os, m, d, s) && IDOf(os, m, TypeTrackAbsence) in h.ops
      && Precedes(h.edges, IDOf(os, m, TypeTrackAbsence), x)
      && forall k :: 0 <= k < |os| && CleanedUpFor(os, k, d, s) ==> CaseNoEarlier(os, m, k)
  }

  ghost predicate NoneDeletedFor(del: seq<DeletableInfo>, d: Dependency, s: Stage) {
    forall c :: 0 <= c < |del| ==> del[c].stage != s || del[c].id !in d.matches
  }

  /** The deletion waits for the absence of every matching resource that is deleted in its stage, or,
      if no such resource matches, of one that is cleaned up there. */
  ghost predicate DeletionWaits(os: seq<Case>, del: seq<DeletableInfo>, h: Graph, i: nat, d: Dependency)
    requires i < |del|
  {
    && (forall t :: 0 <= t < |del| && DeletedTrackedMatch(d, del[i].stage, del[t]) ==>
          ResourceOpID(TypeTrackAbsence, 0, del[t].id) in h.ops
            && Precedes(h.edges, ResourceOpID(TypeTrackAbsence, 0, del[t].id), DeleteID(del[i])))
    && (forall t :: 0 <= t < |os| && CleanedUpFor(os, t, d, del[i].stage) && NoneDeletedFor(del, d, del[i].stage) ==>
          AfterCleanUp(os, h, d, del[i].stage, DeleteID(del[i])))
  }

  ghost predicate DeletionsWait(os: seq<Case>, del: seq<DeletableInfo>, h: Graph) {
    forall i, d :: 0 <= i < |del| && del[i].mustDelete && d in del[i].deps ==> DeletionWaits(os, del, h, i, d)
  }

  lemma DeletionChainLinked(q: Request, c: nat)
    requires NoCollisions(q) && c < |q.del|
    ensures Linked(Described(q), DeleteChain(q.del[c]))
  {
    PartsGrow(q);
    NoCollisionsMeans(q);
    ChainsLinked(Released(q), DeleteChains(q.del), Described(q), c);
  }

  lemma DeletionOrder(q: Request, h: Graph, noFinalTracking: bool, c: nat)
    requires Built(q, h, noFinalTracking) && c < |q.del| && q.del[c].mustDelete && q.del[c].mustTrackAbsence
    requires ResourceOpID(TypeTrackAbsence, 0, q.del[c].id) in h.ops
    ensures Precedes(h.edges, ResourceOpID(TypeDelete, 0, q.del[c].id), ResourceOpID(TypeTrackAbsence, 0, q.del[c].id))
  {
    DeletionChainLinked(q, c);
    DeletionStands(q, c);
    DeleteStepID(q.del[c], 0);
    DeleteStepID(q.del[c], 1);
    ChainOrder(Described(q), DeleteChain(q.del[c]), 0, 1);
  }

  lemma CleanedUpMeans(os: seq<Case>, t: seq<InstallableInfo>, k: nat, d: Dependency, s: Stage)
    requires AllRealized(os, t) && k < |os|
    ensures CleanedUpMatch(d, s, t[k]) <==> CleanedUpFor(os, k, d, s)
    ensures t[k].iteration == Iteration(os, k)
    ensures CleanedUp(os[k]) ==> CleanupTrackOp(t[k]).ID() == IDOf(os, k, TypeTrackAbsence)
  {
    assert Realizes(os, k, t[k]) && Sound(t[k]);
  }

  lemma CleanUpAwaited(os: seq<Case>, q: Request, h: Graph, noFinalTracking: bool, i: nat, d: Dependency, t: nat)
    requires Built(q, h, noFinalTracking) && AllRealized(os, q.inst) && i < |q.del| && q.del[i].mustDelete
    requires d in q.del[i].deps && t < |os| && CleanedUpFor(os, t, d, q.del[i].stage)
    requires NoneDeletedFor(q.del, d, q.del[i].stage)
    ensures AfterCleanUp(os, h, d, q.del[i].stage, DeleteID(q.del[i]))
  {
    var s := q.del[i].stage;
    CleanedUpMeans(os, q.inst, t, d, s);
    var m := DeletionWaitsForCleanUp(q, h, noFinalTracking, i, d, t);
    CleanedUpMeans(os, q.inst, m, d, s);
    forall k | 0 <= k < |os| && CleanedUpFor(os, k, d, s) ensures CaseNoEarlier(os, m, k) {
      CleanedUpMeans(os, q.inst, k, d, s);
    }
  }

  lemma PlanKeepsDeletions(os: seq<Case>, q: Request, h: Graph, noFinalTracking: bool)
    requires Built(q, h, noFinalTracking) && AllRealized(os, q.inst)
    ensures DeletionsInOrder(q.del, h) && DeletionsWait(os, q.del, h)
  {
    forall c | 0 <= c < |q.del| && q.del[c].mustDelete && q.del[c].mustTrackAbsence
      && ResourceOpID(TypeTrackAbsence, 0, q.del[c].id) in h.ops
      ensures
        Precedes(h.edges, ResourceOpID(TypeDelete, 0, q.del[c].id), ResourceOpID(TypeTrackAbsence, 0, q.del[c].id))
    {
      DeletionOrder(q, h, noFinalTracking, c);
    }
    forall i, d | 0 <= i < |q.del| && q.del[i].mustDelete && d in q.del[i].deps
      ensures DeletionWaits(os, q.del, h, i, d)
    {
      PlanKeepsDeletion(os, q, h, noFinalTracking, i, d);
    }
  }

  lemma PlanKeepsDeletion(os: seq<Case>, q: Request, h: Graph, noFinalTracking: bool, i: nat, d: Dependency)
    requires Built(q, h, noFinalTracking) && AllRealized(os, q.inst)
    requires i < |q.del| && q.del[i].mustDelete && d in q.del[i].deps
    ensures DeletionWaits(os, q.del, h, i, d)
  {
    var s := q.del[i].stage;
    forall t | 0 <= t < |q.del| && DeletedTrackedMatch(d, s, q.del[t])
      ensures ResourceOpID(TypeTrackAbsence, 0, q.del[t].id) in h.ops
        && Precedes(h.edges, ResourceOpID(TypeTrackAbsence, 0, q.del[t].id), DeleteID(q.del[i]))
    {
      DeletionWaitsForDeletions(q, h, noFinalTracking, i, d, t);
    }
    forall t | 0 <= t < |os| && CleanedUpFor(os, t, d, s) && NoneDeletedFor(q.del, d, s)
      ensures AfterCleanUp(os, h, d, s, DeleteID(q.del[i]))
    {
      CleanUpAwaited(os, q, h, noFinalTracking, i, d, t);
    }
  }

  // ----- policies, and resources with cases in several stages -----

  ghost predicate Allowed(c: Case, typ: OpType) {
    match typ
    case TypeCreate => SkipCreate !in c.res.policies
    case TypeUpdate => SkipUpdate !in c.res.policies
    case TypeRecreate => SkipRecreate !in c.res.policies
    case TypeApply => SkipCreate !in c.res.policies && SkipUpdate !in c.res.policies
    case TypeDelete => DeletionAllowed(c)
    case _ => true
  }

  /** Nothing is asked for that a policy forbids. */
  ghost predicate PoliciesKept(os: seq<Case>) {
    forall k, typ :: 0 <= k < |os| && Asked(os, k, typ) ==> Allowed(os[k], typ)
  }

  /** Everything for a resource in an earlier stage comes before everything for it in a later one. */
  ghost predicate IterationsApart(os: seq<Case>, h: Graph) {
    forall j, x, k, y ::
      0 <= j < k < |os| && os[j].res.id == os[k].res.id && os[j].stage != os[k].stage
      && Asked(os, j, x) && Asked(os, k, y) && IDOf(os, j, x) in h.ops && IDOf(os, k, y) in h.ops ==>
      Precedes(h.edges, IDOf(os, j, x), IDOf(os, k, y))
  }

  lemma CasesKeepPolicies(os: seq<Case>, t: seq<InstallableInfo>)
    requires AllRealized(os, t)
    ensures PoliciesKept(os)
  {
    forall k, typ | 0 <= k < |os| && Asked(os, k, typ) ensures Allowed(os[k], typ) {
      assert Realizes(os, k, t[k]) && Sound(t[k]);
    }
  }

  lemma EarlierStage(os: seq<Case>, t: seq<InstallableInfo>, j: nat, x: OpType, k: nat, y: OpType)
    requires AllRealized(os, t) && j < |os| && k < |os| && Asked(os, j, x) && Asked(os, k, y)
    requires StageIndex(os[j].stage) < StageIndex(os[k].stage)
    ensures StageBefore(os[j], x, os[k], y)
  {
    assert Realizes(os, j, t[j]) && Realizes(os, k, t[k]) && Sound(t[j]) && Sound(t[k]);
  }

  lemma PlanKeepsIterations(cs: seq<Case>, os: seq<Case>, p: seq<nat>, t: seq<InstallableInfo>, h: Graph)
    requires InPlanOrder(cs, os, p) && AllRealized(os, t) && StagesKept(os, h)
    ensures IterationsApart(os, h)
  {
    forall j, x, k, y | 0 <= j < k < |os| && os[j].res.id == os[k].res.id && os[j].stage != os[k].stage
      && Asked(os, j, x) && Asked(os, k, y) && IDOf(os, j, x) in h.ops && IDOf(os, k, y) in h.ops
      ensures Precedes(h.edges, IDOf(os, j, x), IDOf(os, k, y))
    {
      StageIndexOnce(os[j].stage, os[k].stage);
      EarlierStage(os, t, j, x, k, y);
    }
  }

  lemma StageIndexOnce(a: Stage, b: Stage)
    requires a != b
    ensures StageIndex(a) != StageIndex(b)
  {
  }

  // ----- when the plan fails -----

  /** The case is to be removed should it fail to become ready, and it did. */
  ghost predicate FailedAndRemoved(os: seq<Case>, k: nat, status: map<OpID, Status>)
    requires k < |os|
  {
    var id := IDOf(os, k, TypeTrackReadiness);
    RemovedOnFailure(os[k]) && id in status && status[id] == StatusFailed
  }

  ghost predicate PartOfRemoval(os: seq<Case>, status: map<OpID, Status>, id: OpID) {
    exists k :: 0 <= k < |os| && FailedAndRemoved(os, k, status)
      && id in {IDOf(os, k, TypeDelete), IDOf(os, k, TypeTrackAbsence)}
  }

  lemma RemovedIff(os: seq<Case>, q: Request, h: Graph, noFinalTracking: bool, parallelism: nat, s: State, k: nat)
    requires Built(q, h, noFinalTracking) && AllRealized(os, q.inst) && k < |os|
    requires parallelism > 0 && Reachable(JobOf(h, parallelism), s)
    ensures MustCleanUp(Executed(h.ops, s.status), q.inst[k]) <==> FailedAndRemoved(os, k, s.status)
  {
    assert Realizes(os, k, q.inst[k]) && Sound(q.inst[k]);
    CleanupIffFailed(q, h, noFinalTracking, parallelism, s, Executed(h.ops, s.status), k);
  }

  /** Of resources, a failure plan deletes exactly the cases that are to be removed and have failed to
      become ready, tracks their absence after that, and does nothing else. */
  lemma FailurePlanRemovesFailed(os: seq<Case>, q: Request, h: Graph, noFinalTracking: bool, parallelism: nat, s: State,
                                 f: Graph, failureNoFinalTracking: bool)
    requires Built(q, h, noFinalTracking) && AllRealized(os, q.inst) && UniqueIterations(q.inst)
    requires parallelism > 0 && Reachable(JobOf(h, parallelism), s)
    requires Optimized(FailureGraph(Executed(h.ops, s.status), q.inst, q.rel), f, failureNoFinalTracking)
    ensures forall k :: 0 <= k < |os| ==> (IDOf(os, k, TypeDelete) in f.ops <==> FailedAndRemoved(os, k, s.status))
    ensures forall k :: 0 <= k < |os| && FailedAndRemoved(os, k, s.status) && !failureNoFinalTracking ==>
      IDOf(os, k, TypeTrackAbsence) in f.ops
        && Precedes(f.edges, IDOf(os, k, TypeDelete), IDOf(os, k, TypeTrackAbsence))
    ensures forall id :: id in f.ops && id.config.ResourceKey? ==> PartOfRemoval(os, s.status, id)
  {
    var x := Executed(h.ops, s.status);
    forall k | 0 <= k < |os|
      ensures IDOf(os, k, TypeDelete) in f.ops <==> FailedAndRemoved(os, k, s.status)
      ensures FailedAndRemoved(os, k, s.status) && !failureNoFinalTracking ==>
        IDOf(os, k, TypeTrackAbsence) in f.ops
          && Precedes(f.edges, IDOf(os, k, TypeDelete), IDOf(os, k, TypeTrackAbsence))
    {
      FailedIsRemoved(os, q, h, noFinalTracking, parallelism, s, f, failureNoFinalTracking, k);
    }
    forall id | id in f.ops && id.config.ResourceKey?
      ensures PartOfRemoval(os, s.status, id)
    {
      var k := FailureOpOrigin(x, q.inst, q.rel, id);
      RemovedIff(os, q, h, noFinalTracking, parallelism, s, k);
      assert Realizes(os, k, q.inst[k]);
    }
  }

  lemma FailedIsRemoved(os: seq<Case>, q: Request, h: Graph, noFinalTracking: bool, parallelism: nat, s: State,
                        f: Graph, failureNoFinalTracking: bool, k: nat)
    requires Built(q, h, noFinalTracking) && AllRealized(os, q.inst) && UniqueIterations(q.inst) && k < |os|
    requires parallelism > 0 && Reachable(JobOf(h, parallelism), s)
    requires Optimized(FailureGraph(Executed(h.ops, s.status), q.inst, q.rel), f, failureNoFinalTracking)
    ensures IDOf(os, k, TypeDelete) in f.ops <==> FailedAndRemoved(os, k, s.status)
    ensures FailedAndRemoved(os, k, s.status) && !failureNoFinalTracking ==>
      IDOf(os, k, TypeTrackAbsence) in f.ops
        && Precedes(f.edges, IDOf(os, k, TypeDelete), IDOf(os, k, TypeTrackAbsence))
  {
    var x := Executed(h.ops, s.status);
    assert Realizes(os, k, q.inst[k]) && Sound(q.inst[k]);
    RemovedIff(os, q, h, noFinalTracking, parallelism, s, k);
    CleanedUpIff(q, h, noFinalTracking, parallelism, s, x, k);
    ResourceKept(FailureGraph(x, q.inst, q.rel), f, failureNoFinalTracking, IDOf(os, k, TypeDelete));
    if MustCleanUp(x, q.inst[k]) { CleanupTracked(x, q.inst, q.rel, k); }
  }

  // ----- all promises -----

  /** What a plan promises of the cases it was built from, `os` being these in the order of stages. */
  ghost predicate KeepsPromises(os: seq<Case>, del: seq<DeletableInfo>, h: Graph, noFinalTracking: bool) {
    && HasWhatIsAsked(os, del, h, noFinalTracking) && PoliciesKept(os)
    && CasesInOrder(os, h) && StagesKept(os, h) && IterationsApart(os, h)
    && DependenciesMet(os, del, h) && DeletionsInOrder(del, h) && DeletionsWait(os, del, h)
  }

  /** Through decision, forcing, sorting, iterating and building: a plan has exactly the operations
      that the decisions and the policies ask for, in the order of stages, weights and iterations,
      and whatever has a dependency that is met waits for it. */
  lemma DecidedPlansKeepPromises(cs: seq<Case>, s: seq<InstallableInfo>, q: Request, h: Graph, noFinalTracking: bool)
      returns (os: seq<Case>, p: seq<nat>)
    requires DecidedFrom(cs, s) && FinishedFrom(s, q.inst) && Built(q, h, noFinalTracking)
    ensures InPlanOrder(cs, os, p) && AllRealized(os, q.inst) && KeepsPromises(os, q.del, h, noFinalTracking)
  {
    os, p := PassesRealize(cs, s, q.inst);
    PromisesKept(cs, os, p, q, h, noFinalTracking);
  }

  lemma PromisesKept(cs: seq<Case>, os: seq<Case>, p: seq<nat>, q: Request, h: Graph, noFinalTracking: bool)
    requires InPlanOrder(cs, os, p) && AllRealized(os, q.inst) && Built(q, h, noFinalTracking)
    ensures KeepsPromises(os, q.del, h, noFinalTracking)
  {
    PlanHasWhatIsAsked(os, q, h, noFinalTracking);
    CasesKeepPolicies(os, q.inst);
    PlanKeepsCasesInOrder(os, q, h, noFinalTracking);
    PlanKeepsStages(os, q, h, noFinalTracking);
    PlanKeepsIterations(cs, os, p, q.inst, h);
    PlanMeetsDependencies(os, q, h, noFinalTracking);
    PlanKeepsDeletions(os, q, h, noFinalTracking);
  }

  /** Makes the infos of the decided cases, runs the passes over them and builds the plan. `os` are
      the cases in the order in which the plan has their infos. */
  method PlanFor(cs: seq<Case>, del: seq<DeletableInfo>, rel: seq<ReleaseInfo>, noFinalTracking: bool)
    returns (plan: Plan, r: Outcome, ghost q: Request, ghost os: seq<Case>, ghost order: seq<nat>)
    requires DistinctRevisions(rel) && forall i :: 0 <= i < |cs| ==> Observed(cs[i]) && Decidable(cs[i])
    requires forall i, d :: 0 <= i < |del| && d in del[i].deps ==> d.state == Absent
    ensures plan.Valid() && q.del == del && q.rel == rel && InPlanOrder(cs, os, order) && AllRealized(os, q.inst)
    ensures r.Ok? <==> Buildable(q)
    ensures r.Ok? ==> Built(q, plan.G(), noFinalTracking) && Lean(Described(q), plan.G())
    ensures r.Ok? ==> KeepsPromises(os, del, plan.G(), noFinalTracking)
  {
    var infos := new InstallableInfo[|cs|](i requires 0 <= i < |cs| => assert Decidable(cs[i]); InfoFor(cs[i]));
    ghost var s := infos[..];
    FinishInfos(infos);
    os, order := PassesRealize(cs, s, infos[..]);
    plan, r, q := BuildPlan(infos[..], del, rel, noFinalTracking);
    if r.Ok? { PromisesKept(cs, os, order, q, plan.G(), noFinalTracking); }
  }
}
