/** The executor and the progress reporter together (pkg/plan/plan_execute.go,
    pkg/plan/legacy_progress_reporter.go). A worker reports each status it sets before it goes
    on, and in particular before its completion is queued; until then the report lags behind. */
module ReporterRuns {
  import opened Operations
  import opened PlanGraph
  import opened Scheduler
  import opened StartOrders
  import opened Chains
  import opened ResourceInfo
  import opened ReleaseInfo
  import opened PlanRequest
  import opened PlanBuild
  import opened Stages
  import opened Builder
  import opened PlanProperties
  import opened ReleaseRuns
  import opened ReleaseLifecycle
  import opened Reporter

  /** The executor's state and the table of the current stage. */
  datatype Joint = Joint(s: State, rows: seq<Entry>, index: map<OpID, nat>)

  datatype JointStep = Execute(step: Step) | Report(op: OpID)

  ghost predicate ValidIndex(t: Joint) {
    forall id :: id in t.index ==> t.index[id] < |t.rows|
  }

  ghost function Shown(t: Joint, id: OpID): ReportedStatus
    requires ValidIndex(t) && id in t.index
  {
    t.rows[t.index[id]].status
  }

  /** The worker of `op` has nothing left to report. */
  ghost predicate UpToDate(t: Joint, op: OpID)
    requires ValidIndex(t)
  {
    op in t.index && op in t.s.status ==> Shown(t, op) == MapStatus(t.s.status[op])
  }

  /** A worker ends an operation, or gives back its slot, only after reporting. */
  ghost predicate JointEnabled(j: Job, t: Joint, step: JointStep) {
    && ValidIndex(t)
    && match step
       case Execute(e) => Enabled(j, t.s, e) && (e.Complete? || e.Fail? || e.Push? || e.Raise? ==> UpToDate(t, e.op))
       case Report(op) => op in t.s.workers && op in t.s.status && t.s.workers[op] != Submitted
  }

  ghost function JointApply(j: Job, t: Joint, step: JointStep): Joint
    requires JointEnabled(j, t, step)
  {
    match step
    case Execute(e) => t.(s := Apply(j, t.s, e))
    case Report(op) =>
      if op !in t.index then t
      else t.(rows := t.rows[t.index[op] := t.rows[t.index[op]].(status := MapStatus(t.s.status[op]))])
  }

  ghost predicate JointRun(j: Job, t: Joint, steps: seq<JointStep>, u: Joint)
    decreases |steps|
  {
    if steps == [] then t == u
    else JointEnabled(j, t, steps[0]) && JointRun(j, JointApply(j, t, steps[0]), steps[1..], u)
  }

  /** The beginning of a stage: nothing is scheduled and every operation is pending. */
  ghost predicate StageBegins(g: Graph, parallelism: nat, t: Joint) {
    && t.s == Start(JobOf(g, parallelism)) && Describes(g, t.rows, t.index)
    && forall id :: id in t.index ==> t.rows[t.index[id]].status == ReportPending
  }

  /** What is shown of an operation lags behind only while its worker is at it. */
  ghost predicate ShownInv(t: Joint) {
    && ValidIndex(t)
    && (forall id :: id in t.index ==> id in t.s.status)
    && (forall id :: id in t.index && Shown(t, id) != ReportPending ==> t.s.status[id] != StatusUnknown)
    && (forall id :: id in t.index && Shown(t, id) == ReportCompleted ==> t.s.status[id] == StatusCompleted)
    && (forall id :: id in t.index && Shown(t, id) == ReportFailed ==> t.s.status[id] == StatusFailed)
    && (forall id :: id in t.index && id !in t.s.workers ==> Shown(t, id) == MapStatus(t.s.status[id]))
  }

  ghost predicate JointInv(g: Graph, parallelism: nat, t: Joint) {
    Inv(JobOf(g, parallelism), t.s) && Describes(g, t.rows, t.index) && ShownInv(t)
  }

  lemma StatusKeepsRows(g: Graph, rows: seq<Entry>, index: map<OpID, nat>, op: OpID, status: ReportedStatus)
    requires Describes(g, rows, index) && op in index
    ensures Describes(g, rows[index[op] := rows[index[op]].(status := status)], index)
  {
    assert Owned(index, index[op]);
  }

  lemma ReportKeepsShown(g: Graph, t: Joint, op: OpID, rows: seq<Entry>)
    requires Indexed(g, t.rows, t.index) && ShownInv(t) && op in t.index && op in t.s.status
    requires rows == t.rows[t.index[op] := t.rows[t.index[op]].(status := MapStatus(t.s.status[op]))]
    ensures ShownInv(t.(rows := rows))
  {
    var u := t.(rows := rows);
    forall id | id in t.index ensures Shown(u, id) == if id == op then MapStatus(t.s.status[op]) else Shown(t, id) {
      assert id != op ==> t.index[id] != t.index[op];
    }
  }

  lemma ReportKeepsRows(g: Graph, parallelism: nat, t: Joint, op: OpID)
    requires JointInv(g, parallelism, t) && JointEnabled(JobOf(g, parallelism), t, Report(op))
    ensures Describes(g, JointApply(JobOf(g, parallelism), t, Report(op)).rows, t.index)
    ensures ShownInv(JointApply(JobOf(g, parallelism), t, Report(op)))
  {
    if op in t.index {
      StatusKeepsRows(g, t.rows, t.index, op, MapStatus(t.s.status[op]));
      ReportKeepsShown(g, t, op, JointApply(JobOf(g, parallelism), t, Report(op)).rows);
    }
  }

  /** One operation's status, its worker and what is shown of it, over one step. */
  lemma ExecuteOne(j: Job, t: Joint, e: Step, id: OpID)
    requires StatusInv(j, t.s) && ShownInv(t) && JointEnabled(j, t, Execute(e)) && id in t.index
    ensures id in Apply(j, t.s, e).status
    ensures Shown(t, id) != ReportPending ==> Apply(j, t.s, e).status[id] != StatusUnknown
    ensures Shown(t, id) == ReportCompleted ==> Apply(j, t.s, e).status[id] == StatusCompleted
    ensures Shown(t, id) == ReportFailed ==> Apply(j, t.s, e).status[id] == StatusFailed
    ensures id !in Apply(j, t.s, e).workers ==> Shown(t, id) == MapStatus(Apply(j, t.s, e).status[id])
  {
  }

  lemma ExecuteKeepsShown(j: Job, t: Joint, e: Step)
    requires Inv(j, t.s) && ShownInv(t) && JointEnabled(j, t, Execute(e))
    ensures ShownInv(JointApply(j, t, Execute(e)))
  {
    var u := JointApply(j, t, Execute(e));
    forall id | id in t.index
      ensures id in u.s.status && Shown(u, id) == Shown(t, id)
        && (Shown(t, id) != ReportPending ==> u.s.status[id] != StatusUnknown)
        && (Shown(t, id) == ReportCompleted ==> u.s.status[id] == StatusCompleted)
        && (Shown(t, id) == ReportFailed ==> u.s.status[id] == StatusFailed)
        && (id !in u.s.workers ==> Shown(t, id) == MapStatus(u.s.status[id]))
    {
      ExecuteOne(j, t, e, id);
    }
  }

  lemma JointStepInv(g: Graph, parallelism: nat, t: Joint, step: JointStep)
    requires JointInv(g, parallelism, t) && JointEnabled(JobOf(g, parallelism), t, step)
    ensures JointInv(g, parallelism, JointApply(JobOf(g, parallelism), t, step))
  {
    match step
    case Execute(e) =>
      StepInv(JobOf(g, parallelism), t.s, e);
      ExecuteKeepsShown(JobOf(g, parallelism), t, e);
    case Report(op) =>
      ReportKeepsRows(g, parallelism, t, op);
  }

  lemma {:induction false} JointRunInv(g: Graph, parallelism: nat, t: Joint, steps: seq<JointStep>, u: Joint)
    requires JointInv(g, parallelism, t) && JointRun(JobOf(g, parallelism), t, steps, u)
    ensures JointInv(g, parallelism, u)
    decreases |steps|
  {
    if steps != [] {
      JointStepInv(g, parallelism, t, steps[0]);
      JointRunInv(g, parallelism, JointApply(JobOf(g, parallelism), t, steps[0]), steps[1..], u);
    }
  }

  lemma BeginsShown(g: Graph, parallelism: nat, t: Joint)
    requires StageBegins(g, parallelism, t)
    ensures ShownInv(t)
  {
  }

  lemma BeginsInv(g: Graph, parallelism: nat, t: Joint)
    requires ValidGraph(g) && parallelism > 0 && StageBegins(g, parallelism, t)
    ensures JointInv(g, parallelism, t)
  {
    StartInv(JobOf(g, parallelism));
    BeginsShown(g, parallelism, t);
  }

  /** Whatever a begun operation waited for is shown as completed. */
  lemma BegunWaitsForNothing(g: Graph, parallelism: nat, t: Joint, id: OpID)
    requires ValidGraph(g) && Describes(g, t.rows, t.index) && ShownInv(t)
    requires StatusInv(JobOf(g, parallelism), t.s) && PredInv(JobOf(g, parallelism), t.s)
    requires id in t.index && Shown(t, id) != ReportPending
    ensures WaitingFor(t.rows, t.rows[t.index[id]]) == {}
  {
    var row := t.rows[t.index[id]];
    forall p | p in row.preds && p < |t.rows| ensures t.rows[p].status == ReportCompleted {
      var e :| e in g.edges && e.1 == id && e.0 in t.index && t.index[e.0] == p;
      assert (e.0, id) in g.edges;
      assert Received(t.s, e.0);
    }
  }

  /** In every interleaving of the executor, its workers and their reports: whatever a report
      shows of the current stage as progressing, completed or failed is waiting for nothing. */
  lemma ReportsAreConsistent(g: Graph, parallelism: nat, t: Joint, steps: seq<JointStep>, u: Joint, k: nat)
    requires ValidGraph(g) && parallelism > 0 && StageBegins(g, parallelism, t)
    requires JointRun(JobOf(g, parallelism), t, steps, u) && k < |u.rows|
    ensures CurrentStage(u.rows)[k].status in {ReportProgressing, ReportCompleted, ReportFailed} ==>
      CurrentStage(u.rows)[k].waitingFor == {}
  {
    BeginsInv(g, parallelism, t);
    JointRunInv(g, parallelism, t, steps, u);
    if u.rows[k].status != ReportPending && Owned(u.index, k) {
      var id :| id in u.index && u.index[id] == k;
      BegunWaitsForNothing(g, parallelism, u, id);
    }
  }

  /** How an operation is referred to. */
  ghost function RefOf(id: OpID): OperationRef
    requires id.config.ResourceKey?
  {
    OperationRef(id.config.resource, id.typ, id.iteration)
  }

  lemma RefIs(g: Graph, id: OpID)
    requires ValidGraph(g) && Reportable(g.ops) && id in g.ops && Reported(g.ops[id])
    ensures id.config.ResourceKey? && RefTo(g.ops[id]) == RefOf(id)
  {
    assert g.ops[id].ID() == id;
  }

  /** `x` comes right before `id`, has a row, and is not shown as completed. */
  ghost predicate HoldsBack(g: Graph, t: Joint, x: OpID, id: OpID) {
    (x, id) in g.edges && ValidIndex(t) && x in t.index && Shown(t, x) != ReportCompleted
  }

  /** What a row of the report is about. */
  lemma RowShows(g: Graph, t: Joint, id: OpID)
    requires ValidGraph(g) && Describes(g, t.rows, t.index) && id in t.index
    ensures t.index[id] < |t.rows| && id.config.ResourceKey?
    ensures CurrentStage(t.rows)[t.index[id]].ref == RefOf(id)
    ensures ValidIndex(t) && CurrentStage(t.rows)[t.index[id]].status == Shown(t, id)
  {
    RefIs(g, id);
  }

  lemma HeldBackShown(g: Graph, t: Joint, x: OpID, id: OpID)
    requires ValidGraph(g) && Describes(g, t.rows, t.index) && id in t.index && HoldsBack(g, t, x, id)
    ensures t.index[id] < |t.rows| && x.config.ResourceKey?
    ensures RefOf(x) in CurrentStage(t.rows)[t.index[id]].waitingFor
  {
    RefIs(g, x);
    assert (x, id).0 == x && t.index[x] in PredRows(g.edges, t.index, id);
  }

  lemma ShownHeldBack(g: Graph, t: Joint, id: OpID, r: OperationRef) returns (x: OpID)
    requires ValidGraph(g) && Describes(g, t.rows, t.index) && ValidIndex(t) && id in t.index
    requires t.index[id] < |t.rows| && r in CurrentStage(t.rows)[t.index[id]].waitingFor
    ensures HoldsBack(g, t, x, id) && x.config.ResourceKey? && r == RefOf(x)
  {
    var p :| p in t.rows[t.index[id]].preds && p < |t.rows| && t.rows[p].status != ReportCompleted
      && t.rows[p].ref == r;
    var e :| e in g.edges && e.1 == id && e.0 in t.index && t.index[e.0] == p;
    x := e.0;
    assert e == (x, id);
    RefIs(g, x);
  }

  /** The report of a stage shows `id` as it is, waiting for exactly what holds it back. */
  ghost predicate ShownTruly(g: Graph, t: Joint, id: OpID) {
    && ValidIndex(t) && id in t.index && t.index[id] < |t.rows| && id.config.ResourceKey?
    && var row := CurrentStage(t.rows)[t.index[id]];
      && row.ref == RefOf(id) && id in t.s.status && ShowsTruth(row.status, t.s.status[id])
      && (forall x :: HoldsBack(g, t, x, id) ==> x.config.ResourceKey? && RefOf(x) in row.waitingFor)
      && (forall r :: r in row.waitingFor ==>
            exists x :: HoldsBack(g, t, x, id) && x.config.ResourceKey? && r == RefOf(x))
  }

  lemma TableIsTrue(g: Graph, t: Joint, id: OpID)
    requires ValidGraph(g) && Describes(g, t.rows, t.index) && ShownInv(t) && id in t.index
    ensures ShownTruly(g, t, id)
  {
    RowShows(g, t, id);
    var row := CurrentStage(t.rows)[t.index[id]];
    forall x | HoldsBack(g, t, x, id) ensures x.config.ResourceKey? && RefOf(x) in row.waitingFor {
      HeldBackShown(g, t, x, id);
    }
    forall r | r in row.waitingFor
      ensures exists x :: HoldsBack(g, t, x, id) && x.config.ResourceKey? && r == RefOf(x)
    {
      var x := ShownHeldBack(g, t, id, r);
    }
  }

  /** In every interleaving a report shows each operation as waiting for exactly those that come right
      before it and are not shown as completed. What it shows as completed or failed is so, and what
      it shows as progressing has begun. */
  lemma ReportsAreTrue(g: Graph, parallelism: nat, t: Joint, steps: seq<JointStep>, u: Joint, id: OpID)
    requires ValidGraph(g) && parallelism > 0 && StageBegins(g, parallelism, t)
    requires JointRun(JobOf(g, parallelism), t, steps, u) && id in u.index
    ensures ShownTruly(g, u, id)
  {
    BeginsInv(g, parallelism, t);
    JointRunInv(g, parallelism, t, steps, u);
    TableIsTrue(g, u, id);
  }

  ghost predicate ShowsTruth(shown: ReportedStatus, status: Status) {
    match shown
    case ReportPending => true
    case ReportProgressing => status in {StatusPending, StatusCompleted, StatusFailed}
    case ReportCompleted => status == StatusCompleted
    case ReportFailed => status == StatusFailed
  }

  /** Once a plan has returned, every operation is shown as it ended: completed, failed, or never
      begun. */
  lemma FinalReportIsExact(g: Graph, parallelism: nat, t: Joint, steps: seq<JointStep>, u: Joint)
    requires ValidGraph(g) && parallelism > 0 && StageBegins(g, parallelism, t)
    requires JointRun(JobOf(g, parallelism), t, steps, u) && u.s.loop.Returned?
    ensures ValidIndex(u) && forall id :: id in u.index ==> ShownAsEnded(u, id)
  {
    BeginsInv(g, parallelism, t);
    JointRunInv(g, parallelism, t, steps, u);
    NoneAtWork(JobOf(g, parallelism), u);
  }

  /** And so it stays: once the stage is frozen, the report shows each operation as it ended, waiting
      for nothing. */
  lemma FrozenAsEnded(g: Graph, parallelism: nat, t: Joint, steps: seq<JointStep>, u: Joint, id: OpID)
    requires ValidGraph(g) && parallelism > 0 && StageBegins(g, parallelism, t)
    requires JointRun(JobOf(g, parallelism), t, steps, u) && u.s.loop.Returned? && id in u.index
    ensures u.index[id] < |u.rows| && id.config.ResourceKey? && id in u.s.status
    ensures var row := FrozenStage(u.rows)[u.index[id]];
      row.ref == RefOf(id) && row.waitingFor == {} && match u.s.status[id]
        case StatusUnknown => row.status == ReportPending
        case StatusPending => false
        case StatusCompleted => row.status == ReportCompleted
        case StatusFailed => row.status == ReportFailed
  {
    ReportsAreTrue(g, parallelism, t, steps, u, id);
    FinalReportIsExact(g, parallelism, t, steps, u);
    assert ShownAsEnded(u, id);
  }

  /** As soon as its worker has reported, an operation that runs is shown as progressing, and one that
      has ended as completed or failed. */
  lemma ReportShows(g: Graph, parallelism: nat, t: Joint, steps: seq<JointStep>, u: Joint, op: OpID)
    requires ValidGraph(g) && parallelism > 0 && StageBegins(g, parallelism, t)
    requires JointRun(JobOf(g, parallelism), t, steps, u) && op in u.index
    requires JointEnabled(JobOf(g, parallelism), u, Report(op))
    ensures var v := JointApply(JobOf(g, parallelism), u, Report(op));
      ValidIndex(v) && op in v.index && match u.s.workers[op]
        case Submitted => false
        case Executing => Shown(v, op) == ReportProgressing
        case Effective => Shown(v, op) == ReportProgressing
        case Succeeded => Shown(v, op) == ReportCompleted
        case Erred => Shown(v, op) == ReportFailed
  {
    BeginsInv(g, parallelism, t);
    JointRunInv(g, parallelism, t, steps, u);
  }

  ghost predicate ShownAsEnded(t: Joint, id: OpID)
    requires ValidIndex(t) && id in t.index
  {
    && id in t.s.status
    && match t.s.status[id]
       case StatusUnknown => Shown(t, id) == ReportPending
       case StatusPending => false
       case StatusCompleted => Shown(t, id) == ReportCompleted
       case StatusFailed => Shown(t, id) == ReportFailed
  }

  lemma NoneAtWork(j: Job, t: Joint)
    requires StatusInv(j, t.s) && LoopInv(t.s) && ShownInv(t) && t.s.loop.Returned?
    ensures forall id :: id in t.index ==> ShownAsEnded(t, id)
  {
  }

  // ----- plans that can be reported -----

  /** Everything a built plan reports is about a resource. */
  lemma BuiltReportable(q: Request, h: Graph, noFinalTracking: bool)
    requires Built(q, h, noFinalTracking)
    ensures Reportable(h.ops)
  {
    var g := Described(q);
    forall id | id in g.ops ensures Reported(g.ops[id]) ==> g.ops[id].config.ResourceConfig? {
      if id.config.ResourceKey? { ResourceOpsConfigured(q, id); } else { OthersNotReported(q, id); }
    }
    ReportableSurvives(g, h);
  }

  /** The table of a built plan has a row for every operation on a resource, and for no other. */
  lemma RowsOfBuiltPlan(q: Request, h: Graph, noFinalTracking: bool, rows: seq<Entry>, index: map<OpID, nat>)
    requires Built(q, h, noFinalTracking) && Describes(h, rows, index)
    ensures forall id :: id in index <==> id in h.ops && id.config.ResourceKey?
  {
    forall id | id in h.ops ensures Reported(h.ops[id]) <==> id.config.ResourceKey? {
      if id.config.ResourceKey? { ResourceOpsReported(q, id); } else { OthersNotReported(q, id); }
    }
  }

  /** Every live resource that the plan is about has a row, whether an operation touches it or not. */
  lemma LiveResourcesShown(q: Request, h: Graph, noFinalTracking: bool, rows: seq<Entry>, index: map<OpID, nat>, i: nat)
    requires Built(q, h, noFinalTracking) && Describes(h, rows, index) && ShowsUntouched(h.ops, rows, index, q.inst)
    requires i < |q.inst| && q.inst[i].live.Some?
    ensures exists k :: 0 <= k < |rows| && rows[k].ref.resource == q.inst[i].res.id
    ensures (forall id :: id in h.ops ==> id.config != ResourceKey(q.inst[i].res.id)) ==>
      exists k :: 0 <= k < |rows| && rows[k] == Entry(OperationRef(q.inst[i].res.id, TypeNoop, 0), ReportCompleted, {})
  {
    var r := q.inst[i].res.id;
    RowsOfBuiltPlan(q, h, noFinalTracking, rows, index);
    if Touches(h.ops, index, r) {
      var id :| id in index && id in h.ops && h.ops[id].config == ResourceConfig(r);
      assert h.ops[id].ID() == id;
      assert rows[index[id]].ref.resource == r;
    } else {
      assert LiveAmong(q.inst, |q.inst|, r);
    }
  }

  lemma ResourceOpsReported(q: Request, id: OpID)
    requires id in Described(q).ops && id.config.ResourceKey?
    ensures Reported(Described(q).ops[id])
  {
    ResourceOpOrigin(q, id);
    var g := Described(q);
    if k :| 0 <= k < |q.del| && PlacedBy(g, DeleteChain(q.del[k]), id) {
      DeletionReported(g, q.del[k], id);
    } else {
      var k :| 0 <= k < |q.inst| && PlacedBy(g, InstallChain(q.inst[k]), id);
      InstallReported(g, q.inst[k], id);
    }
  }

  lemma DeletionReported(g: Graph, i: DeletableInfo, id: OpID)
    requires PlacedBy(g, DeleteChain(i), id)
    ensures id in g.ops && Reported(g.ops[id])
  {
  }

  lemma InstallReported(g: Graph, i: InstallableInfo, id: OpID)
    requires PlacedBy(g, InstallChain(i), id)
    ensures id in g.ops && Reported(g.ops[id])
  {
  }

  lemma ReportableSurvives(g: Graph, h: Graph)
    requires Survives(g, h) && Reportable(g.ops)
    ensures Reportable(h.ops)
  {
  }

  lemma ResourceOpsConfigured(q: Request, id: OpID)
    requires id in Described(q).ops && id.config.ResourceKey?
    ensures Described(q).ops[id].config.ResourceConfig?
  {
    ResourceOpOrigin(q, id);
    var g := Described(q);
    if k :| 0 <= k < |q.del| && PlacedBy(g, DeleteChain(q.del[k]), id) {
      DeleteConfigured(g, q.del[k], id);
    } else {
      var k :| 0 <= k < |q.inst| && PlacedBy(g, InstallChain(q.inst[k]), id);
      InstallConfigured(g, q.inst[k], id);
    }
  }

  lemma DeleteConfigured(g: Graph, i: DeletableInfo, id: OpID)
    requires PlacedBy(g, DeleteChain(i), id)
    ensures id in g.ops && g.ops[id].config.ResourceConfig?
  {
  }

  lemma InstallConfigured(g: Graph, i: InstallableInfo, id: OpID)
    requires PlacedBy(g, InstallChain(i), id)
    ensures id in g.ops && g.ops[id].config.ResourceConfig?
  {
  }

  lemma ReleaseNotReported(g: Graph, rel: seq<ReleaseInfo>, cs: seq<Chain>, id: OpID)
    requires cs == ReleaseChains(rel) && id in AfterAll(g, cs).ops && id !in g.ops
    ensures !Reported(AfterAll(g, cs).ops[id])
  {
    var h := AfterAll(g, cs);
    ChainOrigin(g, cs, |cs|, id);
    var k :| 0 <= k < |cs| && PlacedBy(h, cs[k], id);
    var n :| 0 <= n < |cs[k]| && PlacedAs(h, cs[k][n], id);
    ReleaseChainOps(rel, k, n);
    OpOfRevision(rel[k / 2], cs[k][n].op);
  }

  lemma OthersNotReported(q: Request, id: OpID)
    requires id in Described(q).ops && !id.config.ResourceKey?
    ensures !Reported(Described(q).ops[id])
  {
    PartsGrow(q);
    InstallOnlyResources(q.inst);
    DeleteOnlyResources(q.del);
    OnlyResourcesAdded(Deleted(q), InstallChains(q.inst), id);
    OnlyResourcesAdded(Released(q), DeleteChains(q.del), id);
    if id in Weighted(q).ops {
      StagesAreBrackets(q);
    } else {
      ReleaseNotReported(Weighted(q), q.rel, ReleaseChains(q.rel), id);
    }
  }

  // ----- frozen stages -----

  ghost function ReportOf(a: Table): Reporter.Report {
    a.frozen + [CurrentStage(a.rows)]
  }

  lemma {:induction false} FrozenGrows(ts: seq<Table>, i: nat, k: nat)
    requires i <= k < |ts| && forall n :: 0 <= n < |ts| - 1 ==> Call(ts[n], ts[n + 1])
    ensures ts[i].frozen <= ts[k].frozen
    decreases k
  {
    if i < k {
      FrozenGrows(ts, i, k - 1);
      assert Call(ts[k - 1], ts[k - 1 + 1]);
    }
  }

  /** Over every sequence of calls, the frozen stages of a report are in every later report,
      unchanged. */
  lemma FrozenStagesNeverChange(ts: seq<Table>, i: nat, k: nat, m: nat)
    requires i <= k < |ts| && forall n :: 0 <= n < |ts| - 1 ==> Call(ts[n], ts[n + 1])
    requires m < |ReportOf(ts[i])| - 1
    ensures m < |ReportOf(ts[k])| - 1 && ReportOf(ts[k])[m] == ReportOf(ts[i])[m]
  {
    FrozenGrows(ts, i, k);
  }
}
