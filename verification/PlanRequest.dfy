/** What a plan is asked to contain (pkg/plan/plan_build.go): for every info the chain of its
    operations, and for every dependency its edge. */
module PlanRequest {
  import opened Operations
  import opened Precedence
  import opened Chains
  import opened ResourceInfo
  import opened ReleaseInfo

  datatype DeletableInfo = DeletableInfo(id: string, deps: seq<Dependency>, mustDelete: bool, mustTrackAbsence: bool,
                                         stage: Stage)

  // ----- operations of an info -----

  function ResourceOp(typ: OpType, category: Category, iteration: nat, id: string): Operation {
    Operation(typ, OPERATION_VERSION, category, iteration, ResourceConfig(id))
  }

  function DeployOpType(t: InstallType): OpType
    requires t != InstallNone
  {
    match t
    case InstallCreate => TypeCreate
    case InstallRecreate => TypeRecreate
    case InstallUpdate => TypeUpdate
    case InstallApply => TypeApply
  }

  function DeployOp(i: InstallableInfo): Operation
    requires i.mustInstall != InstallNone
  {
    ResourceOp(DeployOpType(i.mustInstall), CategoryResource, i.iteration, i.res.id)
  }

  function ReadinessOp(i: InstallableInfo): Operation {
    ResourceOp(TypeTrackReadiness, CategoryTrack, i.iteration, i.res.id)
  }

  function CleanupOp(i: InstallableInfo): Operation {
    ResourceOp(TypeDelete, CategoryResource, i.iteration, i.res.id)
  }

  function CleanupTrackOp(i: InstallableInfo): Operation {
    ResourceOp(TypeTrackAbsence, CategoryTrack, i.iteration, i.res.id)
  }

  /** The stage, or weighted sub-stage, in which a resource is deployed. */
  function DeployRef(i: InstallableInfo): StageRef {
    if i.res.weight.Some? then SubStage(i.stage, i.res.weight.value) else MainStage(i.stage)
  }

  function CleanupRef(i: InstallableInfo): Option<StageRef> {
    if i.deleteStage.Some? then Some(MainStage(i.deleteStage.value)) else None
  }

  // ----- chains -----

  function ExternalSteps(i: InstallableInfo): Chain {
    if i.mustInstall == InstallNone then
      []
    else
      seq(|i.res.externalDeps|, k requires 0 <= k < |i.res.externalDeps| =>
        ChainStep(ResourceOp(TypeTrackPresence, CategoryTrack, 0, i.res.externalDeps[k]), Some(DeployRef(i)), true))
  }

  function DeploySteps(i: InstallableInfo): Chain {
    (if i.mustInstall == InstallNone then [] else [ChainStep(DeployOp(i), Some(DeployRef(i)), false)])
    + (if i.mustTrackReadiness then [ChainStep(ReadinessOp(i), Some(DeployRef(i)), false)] else [])
    + (if i.mustDeleteOnSuccess then [ChainStep(CleanupOp(i), CleanupRef(i), false),
                                      ChainStep(CleanupTrackOp(i), CleanupRef(i), false)] else [])
  }

  /** Wait for external dependencies, deploy, track readiness, clean up, track absence. */
  function InstallChain(i: InstallableInfo): Chain {
    ExternalSteps(i) + DeploySteps(i)
  }

  function DeleteChain(i: DeletableInfo): Chain {
    if !i.mustDelete then
      []
    else
      [ChainStep(ResourceOp(TypeDelete, CategoryResource, 0, i.id), Some(MainStage(i.stage)), false)]
      + (if i.mustTrackAbsence then [ChainStep(ResourceOp(TypeTrackAbsence, CategoryTrack, 0, i.id),
                                               Some(MainStage(i.stage)), false)] else [])
  }

  function ReleaseOp(typ: OpType, c: Config): Operation {
    Operation(typ, OPERATION_VERSION, CategoryRelease, 0, c)
  }

  function PendingStatus(t: ReleaseType): ReleaseStatus {
    match t
    case ReleaseUpgrade => PendingUpgrade
    case ReleaseRollback => PendingRollback
    case _ => PendingInstall
  }

  function CreateReleaseOp(rel: Release, s: ReleaseStatus): Operation {
    ReleaseOp(TypeCreateRelease, ReleaseConfig(rel.(status := s)))
  }

  function UpdateReleaseOp(rel: Release, s: ReleaseStatus): Operation {
    ReleaseOp(TypeUpdateRelease, ReleaseConfig(rel.(status := s)))
  }

  function DeleteReleaseOp(rel: Release): Operation {
    ReleaseOp(TypeDeleteRelease, RevisionConfig(rel.version))
  }

  /** The operation of a revision in the initial stage, if it has one. */
  function InitReleaseOp(i: ReleaseInfo): Option<Operation> {
    match i.must
    case ReleaseSupersede => None
    case ReleaseDelete => None
    case ReleaseUninstall => Some(UpdateReleaseOp(i.rel, Uninstalling))
    case t => Some(CreateReleaseOp(i.rel, PendingStatus(t)))
  }

  /** The operation of a revision in the final stage. */
  function FinalReleaseOp(i: ReleaseInfo): Operation {
    match i.must
    case ReleaseSupersede => UpdateReleaseOp(i.rel, Superseded)
    case ReleaseDelete => DeleteReleaseOp(i.rel)
    case ReleaseUninstall => DeleteReleaseOp(i.rel)
    case _ => UpdateReleaseOp(i.rel, Deployed)
  }

  function InitReleaseChain(i: ReleaseInfo): Chain {
    if InitReleaseOp(i).Some? then [ChainStep(InitReleaseOp(i).value, Some(MainStage(Init)), false)] else []
  }

  function FinalReleaseChain(i: ReleaseInfo): Chain {
    [ChainStep(FinalReleaseOp(i), Some(MainStage(Final)), false)]
  }

  // ----- stages -----

  function MainChain(): Chain {
    seq(2 * |STAGES_ORDERED|, i requires 0 <= i < 2 * |STAGES_ORDERED| =>
      ChainStep(BracketOp(MainStage(STAGES_ORDERED[i / 2]), i % 2 == 1), None, false))
  }

  function WeightChain(s: Stage, ws: seq<int>): Chain {
    seq(2 * |ws|, i requires 0 <= i < 2 * |ws| =>
      ChainStep(BracketOp(SubStage(s, ws[i / 2]), i % 2 == 1), Some(MainStage(s)), false))
  }

  ghost predicate StrictlySorted(ws: seq<int>) {
    forall i, k :: 0 <= i < k < |ws| ==> ws[i] < ws[k]
  }

  /** A weight put in its place among sorted distinct weights. */
  function InsertWeight(ws: seq<int>, w: int): (r: seq<int>)
    requires StrictlySorted(ws)
    ensures StrictlySorted(r) && forall x :: x in r <==> x in ws || x == w
  {
    if ws == [] || w < ws[0] then [w] + ws
    else if w == ws[0] then ws
    else
      var rest := InsertWeight(ws[1..], w);
      assert forall k :: 0 <= k < |rest| ==> ws[0] < rest[k] by {
        forall k | 0 <= k < |rest| ensures ws[0] < rest[k] {
          assert rest[k] in rest;
          assert rest[k] in ws[1..] || rest[k] == w;
        }
      }
      [ws[0]] + rest
  }

  /** The distinct weights, in order, that the first `n` infos have in a stage. */
  function WeightsOf(infos: seq<InstallableInfo>, s: Stage, n: nat): (ws: seq<int>)
    requires n <= |infos|
    ensures StrictlySorted(ws)
  {
    if n == 0 then []
    else
      var ws, i := WeightsOf(infos, s, n - 1), infos[n - 1];
      if i.stage == s && i.res.weight.Some? then InsertWeight(ws, i.res.weight.value) else ws
  }

  lemma {:induction false} WeightIn(infos: seq<InstallableInfo>, s: Stage, n: nat, w: int)
    requires n <= |infos|
    ensures w in WeightsOf(infos, s, n) <==>
      exists i :: 0 <= i < n && infos[i].stage == s && infos[i].res.weight == Some(w)
  {
    if n > 0 { WeightIn(infos, s, n - 1, w); }
  }

  // ----- dependencies -----

  /** What a dependency looks for among the infos of its stage. */
  datatype Wanted = DeployedOne | TrackedOne | CleanedUpOne

  predicate Eligible(w: Wanted, dep: Dependency, s: Stage, i: InstallableInfo) {
    && i.res.id in dep.matches
    && match w
       case DeployedOne => i.mustInstall != InstallNone && i.stage == s
       case TrackedOne => i.mustTrackReadiness && i.stage == s
       case CleanedUpOne => i.mustDeleteOnSuccess && i.deleteStage == Some(s)
  }

  /** The eligible info with the lowest iteration, the first of them, among the first `n`. */
  function LowestMatch(infos: seq<InstallableInfo>, w: Wanted, dep: Dependency, s: Stage,
                       n: nat): (m: Option<InstallableInfo>)
    requires n <= |infos|
    ensures m.Some? ==> Eligible(w, dep, s, m.value)
  {
    if n == 0 then None
    else
      var m := LowestMatch(infos, w, dep, s, n - 1);
      var c := infos[n - 1];
      if Eligible(w, dep, s, c) && (m.None? || c.iteration < m.value.iteration) then Some(c) else m
  }

  /** Info `m` is the first of those eligible that have the lowest iteration, among the first `n`. */
  ghost predicate FirstLowest(infos: seq<InstallableInfo>, w: Wanted, dep: Dependency, s: Stage, n: nat, m: nat)
    requires n <= |infos|
  {
    && m < n && Eligible(w, dep, s, infos[m])
    && (forall k :: 0 <= k < n && Eligible(w, dep, s, infos[k]) ==> infos[m].iteration <= infos[k].iteration)
    && (forall k :: 0 <= k < m && Eligible(w, dep, s, infos[k]) ==> infos[m].iteration < infos[k].iteration)
  }

  /** What is found is the first of the lowest iteration. */
  lemma {:induction false} LowestMatchIsFirst(infos: seq<InstallableInfo>, w: Wanted, dep: Dependency, s: Stage,
                                              n: nat) returns (m: nat)
    requires n <= |infos|
    ensures var found := LowestMatch(infos, w, dep, s, n);
      if found.Some? then FirstLowest(infos, w, dep, s, n, m) && found == Some(infos[m])
      else forall k :: 0 <= k < n ==> !Eligible(w, dep, s, infos[k])
  {
    m := 0;
    if n > 0 {
      m := LowestMatchIsFirst(infos, w, dep, s, n - 1);
      var before := LowestMatch(infos, w, dep, s, n - 1);
      var c := infos[n - 1];
      if Eligible(w, dep, s, c) && (before.None? || c.iteration < before.value.iteration) { m := n - 1; }
    }
  }

  /** One is found iff there is one, and none has a lower iteration. */
  lemma {:induction false} LowestMatchIsLowest(infos: seq<InstallableInfo>, w: Wanted, dep: Dependency, s: Stage,
                                               n: nat)
    requires n <= |infos|
    ensures LowestMatch(infos, w, dep, s, n).Some? ==> LowestMatch(infos, w, dep, s, n).value in infos[..n]
    ensures forall k :: 0 <= k < n && Eligible(w, dep, s, infos[k]) ==>
      LowestMatch(infos, w, dep, s, n).Some? && LowestMatch(infos, w, dep, s, n).value.iteration <= infos[k].iteration
  {
    if n > 0 {
      LowestMatchIsLowest(infos, w, dep, s, n - 1);
      assert infos[..n] == infos[..n - 1] + [infos[n - 1]];
    }
  }

  function AbsenceID(i: DeletableInfo): OpID {
    ResourceOpID(TypeTrackAbsence, 0, i.id)
  }

  predicate DeletedMatch(c: DeletableInfo, dep: Dependency, s: Stage) {
    c.mustTrackAbsence && c.stage == s && c.id in dep.matches
  }

  /** Absence tracking of matching deleted resources present in the plan, of the first `n`. */
  function DeletedMatches(ids: set<OpID>, del: seq<DeletableInfo>, dep: Dependency, s: Stage, n: nat): seq<OpID>
    requires n <= |del|
  {
    if n == 0 then []
    else
      var c := del[n - 1];
      var id := AbsenceID(c);
      DeletedMatches(ids, del, dep, s, n - 1) +
      if DeletedMatch(c, dep, s) && id in ids then [id] else []
  }

  function AbsenceOps(ids: set<OpID>, del: seq<DeletableInfo>, inst: seq<InstallableInfo>, dep: Dependency,
                      s: Stage): seq<OpID> {
    var found := DeletedMatches(ids, del, dep, s, |del|);
    if found != [] then found
    else
      var m := LowestMatch(inst, CleanedUpOne, dep, s, |inst|);
      if m.Some? && CleanupTrackOp(m.value).ID() in ids then [CleanupTrackOp(m.value).ID()] else []
  }

  /** The operation that a deploy dependency waits for, if the plan has one. */
  function DeployTarget(ids: set<OpID>, del: seq<DeletableInfo>, inst: seq<InstallableInfo>, dep: Dependency,
                        s: Stage): Option<OpID> {
    match dep.state
    case Present =>
      var m := LowestMatch(inst, DeployedOne, dep, s, |inst|);
      if m.Some? then Some(DeployOp(m.value).ID()) else None
    case Ready =>
      var m := LowestMatch(inst, TrackedOne, dep, s, |inst|);
      if m.Some? && ReadinessOp(m.value).ID() in ids then Some(ReadinessOp(m.value).ID()) else None
    case Absent =>
      var found := AbsenceOps(ids, del, inst, dep, s);
      if found != [] then Some(found[0]) else None
  }

  function Deps(i: InstallableInfo): seq<Dependency> {
    i.res.autoDeps + i.res.manualDeps
  }

  /** The edge that a dependency of `i` asks for, if the plan has what it waits for. */
  ghost function DeployEdge(ids: set<OpID>, del: seq<DeletableInfo>, inst: seq<InstallableInfo>, i: InstallableInfo,
                            d: Dependency): set<Edge>
    requires i.mustInstall != InstallNone
  {
    var t := DeployTarget(ids, del, inst, d, i.stage);
    if t.Some? then {(t.value, DeployOp(i).ID())} else {}
  }

  ghost function InfoEdges(ids: set<OpID>, del: seq<DeletableInfo>, inst: seq<InstallableInfo>, i: InstallableInfo,
                           deps: seq<Dependency>, m: nat): set<Edge>
    requires i.mustInstall != InstallNone && m <= |deps|
  {
    if m == 0 then {} else InfoEdges(ids, del, inst, i, deps, m - 1) + DeployEdge(ids, del, inst, i, deps[m - 1])
  }

  ghost function EdgesOf(ids: set<OpID>, del: seq<DeletableInfo>, inst: seq<InstallableInfo>,
                         i: InstallableInfo): set<Edge> {
    if i.mustInstall == InstallNone then {} else InfoEdges(ids, del, inst, i, Deps(i), |Deps(i)|)
  }

  /** What the dependencies of the first `n` infos to deploy ask for. */
  ghost function DeployDepEdges(ids: set<OpID>, del: seq<DeletableInfo>, inst: seq<InstallableInfo>, n: nat): set<Edge>
    requires n <= |inst|
  {
    if n == 0 then {} else DeployDepEdges(ids, del, inst, n - 1) + EdgesOf(ids, del, inst, inst[n - 1])
  }

  function DeleteID(i: DeletableInfo): OpID {
    ResourceOpID(TypeDelete, 0, i.id)
  }

  ghost function DeletedEdges(ids: set<OpID>, del: seq<DeletableInfo>, inst: seq<InstallableInfo>, i: DeletableInfo,
                              m: nat): set<Edge>
    requires m <= |i.deps|
  {
    if m == 0 then {}
    else
      DeletedEdges(ids, del, inst, i, m - 1) +
      set t | t in AbsenceOps(ids, del, inst, i.deps[m - 1], i.stage) :: (t, DeleteID(i))
  }

  /** What the dependencies of the first `n` infos to delete ask for. */
  ghost function DeleteDepEdges(ids: set<OpID>, del: seq<DeletableInfo>, inst: seq<InstallableInfo>, n: nat): set<Edge>
    requires n <= |del|
  {
    if n == 0 then {}
    else
      DeleteDepEdges(ids, del, inst, n - 1) +
      if !del[n - 1].mustDelete then {} else DeletedEdges(ids, del, inst, del[n - 1], |del[n - 1].deps|)
  }
}
