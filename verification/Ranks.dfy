/** Levels of resources, and the ranks that they give to the operations of a plan: by stage, by level
    and by what is done (pkg/plan/plan_build.go). */
module Ranks {
  import opened Operations
  import opened Precedence
  import opened PlanGraph
  import opened Chains
  import opened ResourceInfo
  import opened ReleaseInfo
  import opened PlanRequest
  import opened PlanBuild
  import opened Stages
  import opened Builder
  import opened PlanProperties
  import opened Collisions

  // ----- ranks -----

  /** Ranks are compared from left to right. */
  datatype Rank = Rank(stage: int, part: int, level: int, step: int)

  ghost predicate Less(a: Rank, b: Rank) {
    || a.stage < b.stage
    || (a.stage == b.stage && a.part < b.part)
    || (a.stage == b.stage && a.part == b.part && a.level < b.level)
    || (a.stage == b.stage && a.part == b.part && a.level == b.level && a.step < b.step)
  }

  ghost predicate Rises(E: set<Edge>, rank: OpID -> Rank) {
    forall x, y :: (x, y) in E ==> Less(rank(x), rank(y))
  }

  lemma {:induction false} WalkRises(E: set<Edge>, rank: OpID -> Rank, a: OpID, b: OpID, n: nat)
    requires Rises(E, rank) && Walk(E, a, b, n)
    ensures Less(rank(a), rank(b))
    decreases n
  {
    if n > 1 {
      var c :| (a, c) in E && Walk(E, c, b, n - 1);
      WalkRises(E, rank, c, b, n - 1);
    }
  }

  /** A graph along whose edges some rank rises has no cycle. */
  lemma RisingIsAcyclic(E: set<Edge>, rank: OpID -> Rank)
    requires Rises(E, rank)
    ensures Acyclic(E)
  {
    forall a ensures !Precedes(E, a, a) {
      if Precedes(E, a, a) {
        var n: nat :| Walk(E, a, a, n);
        WalkRises(E, rank, a, a, n);
      }
    }
  }

  // ----- levels of resources -----

  /** Levels of resources, by ID and iteration, and of external dependencies. */
  datatype Levels = Levels(level: (string, nat) -> int, ext: string -> int)

  ghost function LevelOf(v: Levels, i: InstallableInfo): int {
    v.level(i.res.id, i.iteration)
  }

  ghost function Externals(i: InstallableInfo): seq<string> {
    if i.mustInstall == InstallNone then [] else i.res.externalDeps
  }

  /** The lowest level at which something happens for a resource. */
  ghost function BottomOf(v: Levels, i: InstallableInfo): int {
    if Externals(i) == [] then LevelOf(v, i) else v.ext(Externals(i)[0])
  }

  /** Whatever an absence dependency can wait for in a stage is below. */
  ghost predicate AbsentBelow(q: Request, v: Levels, d: Dependency, s: Stage, level: int) {
    && (forall k :: 0 <= k < |q.del| && DeletedMatch(q.del[k], d, s) ==>
          q.del[k].mustDelete && v.level(q.del[k].id, 0) < level)
    && (forall k :: 0 <= k < |q.inst| && Eligible(CleanedUpOne, d, s, q.inst[k]) ==> LevelOf(v, q.inst[k]) < level)
  }

  /** Whatever a dependency can wait for in a stage is below. */
  ghost predicate Below(q: Request, v: Levels, d: Dependency, s: Stage, level: int) {
    match d.state
    case Present => forall k :: 0 <= k < |q.inst| && Eligible(DeployedOne, d, s, q.inst[k]) ==>
      LevelOf(v, q.inst[k]) < level
    case Ready => forall k :: 0 <= k < |q.inst| && Eligible(TrackedOne, d, s, q.inst[k]) ==>
      LevelOf(v, q.inst[k]) < level
    case Absent => AbsentBelow(q, v, d, s, level)
  }

  /** External dependencies are listed in rising order, below the resource that has them. */
  ghost predicate ExternalsRise(v: Levels, i: InstallableInfo) {
    && (forall n, m :: 0 <= n < m < |Externals(i)| ==> v.ext(Externals(i)[n]) < v.ext(Externals(i)[m]))
    && (forall n :: 0 <= n < |Externals(i)| ==> v.ext(Externals(i)[n]) <= LevelOf(v, i))
  }

  /** Resources that share an external dependency share their stage and weight. */
  ghost predicate ExternalsTogether(inst: seq<InstallableInfo>) {
    forall i, k, e :: 0 <= i < |inst| && 0 <= k < |inst| && e in Externals(inst[i]) && e in Externals(inst[k]) ==>
      DeployRef(inst[i]) == DeployRef(inst[k])
  }

  /** A lower weight in the same stage. */
  ghost predicate Lighter(a: InstallableInfo, b: InstallableInfo) {
    a.stage == b.stage && a.res.weight.Some? && b.res.weight.Some? && a.res.weight.value < b.res.weight.value
  }

  /** Levels rise along dependencies, along the weights of a stage, and towards a resource. */
  ghost predicate Orderly(q: Request, v: Levels) {
    && (forall i, d :: 0 <= i < |q.inst| && q.inst[i].mustInstall != InstallNone && d in Deps(q.inst[i]) ==>
          Below(q, v, d, q.inst[i].stage, LevelOf(v, q.inst[i])))
    && (forall i, d :: 0 <= i < |q.del| && q.del[i].mustDelete && d in q.del[i].deps ==>
          AbsentBelow(q, v, d, q.del[i].stage, v.level(q.del[i].id, 0)))
    && (forall i, k :: 0 <= i < |q.inst| && 0 <= k < |q.inst| && Lighter(q.inst[i], q.inst[k]) ==>
          LevelOf(v, q.inst[i]) < BottomOf(v, q.inst[k]))
    && (forall i :: 0 <= i < |q.inst| ==> ExternalsRise(v, q.inst[i]))
  }

  /** What the decisions promise of infos, and the builder of its order of stages. */
  ghost predicate WellFormed(q: Request) {
    && CoversWeights(q.order, q.inst) && DistinctRevisions(q.rel)
    && (forall i :: 0 <= i < |q.inst| ==> Sound(q.inst[i]))
  }

  // ----- where an operation stands -----

  /** A step of the chains has this operation, in this stage. */
  ghost predicate HasHome(cs: seq<Chain>, id: OpID, ref: StageRef) {
    exists k, i :: 0 <= k < |cs| && 0 <= i < |cs[k]| && cs[k][i].op.ID() == id && cs[k][i].stage == Some(ref)
  }

  ghost predicate Home(q: Request, id: OpID, ref: StageRef) {
    HasHome(ReleaseChains(q.rel), id, ref) || HasHome(DeleteChains(q.del), id, ref)
      || HasHome(InstallChains(q.inst), id, ref)
  }

  lemma LoneHome(g: Graph, cs: seq<Chain>, id: OpID, a: StageRef, b: StageRef)
    requires LoneChains(g, cs) && HasHome(cs, id, a) && HasHome(cs, id, b)
    ensures a == b
  {
  }

  lemma ReleaseHomeKey(rel: seq<ReleaseInfo>, cs: seq<Chain>, id: OpID, ref: StageRef)
    requires cs == ReleaseChains(rel) && HasHome(cs, id, ref)
    ensures id.config.RevisionKey? && ref.MainStage?
  {
  }

  lemma DeleteHome(q: Request, cs: seq<Chain>, id: OpID, ref: StageRef) returns (k: nat)
    requires cs == DeleteChains(q.del) && HasHome(cs, id, ref)
    ensures k < |q.del| && IsDeletionOp(q.del[k], id) && ref == MainStage(q.del[k].stage)
  {
    var i;
    k, i :| 0 <= k < |cs| && 0 <= i < |cs[k]| && cs[k][i].op.ID() == id && cs[k][i].stage == Some(ref);
    DeletionOps(q.del[k], id);
  }

  lemma InstallHome(inst: seq<InstallableInfo>, cs: seq<Chain>, id: OpID, ref: StageRef) returns (k: nat, i: nat)
    requires cs == InstallChains(inst) && HasHome(cs, id, ref)
    ensures k < |inst| && i < |InstallChain(inst[k])| && InstallChain(inst[k])[i].op.ID() == id
      && InstallChain(inst[k])[i].stage == Some(ref)
  {
    k, i :| 0 <= k < |cs| && 0 <= i < |cs[k]| && cs[k][i].op.ID() == id && cs[k][i].stage == Some(ref);
  }

  lemma DeleteHomeUnique(q: Request, cs: seq<Chain>, id: OpID, a: StageRef, b: StageRef)
    requires DistinctOps(q) && cs == DeleteChains(q.del) && HasHome(cs, id, a) && HasHome(cs, id, b)
    ensures a == b
  {
    var k := DeleteHome(q, cs, id, a);
    var m := DeleteHome(q, cs, id, b);
  }

  /** The stages of the operations that an info shares with others, and of its own. */
  lemma ExternalStep(i: InstallableInfo, n: nat)
    requires n < |InstallChain(i)| && InstallChain(i)[n].skipOnDuplicate
    ensures n < |Externals(i)| && InstallChain(i)[n].stage == Some(DeployRef(i))
    ensures InstallChain(i)[n].op.ID() == ResourceOpID(TypeTrackPresence, 0, Externals(i)[n])
  {
    ChainPositions(i);
  }

  lemma InstallHomeUnique(q: Request, cs: seq<Chain>, id: OpID, a: StageRef, b: StageRef)
    requires DistinctOps(q) && ExternalsTogether(q.inst) && cs == InstallChains(q.inst) && HasHome(cs, id, a)
      && HasHome(cs, id, b)
    ensures a == b
  {
    var k, i := InstallHome(q.inst, cs, id, a);
    var m, j := InstallHome(q.inst, cs, id, b);
    InstallStepCases(q.inst[k], i);
    InstallStepCases(q.inst[m], j);
    if InstallChain(q.inst[k])[i].skipOnDuplicate {
      ExternalStep(q.inst[k], i);
      ExternalStep(q.inst[m], j);
      assert id.config.resource in Externals(q.inst[k]) && id.config.resource in Externals(q.inst[m]);
    } else {
      OwnHome(q, k, i, m, j);
    }
  }

  lemma OwnHome(q: Request, k: nat, i: nat, m: nat, j: nat)
    requires DistinctOps(q) && k < |q.inst| && m < |q.inst| && i < |InstallChain(q.inst[k])|
      && j < |InstallChain(q.inst[m])|
    requires !InstallChain(q.inst[k])[i].skipOnDuplicate && !InstallChain(q.inst[m])[j].skipOnDuplicate
    requires InstallChain(q.inst[k])[i].op.ID() == InstallChain(q.inst[m])[j].op.ID()
    ensures k == m && i == j
  {
    if k < m {
      SameStepClashes(q.inst[k], i, q.inst[m], j);
    } else if m < k {
      SameStepClashes(q.inst[m], j, q.inst[k], i);
    } else if i < j {
      OwnStepsDiffer(q.inst[k], i, j);
    } else if j < i {
      OwnStepsDiffer(q.inst[k], j, i);
    }
  }

  /** No operation both deletes a resource and belongs to its installation. */
  lemma DeleteOrInstall(q: Request, id: OpID, a: StageRef, b: StageRef)
    requires DistinctOps(q) && HasHome(DeleteChains(q.del), id, a)
    ensures !HasHome(InstallChains(q.inst), id, b)
  {
    if HasHome(InstallChains(q.inst), id, b) {
      var k := DeleteHome(q, DeleteChains(q.del), id, a);
      var m, i := InstallHome(q.inst, InstallChains(q.inst), id, b);
      InstallStepCases(q.inst[m], i);
      DeletionOpClashes(q.del[k], q.inst[m], i);
    }
  }

  lemma ResourceHomeKey(q: Request, id: OpID, ref: StageRef)
    requires HasHome(DeleteChains(q.del), id, ref) || HasHome(InstallChains(q.inst), id, ref)
    ensures id.config.ResourceKey?
  {
    if HasHome(DeleteChains(q.del), id, ref) {
      var k := DeleteHome(q, DeleteChains(q.del), id, ref);
    } else {
      var k, i := InstallHome(q.inst, InstallChains(q.inst), id, ref);
      InstallStepKey(q.inst[k], i);
    }
  }

  lemma InstallStepKey(i: InstallableInfo, n: nat)
    requires n < |InstallChain(i)|
    ensures InstallChain(i)[n].op.ID().config.ResourceKey?
  {
    InstallStepCases(i, n);
    if InstallChain(i)[n].skipOnDuplicate { ExternalStep(i, n); }
  }

  /** An operation stands in one stage. */
  lemma HomeUnique(q: Request, id: OpID, a: StageRef, b: StageRef)
    requires DistinctRevisions(q.rel) && DistinctOps(q) && ExternalsTogether(q.inst) && Home(q, id, a) && Home(q, id, b)
    ensures a == b
  {
    if HasHome(ReleaseChains(q.rel), id, a) || HasHome(ReleaseChains(q.rel), id, b) {
      BothReleased(q, id, a, b);
    } else if HasHome(DeleteChains(q.del), id, a) {
      DeleteOrInstall(q, id, a, b);
      DeleteHomeUnique(q, DeleteChains(q.del), id, a, b);
    } else {
      if HasHome(DeleteChains(q.del), id, b) { DeleteOrInstall(q, id, b, a); }
      InstallHomeUnique(q, InstallChains(q.inst), id, a, b);
    }
  }

  lemma BothReleased(q: Request, id: OpID, a: StageRef, b: StageRef)
    requires DistinctRevisions(q.rel) && Home(q, id, a) && Home(q, id, b)
    requires HasHome(ReleaseChains(q.rel), id, a) || HasHome(ReleaseChains(q.rel), id, b)
    ensures a == b
  {
    var cs: seq<Chain> := ReleaseChains(q.rel);
    ReleaseChainsLone(Empty(), q.rel);
    forall ref | Home(q, id, ref) ensures HasHome(cs, id, ref) <==> id.config.RevisionKey? {
      if HasHome(cs, id, ref) { ReleaseHomeKey(q.rel, cs, id, ref); } else { ResourceHomeKey(q, id, ref); }
    }
    LoneHome(Empty(), cs, id, a, b);
  }

  // ----- the levels of a sub-stage -----

  ghost predicate InSub(i: InstallableInfo, s: Stage, w: int) {
    i.stage == s && i.res.weight == Some(w)
  }

  ghost predicate AnySub(inst: seq<InstallableInfo>, s: Stage, w: int, n: nat)
    requires n <= |inst|
  {
    exists k :: 0 <= k < n && InSub(inst[k], s, w)
  }

  /** The lowest value that one of the first `n` infos has in a sub-stage. */
  ghost function Low(inst: seq<InstallableInfo>, f: InstallableInfo -> int, s: Stage, w: int, n: nat): int
    requires n <= |inst|
  {
    if n == 0 then 0
    else
      var rest := Low(inst, f, s, w, n - 1);
      if !InSub(inst[n - 1], s, w)
        || (AnySub(inst, s, w, n - 1) && rest <= f(inst[n - 1])) then rest else f(inst[n - 1])
  }

  lemma {:induction false} LowIs(inst: seq<InstallableInfo>, f: InstallableInfo -> int, s: Stage, w: int, n: nat)
    requires n <= |inst| && AnySub(inst, s, w, n)
    ensures exists i :: 0 <= i < n && InSub(inst[i], s, w) && Low(inst, f, s, w, n) == f(inst[i])
    ensures forall k :: 0 <= k < n && InSub(inst[k], s, w) ==> Low(inst, f, s, w, n) <= f(inst[k])
  {
    if AnySub(inst, s, w, n - 1) {
      LowIs(inst, f, s, w, n - 1);
      var i :| 0 <= i < n - 1 && InSub(inst[i], s, w) && Low(inst, f, s, w, n - 1) == f(inst[i]);
    }
  }

  ghost function Bottom(q: Request, v: Levels, s: Stage, w: int): int {
    Low(q.inst, x => BottomOf(v, x), s, w, |q.inst|)
  }

  ghost function Top(q: Request, v: Levels, s: Stage, w: int): int {
    -Low(q.inst, x => -LevelOf(v, x), s, w, |q.inst|)
  }

  lemma BottomBelowLevel(v: Levels, i: InstallableInfo)
    requires ExternalsRise(v, i)
    ensures BottomOf(v, i) <= LevelOf(v, i)
    ensures forall n :: 0 <= n < |Externals(i)| ==> BottomOf(v, i) <= v.ext(Externals(i)[n]) <= LevelOf(v, i)
  {
  }

  /** What happens for an info of a sub-stage happens between its bottom and its top. */
  lemma WithinSub(q: Request, v: Levels, s: Stage, w: int, k: nat)
    requires k < |q.inst| && InSub(q.inst[k], s, w)
    ensures Bottom(q, v, s, w) <= BottomOf(v, q.inst[k]) && LevelOf(v, q.inst[k]) <= Top(q, v, s, w)
  {
    LowIs(q.inst, x => BottomOf(v, x), s, w, |q.inst|);
    LowIs(q.inst, x => -LevelOf(v, x), s, w, |q.inst|);
  }

  /** A lower weight lies wholly below a higher one. */
  lemma SubsApart(q: Request, v: Levels, s: Stage, w: int, w': int, k: nat, k': nat)
    requires Orderly(q, v) && w < w' && k < |q.inst| && k' < |q.inst| && InSub(q.inst[k], s, w)
      && InSub(q.inst[k'], s, w')
    ensures Top(q, v, s, w) < Bottom(q, v, s, w')
  {
    var f, g := (x: InstallableInfo) => -LevelOf(v, x), (x: InstallableInfo) => BottomOf(v, x);
    LowIs(q.inst, f, s, w, |q.inst|);
    LowIs(q.inst, g, s, w', |q.inst|);
    var i :| 0 <= i < |q.inst| && InSub(q.inst[i], s, w) && Low(q.inst, f, s, w, |q.inst|) == f(q.inst[i]);
    var j :| 0 <= j < |q.inst| && InSub(q.inst[j], s, w') && Low(q.inst, g, s, w', |q.inst|) == g(q.inst[j]);
    assert Lighter(q.inst[i], q.inst[j]);
  }

  // ----- the rank of an operation -----

  ghost function StageOf(q: Request, id: OpID): int {
    if ref :| Home(q, id, ref) then StageIndex(ref.stage) else 0
  }

  ghost function StepRank(t: OpType): int {
    match t
    case TypeTrackPresence => 1
    case TypeTrackReadiness => 3
    case TypeDelete => 4
    case TypeTrackAbsence => 5
    case _ => 2
  }

  ghost function LevelAt(v: Levels, id: OpID): int {
    if !id.config.ResourceKey? then 0
    else if id.typ == TypeTrackPresence then v.ext(id.config.resource)
    else v.level(id.config.resource, id.iteration)
  }

  /** Stage first, then its opening, what is inside and its closing; inside by level, then by step. */
  ghost function RankOf(q: Request, v: Levels, id: OpID): Rank {
    match id.config
    case Bracket(MainStage(s), isEnd) => Rank(StageIndex(s), if isEnd then 2 else 0, 0, 0)
    case Bracket(SubStage(s, w), isEnd) =>
      if isEnd then Rank(StageIndex(s), 1, Top(q, v, s, w), 6) else Rank(StageIndex(s), 1, Bottom(q, v, s, w), 0)
    case _ => Rank(StageOf(q, id), 1, LevelAt(v, id), StepRank(id.typ))
  }

  ghost function RankFunction(q: Request, v: Levels): OpID -> Rank {
    id => RankOf(q, v, id)
  }

  ghost predicate Up(q: Request, v: Levels, x: OpID, y: OpID) {
    Less(RankOf(q, v, x), RankOf(q, v, y))
  }

  lemma StageIs(q: Request, id: OpID, ref: StageRef)
    requires DistinctRevisions(q.rel) && DistinctOps(q) && ExternalsTogether(q.inst) && Home(q, id, ref)
    ensures StageOf(q, id) == StageIndex(ref.stage) && !id.config.Bracket?
  {
    forall other | Home(q, id, other) ensures other == ref { HomeUnique(q, id, ref, other); }
    if HasHome(ReleaseChains(q.rel), id, ref) {
      ReleaseHomeKey(q.rel, ReleaseChains(q.rel), id, ref);
    } else {
      ResourceHomeKey(q, id, ref);
    }
  }

  lemma RankIs(q: Request, v: Levels, id: OpID, ref: StageRef)
    requires DistinctRevisions(q.rel) && DistinctOps(q) && ExternalsTogether(q.inst) && Home(q, id, ref)
    ensures RankOf(q, v, id) == Rank(StageIndex(ref.stage), 1, LevelAt(v, id), StepRank(id.typ))
  {
    StageIs(q, id, ref);
  }

  /** Between the ranks of the brackets of a stage. */
  ghost predicate Inside(q: Request, v: Levels, r: Rank, ref: StageRef) {
    && r.stage == StageIndex(ref.stage) && r.part == 1 && 0 < r.step < 6
    && (ref.SubStage? ==> Bottom(q, v, ref.stage, ref.weight) <= r.level <= Top(q, v, ref.stage, ref.weight))
  }

  lemma InsideIsBetween(q: Request, v: Levels, r: Rank, ref: StageRef)
    requires Inside(q, v, r, ref)
    ensures Less(RankOf(q, v, BracketID(ref, false)), r) && Less(r, RankOf(q, v, BracketID(ref, true)))
  {
    BracketRank(q, v, ref);
  }

  /** An operation in a stage lies between its brackets. */
  lemma StageEdgesUp(q: Request, v: Levels, id: OpID, ref: StageRef)
    requires DistinctRevisions(q.rel) && DistinctOps(q) && ExternalsTogether(q.inst) && Home(q, id, ref)
    requires ref.SubStage? ==> Bottom(q, v, ref.stage, ref.weight) <= LevelAt(v, id) <= Top(q, v, ref.stage, ref.weight)
    ensures Up(q, v, BracketID(ref, false), id) && Up(q, v, id, BracketID(ref, true))
  {
    RankIs(q, v, id, ref);
    StepBounds(id.typ);
    InsideIsBetween(q, v, Rank(StageIndex(ref.stage), 1, LevelAt(v, id), StepRank(id.typ)), ref);
  }

  lemma StepBounds(t: OpType)
    ensures 0 < StepRank(t) < 6
  {
  }

  lemma BracketRank(q: Request, v: Levels, ref: StageRef)
    ensures ref.MainStage? ==> RankOf(q, v, BracketID(ref, false)) == Rank(StageIndex(ref.stage), 0, 0, 0)
    ensures ref.MainStage? ==> RankOf(q, v, BracketID(ref, true)) == Rank(StageIndex(ref.stage), 2, 0, 0)
    ensures ref.SubStage? ==>
      RankOf(q, v, BracketID(ref, false)) == Rank(StageIndex(ref.stage), 1, Bottom(q, v, ref.stage, ref.weight), 0)
    ensures ref.SubStage? ==>
      RankOf(q, v, BracketID(ref, true)) == Rank(StageIndex(ref.stage), 1, Top(q, v, ref.stage, ref.weight), 6)
  {
  }
}
