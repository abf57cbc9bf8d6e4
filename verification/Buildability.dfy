/** When building a plan cannot fail (pkg/plan/plan_build.go): if operations do not collide, and the
    resources can be given levels that rise along dependencies and along weights. */
module Buildability {
  import opened Operations
  import opened Precedence
  import opened PlanGraph
  import opened Chains
  import opened ResourceInfo
  import opened ReleaseInfo
  import opened PlanRequest
  import opened PlanBuild
  import opened Dependencies
  import opened Stages
  import opened Builder
  import opened StageOrder
  import opened PlanProperties
  import opened Collisions
  import opened Ranks
  import FailurePlan

  // ----- edges that chains add -----

  ghost predicate StepEdge(c: Chain, i: nat, e: Edge)
    requires i < |c|
  {
    e in PlacedEdges(c[i], Before(c, i), true)
  }

  lemma {:induction false} StepEdgeOrigin(g: Graph, c: Chain, n: nat, e: Edge)
    requires n <= |c| && e in AfterSteps(g, c, n).edges
    ensures e in g.edges || exists i :: 0 <= i < n && StepEdge(c, i, e)
    decreases n
  {
    if n > 0 {
      if e in AfterSteps(g, c, n - 1).edges { StepEdgeOrigin(g, c, n - 1, e); } else { assert StepEdge(c, n - 1, e); }
    }
  }

  /** Every edge that chains add is one of a step. */
  lemma {:induction false} EdgeOrigin(g: Graph, cs: seq<Chain>, k: nat, e: Edge)
    requires k <= |cs| && e in AfterChains(g, cs, k).edges
    ensures e in g.edges || exists m, i :: 0 <= m < k && 0 <= i < |cs[m]| && StepEdge(cs[m], i, e)
    decreases k
  {
    if k > 0 {
      var f := AfterChains(g, cs, k - 1);
      StepEdgeOrigin(f, cs[k - 1], |cs[k - 1]|, e);
      if e in f.edges { EdgeOrigin(g, cs, k - 1, e); }
    }
  }

  ghost predicate AllUp(q: Request, v: Levels, E: set<Edge>) {
    forall x, y :: (x, y) in E ==> Up(q, v, x, y)
  }

  /** If every step only adds rising edges, so do all chains. */
  lemma ChainsUp(q: Request, v: Levels, g: Graph, cs: seq<Chain>)
    requires AllUp(q, v, g.edges)
    requires forall k, i, x, y :: 0 <= k < |cs| && 0 <= i < |cs[k]| && StepEdge(cs[k], i, (x, y)) ==> Up(q, v, x, y)
    ensures AllUp(q, v, AfterAll(g, cs).edges)
  {
    forall x, y | (x, y) in AfterAll(g, cs).edges ensures Up(q, v, x, y) {
      EdgeOrigin(g, cs, |cs|, (x, y));
    }
  }

  // ----- stages, releases and deletions -----

  lemma MainStepUp(q: Request, v: Levels, i: nat, x: OpID, y: OpID)
    requires i < |MainChain()| && StepEdge(MainChain(), i, (x, y))
    ensures Up(q, v, x, y)
  {
    var s := STAGES_ORDERED[i / 2];
    var p := STAGES_ORDERED[(if i == 0 then 1 else i - 1) / 2];
    StagesDiffer(StageIndex(s), i / 2);
    StagesDiffer(StageIndex(p), (if i == 0 then 1 else i - 1) / 2);
    BracketRank(q, v, MainStage(s));
    BracketRank(q, v, MainStage(p));
  }

  /** The edges of weight `n`: into, through and out of its sub-stage. */
  ghost predicate WeightEdge(s: Stage, ws: seq<int>, n: nat, x: OpID, y: OpID)
    requires n < |ws|
  {
    var sub := SubStage(s, ws[n]);
    || (x == BracketID(MainStage(s), false) && y in {BracketID(sub, false), BracketID(sub, true)})
    || (x in {BracketID(sub, false), BracketID(sub, true)} && y == BracketID(MainStage(s), true))
    || (x == BracketID(sub, false) && y == BracketID(sub, true))
    || (n > 0 && x == BracketID(SubStage(s, ws[n - 1]), true) && y == BracketID(sub, false))
  }

  lemma WeightStepEdge(s: Stage, ws: seq<int>, i: nat, x: OpID, y: OpID)
    requires i < |WeightChain(s, ws)| && StepEdge(WeightChain(s, ws), i, (x, y))
    ensures WeightEdge(s, ws, i / 2, x, y)
  {
    var n := i / 2;
    WeightStep(s, ws, n);
    if i % 2 == 0 {
      assert i == 2 * n;
      if n > 0 { WeightStep(s, ws, n - 1); }
    } else {
      assert i == 2 * n + 1;
    }
  }

  lemma SubBracketsUp(q: Request, v: Levels, s: Stage, w: int, k: nat)
    requires k < |q.inst| && InSub(q.inst[k], s, w) && ExternalsRise(v, q.inst[k])
    ensures Bottom(q, v, s, w) <= Top(q, v, s, w)
  {
    WithinSub(q, v, s, w, k);
    BottomBelowLevel(v, q.inst[k]);
  }

  lemma WeightEdgeUp(q: Request, v: Levels, s: Stage, ws: seq<int>, n: nat, x: OpID, y: OpID)
    requires n < |ws| && WeightEdge(s, ws, n, x, y) && Bottom(q, v, s, ws[n]) <= Top(q, v, s, ws[n])
    requires n > 0 ==> Top(q, v, s, ws[n - 1]) < Bottom(q, v, s, ws[n])
    ensures Up(q, v, x, y)
  {
    BracketRank(q, v, MainStage(s));
    BracketRank(q, v, SubStage(s, ws[n]));
    if n > 0 { BracketRank(q, v, SubStage(s, ws[n - 1])); }
  }

  lemma WeightStepUp(q: Request, v: Levels, s: Stage, i: nat, x: OpID, y: OpID)
    requires Orderly(q, v)
    requires i < |WeightChain(s, Weights(q.inst, s))| && StepEdge(WeightChain(s, Weights(q.inst, s)), i, (x, y))
    ensures Up(q, v, x, y)
  {
    var ws, n := Weights(q.inst, s), i / 2;
    WeightStepEdge(s, ws, i, x, y);
    var k := WeightOwner(q, s, n);
    SubBracketsUp(q, v, s, ws[n], k);
    if n > 0 {
      var k' := WeightOwner(q, s, n - 1);
      SubsApart(q, v, s, ws[n - 1], ws[n], k', k);
    }
    WeightEdgeUp(q, v, s, ws, n, x, y);
  }

  lemma WeightOwner(q: Request, s: Stage, n: nat) returns (k: nat)
    requires n < |Weights(q.inst, s)|
    ensures k < |q.inst| && InSub(q.inst[k], s, Weights(q.inst, s)[n])
  {
    WeightIn(q.inst, s, |q.inst|, Weights(q.inst, s)[n]);
    k :| 0 <= k < |q.inst| && q.inst[k].stage == s && q.inst[k].res.weight == Some(Weights(q.inst, s)[n]);
  }

  lemma ReleaseStepUp(q: Request, v: Levels, cs: seq<Chain>, k: nat, i: nat, x: OpID, y: OpID)
    requires DistinctRevisions(q.rel) && DistinctOps(q) && ExternalsTogether(q.inst) && cs == ReleaseChains(q.rel)
    requires k < |cs| && i < |cs[k]| && StepEdge(cs[k], i, (x, y))
    ensures Up(q, v, x, y)
  {
    ReleaseChainsLone(Empty(), q.rel);
    var ref := cs[k][i].stage.value;
    assert HasHome(cs, cs[k][i].op.ID(), ref);
    StageEdgesUp(q, v, cs[k][i].op.ID(), ref);
  }

  lemma DeleteStepUp(q: Request, v: Levels, cs: seq<Chain>, k: nat, i: nat, x: OpID, y: OpID)
    requires DistinctRevisions(q.rel) && DistinctOps(q) && ExternalsTogether(q.inst) && cs == DeleteChains(q.del)
    requires k < |cs| && i < |cs[k]| && StepEdge(cs[k], i, (x, y))
    ensures Up(q, v, x, y)
  {
    var ref := MainStage(q.del[k].stage);
    DeleteStepID(q.del[k], i);
    assert HasHome(cs, cs[k][i].op.ID(), ref);
    StageEdgesUp(q, v, cs[k][i].op.ID(), ref);
    if i > 0 {
      DeleteStepID(q.del[k], i - 1);
      assert HasHome(cs, cs[k][i - 1].op.ID(), ref);
      RankIs(q, v, cs[k][i - 1].op.ID(), ref);
      RankIs(q, v, cs[k][i].op.ID(), ref);
    }
  }

  // ----- installations -----

  ghost predicate Sane(q: Request) {
    WellFormed(q) && DistinctOps(q) && ExternalsTogether(q.inst)
  }

  /** Where a step of an install chain stands, and at which level. */
  ghost predicate WellPlaced(v: Levels, i: InstallableInfo, st: ChainStep) {
    && st.stage.Some?
    && (st.stage.value.SubStage? ==>
          st.stage.value == DeployRef(i) && BottomOf(v, i) <= LevelAt(v, st.op.ID()) <= LevelOf(v, i))
  }

  lemma ExternalPlaced(v: Levels, i: InstallableInfo, n: nat)
    requires n < |ExternalSteps(i)| && ExternalsRise(v, i)
    ensures WellPlaced(v, i, InstallChain(i)[n])
  {
    ExternalStep(i, n);
    BottomBelowLevel(v, i);
  }

  lemma OwnPlaced(v: Levels, i: InstallableInfo, n: nat)
    requires |ExternalSteps(i)| <= n < |InstallChain(i)| && Sound(i) && ExternalsRise(v, i)
    ensures WellPlaced(v, i, InstallChain(i)[n])
  {
    BottomBelowLevel(v, i);
    OwnStep(i, n);
  }

  /** A step that is not shared: what it does and where it stands. */
  lemma OwnStep(i: InstallableInfo, n: nat)
    requires |ExternalSteps(i)| <= n < |InstallChain(i)| && Sound(i)
    ensures var st := InstallChain(i)[n];
      && st.op.ID() == ResourceOpID(st.op.typ, i.iteration, i.res.id) && st.op.typ != TypeTrackPresence
      && (st.stage == Some(DeployRef(i)) || (i.mustDeleteOnSuccess && st.stage == Some(MainStage(i.deleteStage.value))))
  {
    ChainPositions(i);
  }

  /** A step comes later than the one before it: by stage, by level or by kind. */
  ghost predicate Follows(v: Levels, a: ChainStep, b: ChainStep)
    requires a.stage.Some? && b.stage.Some?
  {
    || StageIndex(a.stage.value.stage) < StageIndex(b.stage.value.stage)
    || (a.stage == b.stage && LevelAt(v, a.op.ID()) < LevelAt(v, b.op.ID()))
    || (a.stage == b.stage && LevelAt(v, a.op.ID()) == LevelAt(v, b.op.ID()) && StepRank(a.op.typ) < StepRank(b.op.typ))
  }

  lemma ExternalFollows(v: Levels, i: InstallableInfo, n: nat)
    requires 0 < n < |InstallChain(i)| && n <= |ExternalSteps(i)| && ExternalsRise(v, i)
    ensures InstallChain(i)[n - 1].stage.Some? && InstallChain(i)[n].stage.Some?
    ensures Follows(v, InstallChain(i)[n - 1], InstallChain(i)[n])
  {
    ChainPositions(i);
    ExternalStep(i, n - 1);
    if n < |ExternalSteps(i)| { ExternalStep(i, n); }
  }

  lemma OwnFollows(v: Levels, i: InstallableInfo, n: nat)
    requires |ExternalSteps(i)| < n < |InstallChain(i)| && Sound(i)
    ensures InstallChain(i)[n - 1].stage.Some? && InstallChain(i)[n].stage.Some?
    ensures Follows(v, InstallChain(i)[n - 1], InstallChain(i)[n])
  {
    ChainPositions(i);
    if i.mustDeleteOnSuccess { FailurePlan.CleanupAfterDeploy(i); }
  }

  lemma InstallStepUp(q: Request, v: Levels, cs: seq<Chain>, k: nat, n: nat, x: OpID, y: OpID)
    requires Sane(q) && Orderly(q, v) && cs == InstallChains(q.inst)
    requires k < |cs| && n < |cs[k]| && StepEdge(cs[k], n, (x, y))
    ensures Up(q, v, x, y)
  {
    var i, c := q.inst[k], cs[k];
    if n < |ExternalSteps(i)| { ExternalPlaced(v, i, n); } else { OwnPlaced(v, i, n); }
    var id, ref := c[n].op.ID(), c[n].stage.value;
    assert HasHome(cs, id, ref);
    if ref.SubStage? { WithinSub(q, v, ref.stage, ref.weight, k); }
    StageEdgesUp(q, v, id, ref);
    if n > 0 { InstallLinkUp(q, v, cs, k, n); }
  }

  lemma InstallLinkUp(q: Request, v: Levels, cs: seq<Chain>, k: nat, n: nat)
    requires Sane(q) && Orderly(q, v) && cs == InstallChains(q.inst) && k < |cs| && 0 < n < |cs[k]|
    ensures Up(q, v, cs[k][n - 1].op.ID(), cs[k][n].op.ID())
  {
    var i, c := q.inst[k], cs[k];
    if n <= |ExternalSteps(i)| { ExternalFollows(v, i, n); } else { OwnFollows(v, i, n); }
    assert HasHome(cs, c[n - 1].op.ID(), c[n - 1].stage.value) && HasHome(cs, c[n].op.ID(), c[n].stage.value);
    RankIs(q, v, c[n - 1].op.ID(), c[n - 1].stage.value);
    RankIs(q, v, c[n].op.ID(), c[n].stage.value);
  }

  // ----- dependencies -----

  /** An operation of the stage, below a level. */
  ghost predicate BelowIn(q: Request, v: Levels, x: OpID, s: Stage, level: int) {
    LevelAt(v, x) < level && exists ref :: Home(q, x, ref) && ref.stage == s
  }

  lemma InstallOpHome(q: Request, k: nat, op: Operation, ref: StageRef)
    requires k < |q.inst| && OperationOf(q.inst[k], op, ref)
    ensures Home(q, op.ID(), ref)
  {
    var cs: seq<Chain> := InstallChains(q.inst);
    InstallSteps(q.inst[k]);
    var n :| 0 <= n < |InstallChain(q.inst[k])| && InstallChain(q.inst[k])[n] == ChainStep(op, Some(ref), false);
    assert cs[k][n].op.ID() == op.ID();
    assert HasHome(cs, op.ID(), ref);
  }

  lemma DeletionHome(q: Request, k: nat, id: OpID)
    requires k < |q.del| && IsDeletionOp(q.del[k], id)
    ensures Home(q, id, MainStage(q.del[k].stage))
  {
    var cs: seq<Chain> := DeleteChains(q.del);
    DeletionOps(q.del[k], id);
    var n :| 0 <= n < |DeleteChain(q.del[k])| && DeleteChain(q.del[k])[n].op.ID() == id;
    assert cs[k][n].op.ID() == id;
    assert HasHome(cs, id, MainStage(q.del[k].stage));
  }

  lemma AbsenceBelow(q: Request, v: Levels, ids: set<OpID>, d: Dependency, s: Stage, level: int, x: OpID)
    requires Sane(q) && AbsentBelow(q, v, d, s, level) && x in AbsenceOps(ids, q.del, q.inst, d, s)
    ensures BelowIn(q, v, x, s, level)
  {
    AbsenceOpOrigin(ids, q.del, q.inst, d, s, x);
    if k :| 0 <= k < |q.del| && DeletedMatch(q.del[k], d, s) && x == AbsenceID(q.del[k]) {
      DeletionBelow(q, v, s, level, k, x);
    } else {
      var k :| 0 <= k < |q.inst| && Eligible(CleanedUpOne, d, s, q.inst[k]) && x == CleanupTrackOp(q.inst[k]).ID();
      CleanupBelow(q, v, d, s, level, k);
    }
  }

  lemma DeletionBelow(q: Request, v: Levels, s: Stage, level: int, k: nat, x: OpID)
    requires k < |q.del| && q.del[k].stage == s && IsDeletionOp(q.del[k], x) && v.level(q.del[k].id, 0) < level
    ensures BelowIn(q, v, x, s, level)
  {
    DeletionHome(q, k, x);
  }

  lemma CleanupBelow(q: Request, v: Levels, d: Dependency, s: Stage, level: int, k: nat)
    requires k < |q.inst| && Eligible(CleanedUpOne, d, s, q.inst[k]) && LevelOf(v, q.inst[k]) < level
    ensures BelowIn(q, v, CleanupTrackOp(q.inst[k]).ID(), s, level)
  {
    InstallOpHome(q, k, CleanupTrackOp(q.inst[k]), MainStage(s));
  }

  lemma MatchIndex(inst: seq<InstallableInfo>, w: Wanted, d: Dependency, s: Stage) returns (k: nat)
    requires LowestMatch(inst, w, d, s, |inst|).Some?
    ensures k < |inst| && LowestMatch(inst, w, d, s, |inst|) == Some(inst[k]) && Eligible(w, d, s, inst[k])
  {
    LowestMatchIsLowest(inst, w, d, s, |inst|);
    k :| 0 <= k < |inst| && inst[k] == LowestMatch(inst, w, d, s, |inst|).value;
  }

  /** Whatever a dependency waits for stands in the stage, below the level. */
  lemma TargetBelow(q: Request, v: Levels, ids: set<OpID>, d: Dependency, s: Stage, level: int, x: OpID)
    requires Sane(q) && Below(q, v, d, s, level) && DeployTarget(ids, q.del, q.inst, d, s) == Some(x)
    ensures BelowIn(q, v, x, s, level)
  {
    match d.state
    case Present =>
      var k := MatchIndex(q.inst, DeployedOne, d, s);
      InstallOpHome(q, k, DeployOp(q.inst[k]), DeployRef(q.inst[k]));
    case Ready =>
      var k := MatchIndex(q.inst, TrackedOne, d, s);
      InstallOpHome(q, k, ReadinessOp(q.inst[k]), DeployRef(q.inst[k]));
    case Absent =>
      AbsenceBelow(q, v, ids, d, s, level, x);
  }

  lemma BelowIsUp(q: Request, v: Levels, x: OpID, y: OpID, ref: StageRef)
    requires Sane(q) && Home(q, y, ref) && BelowIn(q, v, x, ref.stage, LevelAt(v, y))
    ensures Up(q, v, x, y)
  {
    var r :| Home(q, x, r) && r.stage == ref.stage;
    RankIs(q, v, x, r);
    RankIs(q, v, y, ref);
  }

  lemma DeployDependencyUp(q: Request, v: Levels, ids: set<OpID>, x: OpID, y: OpID)
    requires Sane(q) && Orderly(q, v) && (x, y) in DeployDepEdges(ids, q.del, q.inst, |q.inst|)
    ensures Up(q, v, x, y)
  {
    var i, d := DeployDepEdgeOrigin(ids, q.del, q.inst, |q.inst|, (x, y));
    var ref := DeployRef(q.inst[i]);
    TargetBelow(q, v, ids, d, q.inst[i].stage, LevelOf(v, q.inst[i]), x);
    InstallOpHome(q, i, DeployOp(q.inst[i]), ref);
    BelowIsUp(q, v, x, y, ref);
  }

  lemma DeleteDependencyUp(q: Request, v: Levels, ids: set<OpID>, x: OpID, y: OpID)
    requires Sane(q) && Orderly(q, v) && (x, y) in DeleteDepEdges(ids, q.del, q.inst, |q.del|)
    ensures Up(q, v, x, y)
  {
    var i, d := DeleteDepEdgeOrigin(ids, q.del, q.inst, |q.del|, (x, y));
    AbsenceBelow(q, v, ids, d, q.del[i].stage, v.level(q.del[i].id, 0), x);
    DeletionHome(q, i, y);
    BelowIsUp(q, v, x, y, MainStage(q.del[i].stage));
  }

  lemma DependenciesUp(q: Request, v: Levels)
    requires Sane(q) && Orderly(q, v)
    ensures AllUp(q, v, DependencyEdges(q))
  {
    var ids := Requested(q).ops.Keys;
    forall x, y | (x, y) in DependencyEdges(q) ensures Up(q, v, x, y) {
      if (x, y) in DeployDepEdges(ids, q.del, q.inst, |q.inst|) {
        DeployDependencyUp(q, v, ids, x, y);
      } else {
        DeleteDependencyUp(q, v, ids, x, y);
      }
    }
  }

  // ----- the whole graph -----

  lemma FrameUp(q: Request, v: Levels)
    requires Sane(q) && Orderly(q, v)
    ensures AllUp(q, v, Released(q).edges)
  {
    forall k, i, x, y | 0 <= k < 1 && 0 <= i < |[MainChain()][k]| && StepEdge([MainChain()][k], i, (x, y))
      ensures Up(q, v, x, y)
    {
      MainStepUp(q, v, i, x, y);
    }
    ChainsUp(q, v, Empty(), [MainChain()]);
    var ws: seq<Chain> := WeightChains(q.order, q.inst);
    forall k, i, x, y | 0 <= k < |ws| && 0 <= i < |ws[k]| && StepEdge(ws[k], i, (x, y)) ensures Up(q, v, x, y) {
      WeightStepUp(q, v, q.order[k], i, x, y);
    }
    ChainsUp(q, v, Staged(), ws);
    var rs: seq<Chain> := ReleaseChains(q.rel);
    forall k, i, x, y | 0 <= k < |rs| && 0 <= i < |rs[k]| && StepEdge(rs[k], i, (x, y)) ensures Up(q, v, x, y) {
      ReleaseStepUp(q, v, rs, k, i, x, y);
    }
    ChainsUp(q, v, Weighted(q), rs);
  }

  lemma RequestedUp(q: Request, v: Levels)
    requires Sane(q) && Orderly(q, v)
    ensures AllUp(q, v, Requested(q).edges)
  {
    FrameUp(q, v);
    var ds: seq<Chain> := DeleteChains(q.del);
    forall k, i, x, y | 0 <= k < |ds| && 0 <= i < |ds[k]| && StepEdge(ds[k], i, (x, y)) ensures Up(q, v, x, y) {
      DeleteStepUp(q, v, ds, k, i, x, y);
    }
    ChainsUp(q, v, Released(q), ds);
    var cs: seq<Chain> := InstallChains(q.inst);
    forall k, i, x, y | 0 <= k < |cs| && 0 <= i < |cs[k]| && StepEdge(cs[k], i, (x, y)) ensures Up(q, v, x, y) {
      InstallStepUp(q, v, cs, k, i, x, y);
    }
    ChainsUp(q, v, Deleted(q), cs);
  }

  /** A request is built if no operations collide, resources that share an external dependency share
      their stage and weight, and resources can be given levels that rise along dependencies,
      weights and lists of external dependencies. */
  lemma OrderlyBuilds(q: Request, v: Levels)
    requires WellFormed(q) && DistinctOps(q) && ExternalsTogether(q.inst) && Orderly(q, v)
    ensures Buildable(q)
  {
    NoCollisionsIff(q);
    RequestedUp(q, v);
    DependenciesUp(q, v);
    RisingIsAcyclic(Described(q).edges, RankFunction(q, v));
  }

  // ----- what is buildable is valid -----

  ghost predicate Keyed(g: Graph) {
    forall id :: id in g.ops ==> g.ops[id].ID() == id
  }

  lemma KeyedAfter(g: Graph, cs: seq<Chain>)
    requires Keyed(g)
    ensures Keyed(AfterAll(g, cs))
  {
    AllGrows(g, cs);
    var h := AfterAll(g, cs);
    forall id | id in h.ops ensures h.ops[id].ID() == id {
      ChainOrigin(g, cs, |cs|, id);
      if id !in g.ops {
        var k :| 0 <= k < |cs| && PlacedBy(h, cs[k], id);
      }
    }
  }

  lemma StepEdgeWithin(g: Graph, cs: seq<Chain>, k: nat, i: nat, x: OpID, y: OpID)
    requires AllStagesPresent(g.ops, cs) && k < |cs| && i < |cs[k]| && StepEdge(cs[k], i, (x, y))
    ensures x in AfterAll(g, cs).ops && y in AfterAll(g, cs).ops
  {
    AllGrows(g, cs);
    AllStepsIn(g, cs, k, i);
    if i > 0 { AllStepsIn(g, cs, k, i - 1); }
    assert StagesPresent(g.ops, cs[k]);
  }

  lemma WithinAfter(g: Graph, cs: seq<Chain>)
    requires Within(g.edges, g.ops.Keys) && AllStagesPresent(g.ops, cs)
    ensures Within(AfterAll(g, cs).edges, AfterAll(g, cs).ops.Keys)
  {
    AllGrows(g, cs);
    var h := AfterAll(g, cs);
    forall x, y | (x, y) in h.edges ensures x in h.ops && y in h.ops {
      EdgeOrigin(g, cs, |cs|, (x, y));
      if (x, y) !in g.edges {
        var k, i :| 0 <= k < |cs| && 0 <= i < |cs[k]| && StepEdge(cs[k], i, (x, y));
        StepEdgeWithin(g, cs, k, i, x, y);
      }
    }
  }

  lemma RequestedWithin(q: Request)
    requires CoversWeights(q.order, q.inst) && DistinctRevisions(q.rel)
    ensures Keyed(Requested(q)) && Within(Requested(q).edges, Requested(q).ops.Keys)
  {
    FrameFits(q);
    OpenRefs(Released(q));
    MainRefsAdded(Empty());
    DeployRefsAdded(Staged(), q.order, q.inst);
    DeployRefsKept(Weighted(q), ReleaseChains(q.rel), q.inst);
    DeleteStagesPresent(Released(q).ops, q.del);
    KeyedAfter(Released(q), DeleteChains(q.del));
    WithinAfter(Released(q), DeleteChains(q.del));
    MainRefsKept(Released(q), DeleteChains(q.del));
    DeployRefsKept(Released(q), DeleteChains(q.del), q.inst);
    InstallStagesPresent(Deleted(q).ops, q.inst);
    KeyedAfter(Deleted(q), InstallChains(q.inst));
    WithinAfter(Deleted(q), InstallChains(q.inst));
  }

  /** A buildable request describes a valid graph. */
  lemma BuildableIsValid(q: Request)
    requires CoversWeights(q.order, q.inst) && DistinctRevisions(q.rel) && Buildable(q)
    ensures ValidGraph(Described(q))
  {
    RequestedWithin(q);
    TargetsAdded(q);
    DependencyEdgesShaped(q);
    ShapedWithin(Requested(q).ops.Keys, q.inst, q.del, DependencyEdges(q));
  }

  // ----- resources that depend on nothing -----

  ghost predicate Independent(q: Request) {
    && UniqueIterations(q.inst)
    && (forall i :: 0 <= i < |q.inst| ==> Sound(q.inst[i]) && Deps(q.inst[i]) == [] && q.inst[i].res.externalDeps == [])
    && (forall i :: 0 <= i < |q.del| ==> q.del[i].deps == [])
    && (forall i, k :: 0 <= i < k < |q.del| ==> q.del[i].id != q.del[k].id)
    && (forall i, k :: 0 <= i < |q.inst| && 0 <= k < |q.del| ==> q.inst[i].res.id != q.del[k].id)
  }

  /** The weight of the info with an ID and iteration. */
  ghost function WeightAt(inst: seq<InstallableInfo>, id: string, iteration: nat): int {
    if k :| 0 <= k < |inst| && inst[k].res.id == id && inst[k].iteration == iteration && inst[k].res.weight.Some?
    then inst[k].res.weight.value else 0
  }

  lemma WeightAtIs(inst: seq<InstallableInfo>, i: nat)
    requires UniqueIterations(inst) && i < |inst| && inst[i].res.weight.Some?
    ensures WeightAt(inst, inst[i].res.id, inst[i].iteration) == inst[i].res.weight.value
  {
  }

  ghost function WeightLevels(q: Request): Levels {
    Levels((id: string, iteration: nat) => WeightAt(q.inst, id, iteration), e => 0)
  }

  lemma IndependentOrderly(q: Request)
    requires Independent(q)
    ensures Orderly(q, WeightLevels(q)) && DistinctOps(q) && ExternalsTogether(q.inst)
  {
    var v := WeightLevels(q);
    forall i, k | 0 <= i < |q.inst| && 0 <= k < |q.inst| && Lighter(q.inst[i], q.inst[k])
      ensures LevelOf(v, q.inst[i]) < BottomOf(v, q.inst[k])
    {
      WeightAtIs(q.inst, i);
      WeightAtIs(q.inst, k);
    }
  }

  /** Without dependencies a request is always built, whatever its stages, weights, clean-ups and
      revisions: its weights are levels. */
  lemma IndependentAlwaysBuilds(q: Request)
    requires CoversWeights(q.order, q.inst) && DistinctRevisions(q.rel) && Independent(q)
    ensures Buildable(q) && ValidGraph(Described(q))
  {
    IndependentOrderly(q);
    OrderlyBuilds(q, WeightLevels(q));
    BuildableIsValid(q);
  }
}
