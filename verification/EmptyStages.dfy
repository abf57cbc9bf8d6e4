/** Where operations stand and which stages a built plan still has: every operation stands in one
    stage or weight; one in which nothing happens leaves no trace, and every other one keeps both of
    its brackets (pkg/plan/plan.go). */
module EmptyStages {
  import opened Operations
  import opened Precedence
  import opened PlanGraph
  import opened Chains
  import opened ResourceInfo
  import opened ReleaseInfo
  import opened PlanRequest
  import opened PlanBuild
  import opened Dependencies
  import opened Stages
  import opened Builder
  import opened StageOrder
  import opened PlanProperties
  import opened Ranks
  import opened Buildability

  // ----- what leads out of a bracket -----

  lemma MainStepOut(i: nat, ref: StageRef, isEnd: bool, y: OpID)
    requires i < |MainChain()| && StepEdge(MainChain(), i, (BracketID(ref, isEnd), y))
    ensures ref.MainStage? && (!isEnd ==> y == BracketID(ref, true))
  {
  }

  /** A bracket of a weight of the stage. */
  ghost predicate WeightBracket(s: Stage, y: OpID) {
    y.config.Bracket? && y.config.ref.SubStage? && y.config.ref.stage == s
    && y == BracketID(y.config.ref, y.config.isEnd)
  }

  ghost predicate OutOfStart(q: Request, ref: StageRef, y: OpID) {
    || y == BracketID(ref, true) || Home(q, y, ref)
    || (ref.SubStage? && y == BracketID(MainStage(ref.stage), true))
    || (ref.MainStage? && WeightBracket(ref.stage, y))
  }

  ghost predicate OutOfWeightEnd(s: Stage, y: OpID) {
    y == BracketID(MainStage(s), true) || WeightBracket(s, y)
  }

  lemma WeightStepOut(q: Request, s: Stage, ws: seq<int>, i: nat, ref: StageRef, isEnd: bool, y: OpID)
    requires i < |WeightChain(s, ws)| && StepEdge(WeightChain(s, ws), i, (BracketID(ref, isEnd), y))
    ensures !isEnd ==> OutOfStart(q, ref, y)
    ensures isEnd ==> ref.SubStage? && OutOfWeightEnd(ref.stage, y)
  {
    WeightStepEdge(s, ws, i, BracketID(ref, isEnd), y);
  }

  ghost predicate NoBracketSteps(cs: seq<Chain>) {
    forall k, i :: 0 <= k < |cs| && 0 <= i < |cs[k]| ==> !cs[k][i].op.ID().config.Bracket? && cs[k][i].stage.Some?
  }

  /** Chains without brackets lead out of a bracket only to what they place there. */
  lemma ChainStepOut(cs: seq<Chain>, k: nat, i: nat, ref: StageRef, isEnd: bool, y: OpID)
    requires NoBracketSteps(cs) && k < |cs| && i < |cs[k]| && StepEdge(cs[k], i, (BracketID(ref, isEnd), y))
    ensures !isEnd && HasHome(cs, y, ref)
  {
    var st := cs[k][i];
    assert !st.op.ID().config.Bracket? && (i > 0 ==> !cs[k][i - 1].op.ID().config.Bracket?);
    assert st.stage == Some(ref) && y == st.op.ID();
  }

  lemma RequestNoBracketSteps(q: Request)
    requires forall i :: 0 <= i < |q.inst| ==> Sound(q.inst[i])
    ensures NoBracketSteps(ReleaseChains(q.rel)) && NoBracketSteps(DeleteChains(q.del))
      && NoBracketSteps(InstallChains(q.inst))
  {
    ReleaseNoBrackets(q.rel);
    DeleteNoBrackets(q.del);
    InstallNoBrackets(q.inst);
    forall k, i | 0 <= k < |q.inst| && 0 <= i < |InstallChain(q.inst[k])|
      ensures InstallChain(q.inst[k])[i].stage.Some?
    {
      ChainPositions(q.inst[k]);
    }
  }

  lemma LayerOut(g: Graph, cs: seq<Chain>, ref: StageRef, isEnd: bool, y: OpID)
    requires NoBracketSteps(cs) && (BracketID(ref, isEnd), y) in AfterAll(g, cs).edges
    ensures (BracketID(ref, isEnd), y) in g.edges || (!isEnd && HasHome(cs, y, ref))
  {
    var e := (BracketID(ref, isEnd), y);
    EdgeOrigin(g, cs, |cs|, e);
    if e !in g.edges {
      var k, i :| 0 <= k < |cs| && 0 <= i < |cs[k]| && StepEdge(cs[k], i, e);
      ChainStepOut(cs, k, i, ref, isEnd, y);
    }
  }

  lemma FrameOut(q: Request, ref: StageRef, isEnd: bool, y: OpID)
    requires (BracketID(ref, isEnd), y) in Weighted(q).edges
    ensures !isEnd ==> OutOfStart(q, ref, y)
    ensures isEnd && ref.SubStage? ==> OutOfWeightEnd(ref.stage, y)
  {
    var e := (BracketID(ref, isEnd), y);
    var ws: seq<Chain> := WeightChains(q.order, q.inst);
    var ms: seq<Chain> := [MainChain()];
    EdgeOrigin(Staged(), ws, |ws|, e);
    if e in Staged().edges {
      EdgeOrigin(Empty(), ms, 1, e);
      var k, i :| 0 <= k < 1 && 0 <= i < |ms[k]| && StepEdge(ms[k], i, e);
      MainStepOut(i, ref, isEnd, y);
    } else {
      var k, i :| 0 <= k < |ws| && 0 <= i < |ws[k]| && StepEdge(ws[k], i, e);
      WeightStepOut(q, q.order[k], Weights(q.inst, q.order[k]), i, ref, isEnd, y);
    }
  }

  /** What follows an opening bracket directly, and what follows the end of a weight. */
  lemma BracketOut(q: Request, ref: StageRef, isEnd: bool, y: OpID)
    requires forall i :: 0 <= i < |q.inst| ==> Sound(q.inst[i])
    requires (BracketID(ref, isEnd), y) in Described(q).edges
    ensures !isEnd ==> OutOfStart(q, ref, y)
    ensures isEnd && ref.SubStage? ==> OutOfWeightEnd(ref.stage, y)
  {
    DependencyEdgesShaped(q);
    RequestNoBracketSteps(q);
    LayerOut(Deleted(q), InstallChains(q.inst), ref, isEnd, y);
    if (BracketID(ref, isEnd), y) in Deleted(q).edges {
      LayerOut(Released(q), DeleteChains(q.del), ref, isEnd, y);
      if (BracketID(ref, isEnd), y) in Released(q).edges {
        LayerOut(Weighted(q), ReleaseChains(q.rel), ref, isEnd, y);
        if (BracketID(ref, isEnd), y) in Weighted(q).edges { FrameOut(q, ref, isEnd, y); }
      }
    }
  }

  // ----- stages in which nothing happens -----

  /** The info deploys or tracks something in the stage. */
  ghost predicate WorksIn(i: InstallableInfo, s: Stage) {
    i.stage == s && (i.mustInstall != InstallNone || i.mustTrackReadiness)
  }

  ghost predicate CleansUpIn(i: InstallableInfo, s: Stage) {
    i.mustDeleteOnSuccess && i.deleteStage == Some(s)
  }

  /** Nothing is deployed or tracked at this weight. */
  ghost predicate IdleWeight(q: Request, s: Stage, w: int) {
    forall i :: 0 <= i < |q.inst| && q.inst[i].res.weight == Some(w) ==> !WorksIn(q.inst[i], s)
  }

  /** No revision has an operation in this stage. */
  ghost predicate NoRevisions(rel: seq<ReleaseInfo>, s: Stage) {
    (s == Init ==> forall i :: 0 <= i < |rel| ==> InitReleaseOp(rel[i]).None?) && (s == Final ==> rel == [])
  }

  /** Nothing is deployed, tracked, cleaned up or deleted in this stage, and no revision is dealt with. */
  ghost predicate IdleStage(q: Request, s: Stage) {
    && (forall i :: 0 <= i < |q.inst| ==> !WorksIn(q.inst[i], s))
    && (forall i :: 0 <= i < |q.inst| ==> !CleansUpIn(q.inst[i], s))
    && (forall i :: 0 <= i < |q.del| && q.del[i].mustDelete ==> q.del[i].stage != s)
    && NoRevisions(q.rel, s)
  }

  ghost predicate Idle(q: Request, ref: StageRef) {
    match ref
    case MainStage(s) => IdleStage(q, s)
    case SubStage(s, w) => IdleWeight(q, s, w)
  }

  lemma StepStage(i: InstallableInfo, n: nat, ref: StageRef)
    requires Sound(i) && n < |InstallChain(i)| && InstallChain(i)[n].stage == Some(ref)
    ensures (ref == (if i.res.weight.Some? then SubStage(i.stage, i.res.weight.value) else MainStage(i.stage))
        && WorksIn(i, i.stage))
      || (i.mustDeleteOnSuccess && i.deleteStage.Some? && ref == MainStage(i.deleteStage.value))
  {
    ChainPositions(i);
  }

  /** Nothing stands in an idle stage. */
  lemma IdleIsEmpty(q: Request, ref: StageRef, id: OpID)
    requires (forall i :: 0 <= i < |q.inst| ==> Sound(q.inst[i])) && Idle(q, ref)
    ensures !Home(q, id, ref)
  {
    if HasHome(InstallChains(q.inst), id, ref) {
      var k, i := InstallHome(q.inst, InstallChains(q.inst), id, ref);
      StepStage(q.inst[k], i, ref);
    }
    if HasHome(DeleteChains(q.del), id, ref) {
      var k := DeleteHome(q, DeleteChains(q.del), id, ref);
    }
    if HasHome(ReleaseChains(q.rel), id, ref) { ReleaseHomeBusy(q.rel, ReleaseChains(q.rel), id, ref); }
  }

  lemma ReleaseHomeBusy(rel: seq<ReleaseInfo>, cs: seq<Chain>, id: OpID, ref: StageRef)
    requires cs == ReleaseChains(rel) && HasHome(cs, id, ref)
    ensures ref.MainStage? && !NoRevisions(rel, ref.stage)
  {
    var k, i :| 0 <= k < |cs| && 0 <= i < |cs[k]| && cs[k][i].op.ID() == id && cs[k][i].stage == Some(ref);
    assert cs[k] == if k % 2 == 0 then InitReleaseChain(rel[k / 2]) else FinalReleaseChain(rel[k / 2]);
  }

  /** A main stage is idle only if all of its weights are. */
  lemma WeightsIdle(q: Request, s: Stage, w: int)
    requires IdleStage(q, s)
    ensures IdleWeight(q, s, w)
  {
  }

  // ----- they leave no trace -----

  lemma BracketsPlaced(q: Request, ref: StageRef)
    requires CoversWeights(q.order, q.inst) && HasRef(Weighted(q).ops, ref)
    ensures Precedes(Described(q).edges, BracketID(ref, false), BracketID(ref, true))
    ensures ref.SubStage? ==>
      forall isEnd :: Placed(Described(q), BracketID(ref, isEnd), MainStage(ref.stage))
  {
    PartsGrow(q);
    if ref.SubStage? {
      SubStageInside(q, Described(q), ref.stage, ref.weight, false);
      SubStageInside(q, Described(q), ref.stage, ref.weight, true);
      var k, n := SubStageKnown(q, ref.stage, ref.weight, false);
      WeightChainsFresh(q);
      ChainsLinked(Staged(), WeightChains(q.order, q.inst), Described(q), k);
      WeightStep(ref.stage, Weights(q.inst, ref.stage), n);
      EdgePrecedes(Described(q).edges, BracketID(ref, false), BracketID(ref, true));
    } else {
      MainStagesFit([MainChain()], Staged());
      assert StageOpen(Staged(), Some(ref.stage));
      PrecedesMono(Staged().edges, Described(q).edges, BracketID(ref, false), BracketID(ref, true));
    }
  }

  /** After the opening of an idle weight comes its closing, and then whatever follows. */
  lemma AfterIdleWeight(q: Request, s: Stage, w: int, y: OpID)
    requires CoversWeights(q.order, q.inst) && (forall i :: 0 <= i < |q.inst| ==> Sound(q.inst[i]))
    requires HasRef(Weighted(q).ops, SubStage(s, w)) && IdleWeight(q, s, w)
    requires Precedes(Described(q).edges, BracketID(SubStage(s, w), false), y)
    ensures y == BracketID(SubStage(s, w), true) || Precedes(Described(q).edges, BracketID(SubStage(s, w), true), y)
  {
    var E, ref := Described(q).edges, SubStage(s, w);
    var c := FirstStep(E, BracketID(ref, false), y);
    BracketOut(q, ref, false, c);
    IdleIsEmpty(q, ref, c);
    BracketsPlaced(q, ref);
    EdgePrecedes(E, BracketID(ref, true), BracketID(MainStage(s), true));
    if c != BracketID(ref, true) && c != y { PrecedesTrans(E, BracketID(ref, true), c, y); }
  }

  /** The closing bracket of a main stage, what comes after it, and the brackets of its weights. */
  ghost function Beyond(q: Request, s: Stage): set<OpID> {
    set y | y in Described(q).ops &&
      (y == BracketID(MainStage(s), true) || Precedes(Described(q).edges, BracketID(MainStage(s), true), y)
        || WeightBracket(s, y))
  }

  lemma BeyondClosed(q: Request, s: Stage, x: OpID, y: OpID)
    requires ValidGraph(Described(q)) && (forall i :: 0 <= i < |q.inst| ==> Sound(q.inst[i])) && IdleStage(q, s)
    requires (x, y) in Described(q).edges && (x in Beyond(q, s) || x == BracketID(MainStage(s), false))
    ensures y in Beyond(q, s)
  {
    var E, e := Described(q).edges, BracketID(MainStage(s), true);
    EdgePrecedes(E, x, y);
    if x == e || Precedes(E, e, x) {
      if x != e { PrecedesTrans(E, e, x, y); }
    } else {
      BracketOut(q, x.config.ref, x.config.isEnd, y);
      if x.config.ref.SubStage? { WeightsIdle(q, s, x.config.ref.weight); }
      IdleIsEmpty(q, x.config.ref, y);
    }
  }

  ghost function WeightStarts(q: Request, s: Stage): set<OpID> {
    set y | y in Described(q).ops && WeightBracket(s, y) && !y.config.isEnd
  }

  /** No bracket comes into the plan after the weights. */
  lemma BracketFromFrame(q: Request, id: OpID)
    requires id in Described(q).ops && id.config.Bracket?
    ensures id in Weighted(q).ops && Described(q).ops[id] == Weighted(q).ops[id]
  {
    PartsGrow(q);
    ReleaseNoBrackets(q.rel);
    DeleteNoBrackets(q.del);
    InstallNoBrackets(q.inst);
    assert id in Requested(q).ops;
    NoNewBrackets(Deleted(q), InstallChains(q.inst));
    assert id in Deleted(q).ops;
    NoNewBrackets(Released(q), DeleteChains(q.del));
    assert id in Released(q).ops;
    NoNewBrackets(Weighted(q), ReleaseChains(q.rel));
  }

  lemma BracketHalves(ops: map<OpID, Operation>, id: OpID)
    requires BracketsOnly(ops) && id in ops && ops[id].ID() == id
    ensures HasRef(ops, id.config.ref) && id == BracketID(id.config.ref, id.config.isEnd)
    ensures !id.config.isEnd ==> IsBracket(ops[id], false) && EndOf(id) == BracketID(id.config.ref, true)
  {
  }

  /** The brackets that are in the plan are those of stages and weights, with their other halves. */
  lemma BracketKnown(q: Request, id: OpID)
    requires ValidGraph(Described(q)) && id in Described(q).ops && id.config.Bracket?
    ensures HasRef(Weighted(q).ops, id.config.ref) && id == BracketID(id.config.ref, id.config.isEnd)
    ensures !id.config.isEnd ==> IsStart(Described(q).ops, id) && EndOf(id) == BracketID(id.config.ref, true)
  {
    StagesAreBrackets(q);
    BracketFromFrame(q, id);
    BracketHalves(Weighted(q).ops, id);
  }

  lemma MainStartKnown(q: Request, s: Stage)
    ensures HasRef(Weighted(q).ops, MainStage(s)) && BracketID(MainStage(s), false) in Described(q).ops
  {
    MainRefsAdded(Empty());
    PartsGrow(q);
    assert HasRef(Staged().ops, MainStage(s));
  }

  /** Idle weights, and an idle stage with all of its weights, are hollow. */
  lemma IdleWeightHollow(q: Request, s: Stage, w: int)
    requires ValidGraph(Described(q)) && CoversWeights(q.order, q.inst)
    requires (forall i :: 0 <= i < |q.inst| ==> Sound(q.inst[i]))
    requires HasRef(Weighted(q).ops, SubStage(s, w)) && IdleWeight(q, s, w)
    ensures Hollow(Described(q), {BracketID(SubStage(s, w), false)})
  {
    var id := BracketID(SubStage(s, w), false);
    PartsGrow(q);
    BracketKnown(q, id);
    BracketsPlaced(q, SubStage(s, w));
    forall y | Precedes(Described(q).edges, id, y)
      ensures y == EndOf(id) || Precedes(Described(q).edges, EndOf(id), y)
    {
      AfterIdleWeight(q, s, w, y);
    }
  }

  lemma AfterIdleStage(q: Request, s: Stage, y: OpID)
    requires ValidGraph(Described(q)) && CoversWeights(q.order, q.inst)
    requires (forall i :: 0 <= i < |q.inst| ==> Sound(q.inst[i])) && IdleStage(q, s)
    requires Precedes(Described(q).edges, BracketID(MainStage(s), false), y)
    ensures y == BracketID(MainStage(s), true) || Precedes(Described(q).edges, BracketID(MainStage(s), true), y)
      || (Precedes(Described(q).edges, y, BracketID(MainStage(s), true))
        && OfPairIn(Described(q), WeightStarts(q, s), BracketID(MainStage(s), false), y))
  {
    var g, R := Described(q), Beyond(q, s);
    forall x, z | (x, z) in g.edges && (x in R || x == BracketID(MainStage(s), false)) ensures z in R {
      BeyondClosed(q, s, x, z);
    }
    PrecedesStaysIn(g.edges, R, BracketID(MainStage(s), false), y);
    if WeightBracket(s, y) { WeightBracketInside(q, s, y); }
  }

  lemma WeightBracketInside(q: Request, s: Stage, y: OpID)
    requires ValidGraph(Described(q)) && CoversWeights(q.order, q.inst)
    requires y in Described(q).ops && WeightBracket(s, y)
    ensures Precedes(Described(q).edges, y, BracketID(MainStage(s), true))
    ensures OfPairIn(Described(q), WeightStarts(q, s), BracketID(MainStage(s), false), y)
  {
    var g, b := Described(q), BracketID(y.config.ref, false);
    BracketKnown(q, y);
    BracketsPlaced(q, y.config.ref);
    PartsGrow(q);
    assert Placed(g, y, MainStage(s)) && Placed(g, b, MainStage(s));
    EdgePrecedes(g.edges, y, BracketID(MainStage(s), true));
    EdgePrecedes(g.edges, BracketID(MainStage(s), false), b);
    assert b in WeightStarts(q, s) && EndOf(b) == BracketID(y.config.ref, true);
  }

  lemma IdleStageHollow(q: Request, s: Stage)
    requires ValidGraph(Described(q)) && CoversWeights(q.order, q.inst)
    requires (forall i :: 0 <= i < |q.inst| ==> Sound(q.inst[i])) && IdleStage(q, s)
    ensures Hollow(Described(q), {BracketID(MainStage(s), false)} + WeightStarts(q, s))
  {
    var g, m, W := Described(q), BracketID(MainStage(s), false), WeightStarts(q, s);
    var B := {m} + W;
    MainStartKnown(q, s);
    BracketKnown(q, m);
    BracketsPlaced(q, MainStage(s));
    forall y | Precedes(g.edges, m, y)
      ensures y == EndOf(m) || Precedes(g.edges, EndOf(m), y)
        || (Precedes(g.edges, y, EndOf(m)) && OfPairIn(g, B, m, y))
    {
      AfterIdleStage(q, s, y);
      if OfPairIn(g, W, m, y) { PairsMore(g, W, B, m, y); }
    }
    forall id | id in W ensures IsStart(g.ops, id) && Precedes(g.edges, id, EndOf(id)) {
      BracketKnown(q, id);
      BracketsPlaced(q, id.config.ref);
    }
    forall id, y | id in W && Precedes(g.edges, id, y) ensures y == EndOf(id) || Precedes(g.edges, EndOf(id), y) {
      BracketKnown(q, id);
      WeightsIdle(q, s, id.config.ref.weight);
      AfterIdleWeight(q, s, id.config.ref.weight, y);
    }
  }

  lemma PairsMore(g: Graph, A: set<OpID>, B: set<OpID>, id: OpID, y: OpID)
    requires A <= B && OfPairIn(g, A, id, y)
    ensures OfPairIn(g, B, id, y)
  {
  }

  lemma StartGone(g: Graph, h: Graph, B: set<OpID>, id: OpID)
    requires Lean(g, h) && Hollow(g, B) && id in B
    ensures id !in h.ops && EndOf(id) !in h.ops
  {
    assert IsStart(g.ops, id);
  }

  /** A stage or a weight at which nothing happens has no bracket in the plan. */
  lemma IdleStagesGone(q: Request, h: Graph, noFinalTracking: bool, ref: StageRef)
    requires Built(q, h, noFinalTracking) && Lean(Described(q), h)
    requires (forall i :: 0 <= i < |q.inst| ==> Sound(q.inst[i])) && Idle(q, ref)
    ensures BracketID(ref, false) !in h.ops && BracketID(ref, true) !in h.ops
  {
    var g, id := Described(q), BracketID(ref, false);
    if BracketID(ref, false) in h.ops || BracketID(ref, true) in h.ops {
      if id !in h.ops { BracketKnown(q, BracketID(ref, true)); } else { BracketKnown(q, id); }
      PartsGrow(q);
      BracketKnown(q, id);
      match ref
      case MainStage(s) =>
        IdleStageHollow(q, s);
        StartGone(g, h, {id} + WeightStarts(q, s), id);
      case SubStage(s, w) =>
        IdleWeightHollow(q, s, w);
        StartGone(g, h, {id}, id);
    }
  }

  lemma BetweenStays(g: Graph, h: Graph, id: OpID, x: OpID)
    requires Lean(g, h) && IsStart(g.ops, id) && x in h.ops
    requires Precedes(g.edges, id, x) && Precedes(g.edges, x, EndOf(id))
    ensures id in h.ops && EndOf(id) in h.ops
  {
  }

  /** A stage or a weight with an operation that is still in the plan has both of its brackets
      there, and so has the main stage of a weight. */
  lemma BusyStagesStay(q: Request, h: Graph, noFinalTracking: bool, ref: StageRef, x: OpID)
    requires Built(q, h, noFinalTracking) && Lean(Described(q), h) && Placed(Described(q), x, ref) && x in h.ops
    ensures BracketID(ref, false) in h.ops && BracketID(ref, true) in h.ops
    ensures BracketID(MainStage(ref.stage), false) in h.ops && BracketID(MainStage(ref.stage), true) in h.ops
  {
    var g, m := Described(q), MainStage(ref.stage);
    EdgePrecedes(g.edges, BracketID(ref, false), x);
    EdgePrecedes(g.edges, x, BracketID(ref, true));
    BracketKnown(q, BracketID(ref, false));
    BetweenStays(g, h, BracketID(ref, false), x);
    if ref.SubStage? {
      BracketsPlaced(q, ref);
      assert Placed(g, BracketID(ref, false), m);
      EdgePrecedes(g.edges, BracketID(m, false), BracketID(ref, false));
      EdgePrecedes(g.edges, BracketID(ref, false), BracketID(m, true)) by {
        assert (BracketID(ref, false), BracketID(m, true)) in g.edges;
      }
      MainStartKnown(q, ref.stage);
      BracketKnown(q, BracketID(m, false));
      BetweenStays(g, h, BracketID(m, false), BracketID(ref, false));
    }
  }

  // ----- exactly the stages in which something happens are left -----

  lemma ReleaseStands(q: Request, k: nat)
    requires CoversWeights(q.order, q.inst) && DistinctRevisions(q.rel)
    requires k < |ReleaseChains(q.rel)| && |ReleaseChains(q.rel)[k]| > 0
    ensures Stands(Described(q), ReleaseChains(q.rel)[k][0].op, MainStage(if k % 2 == 0 then Init else Final))
  {
    var cs: seq<Chain> := ReleaseChains(q.rel);
    var op, ref := cs[k][0].op, MainStage(if k % 2 == 0 then Init else Final);
    assert cs[k] == if k % 2 == 0 then InitReleaseChain(q.rel[k / 2]) else FinalReleaseChain(q.rel[k / 2]);
    assert cs[k][0] == ChainStep(op, Some(ref), false);
    PartsGrow(q);
    FrameFits(q);
    StepStands(Weighted(q), cs, Described(q), k, op, ref);
  }

  lemma RevisionsStand(q: Request, s: Stage) returns (op: Operation)
    requires CoversWeights(q.order, q.inst) && DistinctRevisions(q.rel) && !NoRevisions(q.rel, s)
    ensures Stands(Described(q), op, MainStage(s)) && !IsStageBracket(op)
  {
    var k;
    if s == Init {
      var i :| 0 <= i < |q.rel| && InitReleaseOp(q.rel[i]).Some?;
      k := 2 * i;
    } else {
      k := 1;
    }
    ReleaseStands(q, k);
    op := ReleaseChains(q.rel)[k][0].op;
  }

  /** In a stage or at a weight that is not idle some operation stands, perhaps at one of its weights. */
  lemma SomethingStands(q: Request, ref: StageRef) returns (op: Operation, at: StageRef)
    requires NoCollisions(q) && CoversWeights(q.order, q.inst) && DistinctRevisions(q.rel)
    requires (forall i :: 0 <= i < |q.inst| ==> Sound(q.inst[i])) && !Idle(q, ref)
    ensures Stands(Described(q), op, at) && !IsStageBracket(op)
    ensures at == ref || (ref.MainStage? && at.stage == ref.stage)
  {
    var s := ref.stage;
    if i :| 0 <= i < |q.inst| && WorksIn(q.inst[i], s) && (ref.MainStage? || q.inst[i].res.weight == Some(ref.weight)) {
      op := if q.inst[i].mustInstall != InstallNone then DeployOp(q.inst[i]) else ReadinessOp(q.inst[i]);
      at := DeployRef(q.inst[i]);
      InstallOpStands(q, i, op, at);
    } else if i :| 0 <= i < |q.inst| && CleansUpIn(q.inst[i], s) && ref.MainStage? {
      op, at := CleanupOp(q.inst[i]), ref;
      InstallOpStands(q, i, op, at);
    } else if i :| 0 <= i < |q.del| && q.del[i].mustDelete && q.del[i].stage == s && ref.MainStage? {
      op, at := ResourceOp(TypeDelete, CategoryResource, 0, q.del[i].id), ref;
      DeletionStands(q, i);
    } else {
      op := RevisionsStand(q, s);
      at := ref;
    }
  }

  /** Of the stages and weights there are, exactly those in which something happens have brackets in a
      plan built with final tracking. */
  lemma StageLeftIff(q: Request, h: Graph, ref: StageRef)
    requires Built(q, h, false) && Lean(Described(q), h)
    requires forall i :: 0 <= i < |q.inst| ==> Sound(q.inst[i])
    ensures BracketID(ref, false) in h.ops <==> !Idle(q, ref)
    ensures BracketID(ref, true) in h.ops <==> !Idle(q, ref)
  {
    if Idle(q, ref) {
      IdleStagesGone(q, h, false, ref);
    } else {
      var op, at := SomethingStands(q, ref);
      assert op.ID() in h.ops;
      BusyStagesStay(q, h, false, at, op.ID());
    }
  }

  // ----- an operation stands in one place -----

  /** Nothing stands in two stages, and only what is in the graph stands in one. */
  ghost predicate StandsOnce(g: Graph) {
    forall id, a :: (BracketID(a, false), id) in g.edges && !id.config.Bracket? ==>
      id in g.ops && forall b :: (BracketID(b, false), id) in g.edges ==> a == b
  }

  lemma StepStandsOnce(g: Graph, c: Chain, i: nat)
    requires StandsOnce(g) && i < |c| && !c[i].op.ID().config.Bracket?
    requires i > 0 ==> !c[i - 1].op.ID().config.Bracket?
    ensures StandsOnce(AddStep(g, c, i))
  {
    var h, x := AddStep(g, c, i), c[i].op.ID();
    forall id, a | (BracketID(a, false), id) in h.edges && !id.config.Bracket? && (BracketID(a, false), id) !in g.edges
      ensures id == x && x !in g.ops && c[i].stage == Some(a)
    {
    }
  }

  lemma {:induction false} StepsStandOnce(g: Graph, c: Chain, n: nat)
    requires StandsOnce(g) && n <= |c| && forall i :: 0 <= i < |c| ==> !c[i].op.ID().config.Bracket?
    ensures StandsOnce(AfterSteps(g, c, n))
    decreases n
  {
    if n > 0 {
      StepsStandOnce(g, c, n - 1);
      StepStandsOnce(AfterSteps(g, c, n - 1), c, n - 1);
    }
  }

  lemma {:induction false} ChainsStandOnce(g: Graph, cs: seq<Chain>, k: nat)
    requires StandsOnce(g) && NoBrackets(cs) && k <= |cs|
    ensures StandsOnce(AfterChains(g, cs, k))
    decreases k
  {
    if k > 0 {
      ChainsStandOnce(g, cs, k - 1);
      StepsStandOnce(AfterChains(g, cs, k - 1), cs[k - 1], |cs[k - 1]|);
    }
  }

  /** Stages and weights lead only to brackets. */
  lemma FrameLeadsToBrackets(q: Request, x: OpID, y: OpID)
    requires (x, y) in Weighted(q).edges
    ensures y.config.Bracket?
  {
    var ws: seq<Chain> := WeightChains(q.order, q.inst);
    var ms: seq<Chain> := [MainChain()];
    EdgeOrigin(Staged(), ws, |ws|, (x, y));
    if (x, y) in Staged().edges {
      EdgeOrigin(Empty(), ms, 1, (x, y));
      var k, i :| 0 <= k < 1 && 0 <= i < |ms[k]| && StepEdge(ms[k], i, (x, y));
    } else {
      var k, i :| 0 <= k < |ws| && 0 <= i < |ws[k]| && StepEdge(ws[k], i, (x, y));
      WeightStepEdge(q.order[k], Weights(q.inst, q.order[k]), i, x, y);
    }
  }

  lemma WeightedStandsOnce(q: Request)
    ensures StandsOnce(Weighted(q))
  {
    forall x, y | (x, y) in Weighted(q).edges ensures y.config.Bracket? { FrameLeadsToBrackets(q, x, y); }
  }

  lemma RequestedStandsOnce(q: Request)
    ensures StandsOnce(Requested(q))
  {
    WeightedStandsOnce(q);
    ReleaseNoBrackets(q.rel);
    ChainsStandOnce(Weighted(q), ReleaseChains(q.rel), |ReleaseChains(q.rel)|);
    DeleteNoBrackets(q.del);
    ChainsStandOnce(Released(q), DeleteChains(q.del), |DeleteChains(q.del)|);
    InstallNoBrackets(q.inst);
    ChainsStandOnce(Deleted(q), InstallChains(q.inst), |InstallChains(q.inst)|);
  }

  /** In the described plan every operation stands in one stage or weight, also one that several
      resources share. */
  lemma PlacedOnce(q: Request, id: OpID, a: StageRef, b: StageRef)
    requires !id.config.Bracket? && Placed(Described(q), id, a) && Placed(Described(q), id, b)
    ensures a == b
  {
    RequestedStandsOnce(q);
    DependencyEdgesShaped(q);
    FromRequested(q, id, a);
    FromRequested(q, id, b);
  }

  lemma FromRequested(q: Request, id: OpID, a: StageRef)
    requires DependencyShaped(Requested(q).ops.Keys, q.inst, q.del, DependencyEdges(q))
    requires (BracketID(a, false), id) in Described(q).edges
    ensures (BracketID(a, false), id) in Requested(q).edges
  {
  }
}
