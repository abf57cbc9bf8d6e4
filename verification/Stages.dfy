/** The brackets of stages and sub-stages: they come in pairs, and adding them to a plan is never
    refused (pkg/plan/plan_build.go). */
module Stages {
  import opened Operations
  import opened Precedence
  import opened PlanGraph
  import opened Chains
  import opened ResourceInfo
  import opened ReleaseInfo
  import opened PlanRequest
  import opened PlanBuild

  // ----- adding brackets is never refused -----

  /** A chain of new operations, all of them in main stage `s`, or all of them in none. */
  ghost predicate NewChain(g: Graph, c: Chain, s: Option<Stage>) {
    && (forall i :: 0 <= i < |c| ==> c[i].stage == if s.Some? then Some(MainStage(s.value)) else None)
    && (forall i :: 0 <= i < |c| ==> c[i].op.ID() !in g.ops)
    && (forall i, k :: 0 <= i < k < |c| ==> c[i].op.ID() != c[k].op.ID())
  }

  lemma {:induction false} NewStepFresh(g: Graph, c: Chain, s: Option<Stage>, k: nat, n: nat)
    requires NewChain(g, c, s) && n <= k < |c|
    ensures c[k].op.ID() !in AfterSteps(g, c, n).ops
    decreases n
  {
    if n > 0 { NewStepFresh(g, c, s, k, n - 1); }
  }

  /** A new operation after another one of its stage closes no cycle. */
  lemma NextBetween(E: set<Edge>, V: set<OpID>, a: OpID, prev: OpID, x: OpID, b: OpID)
    requires Within(E, V) && Acyclic(E) && x !in V && a in V && b in V && prev in V
    requires Precedes(E, a, b) && (prev, b) in E
    ensures Acyclic(E + {(a, x), (x, b), (prev, x)})
  {
    FreshBetween(E, V, a, x, b);
    var F := E + {(a, x), (x, b)};
    EdgePrecedes(F, prev, b);
    if Precedes(F, x, prev) {
      var c := FirstStep(F, x, prev);
      assert c == b;
      if b != prev { PrecedesTrans(F, b, prev, b); }
    }
    AddEdgeAcyclic(F, prev, x);
    assert E + {(a, x), (x, b), (prev, x)} == F + {(prev, x)};
  }

  /** A new operation at the end closes no cycle. */
  lemma NextLast(E: set<Edge>, V: set<OpID>, prev: OpID, x: OpID)
    requires Within(E, V) && Acyclic(E) && x !in V && prev in V
    ensures Acyclic(E + {(prev, x)})
  {
    if Precedes(E, x, prev) { PrecedesWithin(E, V, x, prev); }
    AddEdgeAcyclic(E, prev, x);
  }

  ghost predicate StageOpen(g: Graph, s: Option<Stage>) {
    s.Some? ==>
      && HasRef(g.ops, MainStage(s.value))
      && Precedes(g.edges, BracketID(MainStage(s.value), false), BracketID(MainStage(s.value), true))
  }

  lemma StepFits(f: Graph, c: Chain, i: nat, s: Option<Stage>)
    requires ValidGraph(f) && StageOpen(f, s) && i < |c| && c[i].op.ID() !in f.ops
    requires c[i].stage == if s.Some? then Some(MainStage(s.value)) else None
    requires i > 0 ==>
      c[i - 1].op.ID() in f.ops && (s.Some? ==> (c[i - 1].op.ID(), BracketID(MainStage(s.value), true)) in f.edges)
    ensures ValidGraph(AddStep(f, c, i)) && StageOpen(AddStep(f, c, i), s)
  {
    var E, V, x, h := f.edges, f.ops.Keys, c[i].op.ID(), AddStep(f, c, i);
    if s.Some? {
      var a, b := BracketID(MainStage(s.value), false), BracketID(MainStage(s.value), true);
      if i > 0 {
        NextBetween(E, V, a, c[i - 1].op.ID(), x, b);
        assert h.edges == E + {(a, x), (x, b), (c[i - 1].op.ID(), x)};
      } else {
        FreshBetween(E, V, a, x, b);
        assert h.edges == E + {(a, x), (x, b)};
      }
      PrecedesMono(E, h.edges, a, b);
    } else if i > 0 {
      NextLast(E, V, c[i - 1].op.ID(), x);
      assert h.edges == E + {(c[i - 1].op.ID(), x)};
    } else {
      assert h.edges == E;
    }
  }

  /** A chain of new operations in one open stage is never refused. */
  lemma {:induction false} NewChainFits(g: Graph, c: Chain, s: Option<Stage>, n: nat)
    requires ValidGraph(g) && StageOpen(g, s) && NewChain(g, c, s) && n <= |c|
    ensures StepsFresh(g, c, n) && ValidGraph(AfterSteps(g, c, n)) && StageOpen(AfterSteps(g, c, n), s)
    ensures n > 0 ==> c[n - 1].op.ID() in AfterSteps(g, c, n).ops
    ensures n > 0 && s.Some? ==> (c[n - 1].op.ID(), BracketID(MainStage(s.value), true)) in AfterSteps(g, c, n).edges
    decreases n
  {
    if n > 0 {
      NewChainFits(g, c, s, n - 1);
      NewStepFresh(g, c, s, n - 1, n - 1);
      StepFits(AfterSteps(g, c, n - 1), c, n - 1, s);
    }
  }

  ghost function Empty(): Graph { Graph(map[], {}) }

  lemma EmptyValid()
    ensures ValidGraph(Empty())
  {
    forall a ensures !Precedes(Empty().edges, a, a) {
      if Precedes(Empty().edges, a, a) { var c := FirstStep(Empty().edges, a, a); }
    }
  }

  lemma StagesDiffer(i: nat, k: nat)
    requires i < |STAGES_ORDERED| && k < |STAGES_ORDERED|
    ensures STAGES_ORDERED[i] == STAGES_ORDERED[k] ==> i == k
  {
    assert i == StageIndex(STAGES_ORDERED[i]) && k == StageIndex(STAGES_ORDERED[k]);
  }

  lemma MainChainNew()
    ensures NewChain(Empty(), MainChain(), None)
  {
    forall i, k | 0 <= i < k < |MainChain()| ensures MainChain()[i].op.ID() != MainChain()[k].op.ID() {
      StagesDiffer(i / 2, k / 2);
    }
  }

  /** Every main stage is in the plan and opens before it closes. */
  ghost predicate AllOpen(g: Graph) {
    forall s: Stage :: StageOpen(g, Some(s))
  }

  lemma AllOpenGrows(g: Graph, h: Graph)
    requires AllOpen(g) && Grows(g, h)
    ensures AllOpen(h)
  {
    forall s: Stage ensures StageOpen(h, Some(s)) {
      assert StageOpen(g, Some(s));
      PrecedesMono(g.edges, h.edges, BracketID(MainStage(s), false), BracketID(MainStage(s), true));
    }
  }

  ghost predicate OnlyMainBrackets(ops: map<OpID, Operation>) {
    forall id :: id in ops ==> id.config.Bracket? && id.config.ref.MainStage?
  }

  lemma MainStep(i: nat)
    requires i < |STAGES_ORDERED|
    ensures |MainChain()| == 2 * |STAGES_ORDERED|
    ensures MainChain()[2 * i] == ChainStep(BracketOp(MainStage(STAGES_ORDERED[i]), false), None, false)
    ensures MainChain()[2 * i + 1] == ChainStep(BracketOp(MainStage(STAGES_ORDERED[i]), true), None, false)
  {
  }

  lemma MainStageOpen(cs: seq<Chain>, h: Graph, s: Stage)
    requires cs == [MainChain()] && ChainsFresh(Empty(), cs, 1) && h == AfterAll(Empty(), cs) && HasMainRefs(h.ops)
    ensures StageOpen(h, Some(s))
  {
    var i := StageIndex(s);
    MainStep(i);
    ChainStepDone(Empty(), cs, 0, 2 * i + 1);
    assert HasRef(h.ops, MainStage(s));
    EdgePrecedes(h.edges, BracketID(MainStage(s), false), BracketID(MainStage(s), true));
  }

  lemma StagedBrackets(cs: seq<Chain>)
    requires cs == [MainChain()]
    ensures OnlyMainBrackets(AfterAll(Empty(), cs).ops)
  {
    var h := AfterAll(Empty(), cs);
    forall id | id in h.ops ensures id.config.Bracket? && id.config.ref.MainStage? {
      ChainOrigin(Empty(), cs, 1, id);
      assert PlacedBy(h, cs[0], id);
    }
  }

  lemma MainChainFits(cs: seq<Chain>)
    requires cs == [MainChain()]
    ensures AllFresh(Empty(), cs) && ValidGraph(AfterAll(Empty(), cs))
  {
    EmptyValid();
    MainChainNew();
    var c := cs[0];
    NewChainFits(Empty(), c, None, |c|);
    assert AfterChains(Empty(), cs, 0) == Empty();
    assert ChainsFresh(Empty(), cs, 0);
  }

  /** Adding the main stages to an empty plan is never refused. */
  lemma MainStagesFit(cs: seq<Chain>, h: Graph)
    requires cs == [MainChain()] && h == AfterAll(Empty(), cs)
    ensures AllFresh(Empty(), cs) && ValidGraph(h) && AllOpen(h) && HasMainRefs(h.ops)
  {
    MainChainFits(cs);
    MainRefsAdded(Empty());
    forall s: Stage ensures StageOpen(h, Some(s)) {
      MainStageOpen(cs, h, s);
    }
  }

  lemma WeightChainFresh(g: Graph, order: seq<Stage>, cs: seq<Chain>, inst: seq<InstallableInfo>, k: nat, i: nat)
    requires OnlyMainBrackets(g.ops) && CoversWeights(order, inst) && cs == WeightChains(order, inst) && k < |order|
    requires i < |cs[k]|
    ensures cs[k][i].op.ID() !in AfterChains(g, cs, k).ops
  {
    var h, id := AfterChains(g, cs, k), cs[k][i].op.ID();
    if id in h.ops {
      ChainOrigin(g, cs, k, id);
    }
  }

  lemma WeightChainNew(g: Graph, order: seq<Stage>, cs: seq<Chain>, inst: seq<InstallableInfo>, k: nat)
    requires OnlyMainBrackets(g.ops) && CoversWeights(order, inst) && cs == WeightChains(order, inst) && k < |order|
    ensures NewChain(AfterChains(g, cs, k), cs[k], Some(order[k]))
  {
    forall i | 0 <= i < |cs[k]| ensures cs[k][i].op.ID() !in AfterChains(g, cs, k).ops {
      WeightChainFresh(g, order, cs, inst, k, i);
    }
  }

  /** Adding weighted sub-stages is never refused, in whatever order the stages come. */
  lemma {:induction false} WeightChainsFit(g: Graph, order: seq<Stage>, cs: seq<Chain>, inst: seq<InstallableInfo>,
                                           k: nat)
    requires ValidGraph(g) && AllOpen(g) && OnlyMainBrackets(g.ops)
    requires CoversWeights(order, inst) && cs == WeightChains(order, inst) && k <= |order|
    ensures ChainsFresh(g, cs, k) && ValidGraph(AfterChains(g, cs, k))
    decreases k
  {
    if k > 0 {
      WeightChainsFit(g, order, cs, inst, k - 1);
      ChainsGrow(g, cs, 0, k - 1);
      var f := AfterChains(g, cs, k - 1);
      AllOpenGrows(g, f);
      WeightChainNew(g, order, cs, inst, k - 1);
      NewChainFits(f, cs[k - 1], Some(order[k - 1]), |cs[k - 1]|);
    }
  }

  // ----- brackets come in pairs -----

  /** Nothing but brackets, each with its other half. */
  ghost predicate BracketsOnly(ops: map<OpID, Operation>) {
    forall id :: id in ops ==>
      && id.config.Bracket? && HasRef(ops, id.config.ref)
      && ops[id] == BracketOp(id.config.ref, id.config.isEnd)
  }

  ghost predicate HasOp(c: Chain, op: Operation) {
    exists i :: 0 <= i < |c| && c[i].op == op
  }

  /** A chain made of brackets, each with its other half. */
  ghost predicate BracketChain(c: Chain) {
    forall i :: 0 <= i < |c| ==> BracketStep(c, c[i].op)
  }

  ghost predicate BracketStep(c: Chain, op: Operation) {
    exists ref, isEnd :: op == BracketOp(ref, isEnd) && HasOp(c, BracketOp(ref, false))
      && HasOp(c, BracketOp(ref, true))
  }

  lemma HasOpAdded(g: Graph, cs: seq<Chain>, k: nat, op: Operation)
    requires k < |cs| && HasOp(cs[k], op)
    ensures op.ID() in AfterAll(g, cs).ops
  {
    var i :| 0 <= i < |cs[k]| && cs[k][i].op == op;
    AllStepsIn(g, cs, k, i);
  }

  lemma BracketAdded(g: Graph, cs: seq<Chain>, h: Graph, k: nat, id: OpID)
    requires k < |cs| && BracketChain(cs[k]) && h == AfterAll(g, cs) && PlacedBy(h, cs[k], id)
    ensures id.config.Bracket? && HasRef(h.ops, id.config.ref) && h.ops[id] == BracketOp(id.config.ref, id.config.isEnd)
  {
    var c := cs[k];
    var i :| 0 <= i < |c| && PlacedAs(h, c[i], id);
    assert BracketStep(c, c[i].op);
    var ref, isEnd :| c[i].op == BracketOp(ref, isEnd) && HasOp(c, BracketOp(ref, false))
      && HasOp(c, BracketOp(ref, true));
    HasOpAdded(g, cs, k, BracketOp(ref, false));
    HasOpAdded(g, cs, k, BracketOp(ref, true));
  }

  lemma BracketChainsAdded(g: Graph, cs: seq<Chain>)
    requires BracketsOnly(g.ops) && forall k :: 0 <= k < |cs| ==> BracketChain(cs[k])
    ensures BracketsOnly(AfterAll(g, cs).ops)
  {
    var h := AfterAll(g, cs);
    AllGrows(g, cs);
    forall id | id in h.ops
      ensures id.config.Bracket? && HasRef(h.ops, id.config.ref)
        && h.ops[id] == BracketOp(id.config.ref, id.config.isEnd)
    {
      ChainOrigin(g, cs, |cs|, id);
      if id in g.ops {
        assert HasRef(g.ops, id.config.ref);
      } else {
        var k :| 0 <= k < |cs| && PlacedBy(h, cs[k], id);
        BracketAdded(g, cs, h, k, id);
      }
    }
  }

  lemma PairStep(c: Chain, n: nat, ref: StageRef)
    requires 2 * n + 1 < |c| && c[2 * n].op == BracketOp(ref, false) && c[2 * n + 1].op == BracketOp(ref, true)
    ensures BracketStep(c, BracketOp(ref, false)) && BracketStep(c, BracketOp(ref, true))
  {
    assert HasOp(c, BracketOp(ref, false)) && HasOp(c, BracketOp(ref, true));
  }

  lemma MainChainBrackets()
    ensures BracketChain(MainChain())
  {
    forall i | 0 <= i < |MainChain()| ensures BracketStep(MainChain(), MainChain()[i].op) {
      PairStep(MainChain(), i / 2, MainStage(STAGES_ORDERED[i / 2]));
    }
  }

  lemma WeightChainBrackets(s: Stage, ws: seq<int>)
    ensures BracketChain(WeightChain(s, ws))
  {
    forall i | 0 <= i < |WeightChain(s, ws)| ensures BracketStep(WeightChain(s, ws), WeightChain(s, ws)[i].op) {
      PairStep(WeightChain(s, ws), i / 2, SubStage(s, ws[i / 2]));
    }
  }

  lemma WeightedBrackets(g: Graph, order: seq<Stage>, inst: seq<InstallableInfo>, cs: seq<Chain>)
    requires cs == WeightChains(order, inst) && BracketsOnly(g.ops)
    ensures BracketsOnly(AfterAll(g, cs).ops)
  {
    forall k | 0 <= k < |cs| ensures BracketChain(cs[k]) { WeightChainBrackets(order[k], Weights(inst, order[k])); }
    BracketChainsAdded(g, cs);
  }

  lemma StagesPaired()
    ensures BracketsOnly(Staged().ops)
  {
    MainChainBrackets();
    BracketChainsAdded(Empty(), [MainChain()]);
  }

  lemma StagesAreBrackets(q: Request)
    ensures BracketsOnly(Weighted(q).ops)
  {
    StagesPaired();
    WeightedBrackets(Staged(), q.order, q.inst, WeightChains(q.order, q.inst));
  }

  ghost predicate NoBrackets(cs: seq<Chain>) {
    forall k, i :: 0 <= k < |cs| && 0 <= i < |cs[k]| ==> !cs[k][i].op.ID().config.Bracket?
  }

  /** Chains that hold no bracket leave the brackets as they are. */
  lemma NoNewBrackets(g: Graph, cs: seq<Chain>)
    requires NoBrackets(cs)
    ensures forall id :: id in AfterAll(g, cs).ops && id.config.Bracket? ==>
      id in g.ops && AfterAll(g, cs).ops[id] == g.ops[id]
  {
    AllGrows(g, cs);
    forall id | id in AfterAll(g, cs).ops && id.config.Bracket? ensures id in g.ops {
      ChainOrigin(g, cs, |cs|, id);
    }
  }

  lemma PairedAfter(g: Graph, h: Graph)
    requires BracketsOnly(g.ops) && Grows(g, h)
    requires forall id :: id in h.ops && id.config.Bracket? ==> id in g.ops && h.ops[id] == g.ops[id]
    ensures PairedBrackets(h.ops)
  {
    forall id | IsStart(h.ops, id) ensures EndOf(id) in h.ops && IsBracket(h.ops[EndOf(id)], true) {
      assert HasRef(g.ops, id.config.ref);
      assert id == BracketID(id.config.ref, false) && EndOf(id) in g.ops;
    }
  }

  lemma ReleaseNoBrackets(rel: seq<ReleaseInfo>)
    ensures NoBrackets(ReleaseChains(rel))
  {
  }

  lemma DeleteNoBrackets(del: seq<DeletableInfo>)
    ensures NoBrackets(DeleteChains(del))
  {
  }

  lemma InstallNoBrackets(inst: seq<InstallableInfo>)
    ensures NoBrackets(InstallChains(inst))
  {
  }

  /** Every opening bracket of a described plan has its closing one. */
  lemma DescribedPaired(q: Request)
    ensures PairedBrackets(Described(q).ops)
  {
    StagesAreBrackets(q);
    PartsGrow(q);
    ReleaseNoBrackets(q.rel);
    DeleteNoBrackets(q.del);
    InstallNoBrackets(q.inst);
    NoNewBrackets(Weighted(q), ReleaseChains(q.rel));
    NoNewBrackets(Released(q), DeleteChains(q.del));
    NoNewBrackets(Deleted(q), InstallChains(q.inst));
    PairedAfter(Weighted(q), Described(q));
  }
}
