/** Inputs on which the code does less than one might expect. The exact conditions are
    `ResourceInfo.UniqueIffAtMostTwice`, `FailurePlan.LookupIffResourceAfter`, and for what a full
    pool can begin `Rounds.ProducesIffInRounds` and `PoolRoom.OneWorkerExactly`. */
module Limits {
  import opened Operations
  import opened Precedence
  import opened PlanGraph
  import opened Chains
  import opened ResourceInfo
  import opened PlanRequest
  import opened PlanBuild
  import opened Builder
  import opened PlanProperties
  import opened FailurePlan
  import opened ReporterRuns
  import opened GraphRewrites
  import opened Scheduler
  import opened StartOrders
  import opened Rounds
  import opened PoolRoom
  import opened OptimizedOrders

  /** A resource that comes three times gets iteration 1 twice. */
  lemma ThirdOccurrenceCollides(t: seq<InstallableInfo>)
    requires var r := Resource("job", false, None, {}, false, false, false, false, false, [], [], []);
      var a := InstallableInfo(r, None, InstallCreate, false, false, true, PreInstall, None, 0);
      IteratedFrom([a, a.(stage := Install), a.(stage := PostInstall)], t)
    ensures t[1].res.id == t[2].res.id && t[1].iteration == t[2].iteration == 1
    ensures !UniqueIterations(t)
  {
    var r := Resource("job", false, None, {}, false, false, false, false, false, [], [], []);
    var a := InstallableInfo(r, None, InstallCreate, false, false, true, PreInstall, None, 0);
    var s := [a, a.(stage := Install), a.(stage := PostInstall)];
    assert s[0].res.id == s[1].res.id && s[0].res.id == s[2].res.id;
    assert Seen(s, 1) && Seen(s, 2);
  }

  lemma OnlyDeployIsResource(q: Request, i: InstallableInfo, id: OpID)
    requires q.inst == [i] && q.del == [] && !i.mustDeleteOnSuccess
    requires id in Described(q).ops && Described(q).ops[id].category == CategoryResource
    ensures i.mustInstall != InstallNone && id == DeployOp(i).ID()
  {
    if !id.config.ResourceKey? {
      OthersNotReported(q, id);
    } else {
      ResourceOpOrigin(q, id);
      assert PlacedBy(Described(q), InstallChain(i), id);
      DeployOfChain(Described(q), i, id);
    }
  }

  lemma DeployOfChain(g: Graph, i: InstallableInfo, id: OpID)
    requires PlacedBy(g, InstallChain(i), id) && g.ops[id].category == CategoryResource && !i.mustDeleteOnSuccess
    ensures i.mustInstall != InstallNone && id == DeployOp(i).ID()
  {
    var n :| 0 <= n < |InstallChain(i)| && PlacedAs(g, InstallChain(i)[n], id);
    InstallChainOps(i, n);
  }

  /** A plan without final tracking for one resource that is to be deleted on failure: should it
      fail, its failure plan looks for a readiness operation that is not there. */
  lemma LoneResourceLookupFails(q: Request, h: Graph, i: InstallableInfo)
    requires Built(q, h, true) && q.inst == [i] && q.del == []
    requires i.mustInstall != InstallNone && i.mustTrackReadiness && i.mustDeleteOnFailed && !i.mustDeleteOnSuccess
    ensures !LookupsSucceed(h.ops, q.inst)
  {
    var g, x := Described(q), ReadinessOp(i).ID();
    assert q.inst[0] == i;
    LookupIffResourceAfter(q, h, 0);
    ResourceOpsInOrder(q, 0);
    forall r | r in g.ops && g.ops[r].category == CategoryResource ensures !Precedes(g.edges, x, r) {
      OnlyDeployIsResource(q, i, r);
      if Precedes(g.edges, x, r) { PrecedesTrans(g.edges, r, x, r); }
    }
  }

  // ----- a pool of one worker -----

  ghost predicate Apart(a: OpID, b: OpID, c: OpID, x: OpID) {
    a != b && a != c && a != x && b != c && b != x && c != x
  }

  /** `c` waits for `a`, and `b` for nothing. */
  ghost function OnePair(a: OpID, b: OpID, c: OpID): Job {
    Job({a, b, c}, {(a, c)}, 1)
  }

  /** `c` waits for `a`, and `b` for `x`. */
  ghost function TwoPairs(a: OpID, b: OpID, c: OpID, x: OpID): Job {
    Job({a, b, c, x}, {(a, c), (x, b)}, 1)
  }

  lemma PairsValid(a: OpID, b: OpID, c: OpID, x: OpID)
    requires Apart(a, b, c, x)
    ensures ValidJob(OnePair(a, b, c)) && ValidJob(TwoPairs(a, b, c, x))
  {
    var none: set<Edge>, one := {}, {(a, c)};
    forall p, q ensures !Precedes(none, p, q) { if Precedes(none, p, q) { var d := FirstStep(none, p, q); } }
    AddEdgeAcyclic(none, a, c);
    assert none + {(a, c)} == one;
    if Precedes(one, b, x) { var d := FirstStep(one, b, x); }
    AddEdgeAcyclic(one, x, b);
    assert one + {(x, b)} == {(a, c), (x, b)};
  }

  lemma OnlyItself(before: set<OpID>, l: seq<OpID>, k: nat, R: set<OpID>)
    requires k < |l| && before <= Elems(l[..k]) <= R && l[k] !in l[..k]
    ensures |Places(before, l, k, R)| == 1
  {
    assert l[..k + 1] == l[..k] + [l[k]];
    assert Places(before, l, k, R) == {l[k]};
  }

  lemma BatchRound(j: Job, l: seq<OpID>, before: set<OpID>, m: nat, n: nat)
    requires ValidJob(j) && NoDuplicates(l) && m < n <= |l| && before <= Elems(l[..m])
    requires Ripe(j, Elems(l[..m])) == Elems(l[..n])
    ensures Round(j, l, before, Cut(Elems(l[..m]), m), Cut(Elems(l[..n]), n))
  {
    ElemsGrow(l, m, n);
    assert Ripe(j, Elems(l[..m])) - Elems(l[..n]) == {};
    forall k | m <= k < n ensures |Places(before, l, k, Elems(l[..n]))| <= j.parallelism {
      assert l[..m] == l[..k][..m] && l[..k] == l[..n][..k];
      OnlyItself(before, l, k, Elems(l[..n]));
    }
  }

  /** Whatever the limit, an order of two whole batches can be produced. */
  lemma TwoBatchesProduced(j: Job, l: seq<OpID>, n: nat)
    requires ValidJob(j) && Listing(j.ids, l) && 0 < n < |l|
    requires Ripe(j, {}) == Elems(l[..n]) && Ripe(j, Elems(l[..n])) == j.ids
    ensures Produces(j, l)
  {
    assert Elems(l[..0]) == {} && l[..|l|] == l && Elems(l) == j.ids;
    BatchRound(j, l, {}, 0, n);
    BatchRound(j, l, Elems(l[..n]), n, |l|);
    var cuts := [Cut(Elems(l[..n]), n), Cut(j.ids, |l|)];
    assert cuts[1..] == [cuts[1]] && cuts[1..][1..] == [];
    assert Paced(j, l, j.ids, cuts[1], []);
    assert Paced(j, l, Elems(l[..n]), cuts[0], cuts[1..]);
    PacedIsProduced(j, l, cuts);
  }

  /** An order that respects precedence but is out of reach: `b` is submitted along with `a`, so
      with one worker it begins before the loop can learn that `a` has completed. */
  lemma FullPoolForbids(a: OpID, b: OpID, c: OpID, x: OpID)
    requires Apart(a, b, c, x)
    ensures StartOrder(OnePair(a, b, c).edges, OnePair(a, b, c).ids, [a, c, b])
    ensures !Produces(OnePair(a, b, c), [a, c, b])
  {
    var j, l := OnePair(a, b, c), [a, c, b];
    PairsValid(a, b, c, x);
    assert l[0] == a && l[1] == c && l[2] == b && l[..1] == [a] && l[..1 + 1] == [a, c];
    assert NoDuplicates(l) && Listing(j.ids, l) && PredsFirst(j.edges, l);
    StartOrderIffPredsFirst(j.edges, j.ids, l);
    if Produces(j, l) {
      BeginsIffPrefix(j, l);
      WindowBound(j, l, 1, a);
      NotInWindow(j, l, 1, a, b);
    }
  }

  lemma NotInWindow(j: Job, l: seq<OpID>, k: nat, y: OpID, x: OpID)
    requires k < |l| && |Window(j, l, k, y)| < 1 && x in j.ids && forall p :: (p, x) !in j.edges
    ensures x in l[..k + 1]
  {
    assert x !in Window(j, l, k, y);
  }

  lemma KeepFour(a: OpID, b: OpID, c: OpID, x: OpID)
    requires Apart(a, b, c, x)
    ensures Keep([a, x, c, b], {a, b, c}) == [a, c, b]
  {
    var K := {a, b, c};
    KeepConcat([a], [x, c, b], K);
    KeepConcat([x], [c, b], K);
    KeepAll([a], K);
    KeepAll([c, b], K);
    assert Keep([x], K) == Keep([], K);
    assert [a] + [x, c, b] == [a, x, c, b] && [x] + [c, b] == [x, c, b];
  }

  /** So optimising can take an order away: with `x` still in the plan, `b` is submitted as late as
      `c`, and without it too early. */
  lemma OptimizingTakesAway(a: OpID, b: OpID, c: OpID, x: OpID)
    requires Apart(a, b, c, x)
    ensures SquashEdges(TwoPairs(a, b, c, x).edges, x) == OnePair(a, b, c).edges
    ensures Produces(TwoPairs(a, b, c, x), [a, x, c, b])
    ensures Keep([a, x, c, b], {a, b, c}) == [a, c, b] && !Produces(OnePair(a, b, c), [a, c, b])
  {
    var j, l := TwoPairs(a, b, c, x), [a, x, c, b];
    PairsValid(a, b, c, x);
    assert l[0] == a && l[1] == x && l[2] == c && l[3] == b && l[..2] == [a, x];
    assert Preds(j.edges, x) == {};
    assert Ripe(j, {}) == {a, x} && Ripe(j, {a, x}) == j.ids && Elems(l[..2]) == {a, x};
    TwoBatchesProduced(j, l, 2);
    KeepFour(a, b, c, x);
    FullPoolForbids(a, b, c, x);
  }

  /** And it can add one: with `x` in the plan, `b` can no longer begin before `a`. */
  lemma OptimizingAdds(a: OpID, b: OpID, c: OpID, x: OpID)
    requires Apart(a, b, c, x)
    ensures Produces(OnePair(a, b, c), [b, a, c])
    ensures !exists m :: Produces(TwoPairs(a, b, c, x), m) && Keep(m, {a, b, c}) == [b, a, c]
  {
    var j, l := OnePair(a, b, c), [b, a, c];
    PairsValid(a, b, c, x);
    assert l[0] == b && l[1] == a && l[2] == c && l[..2] == [b, a];
    assert Ripe(j, {}) == {a, b} && Ripe(j, {a, b}) == j.ids && Elems(l[..2]) == {a, b};
    TwoBatchesProduced(j, l, 2);
    if m :| Produces(TwoPairs(a, b, c, x), m) && Keep(m, {a, b, c}) == l {
      ProducedIsStartOrder(TwoPairs(a, b, c, x), m);
      StartOrderIffPredsFirst(TwoPairs(a, b, c, x).edges, TwoPairs(a, b, c, x).ids, m);
      LaterInPool(a, b, c, x, m);
    }
  }

  lemma NoneKeptBefore(m: seq<OpID>, K: set<OpID>, k: nat)
    requires NoDuplicates(m) && k < |m| && Keep(m, K) != [] && Keep(m, K)[0] == m[k]
    ensures forall y :: y in m[..k] ==> y !in K
  {
    KeepPrefix(m[..k], m, K);
    KeepMembers(m[..k], K);
    assert m[k] !in m[..k];
    assert Keep(m[..k], K) == [];
  }

  lemma LaterInPool(a: OpID, b: OpID, c: OpID, x: OpID, m: seq<OpID>)
    requires Apart(a, b, c, x) && Listing({a, b, c, x}, m) && Keep(m, {a, b, c}) == [b, a, c]
    ensures !Produces(TwoPairs(a, b, c, x), m)
  {
    var j := TwoPairs(a, b, c, x);
    assert b in m;
    var k :| 0 <= k < |m| && m[k] == b;
    NoneKeptBefore(m, {a, b, c}, k);
    assert m[..k + 1] == m[..k] + [b];
    if Produces(j, m) {
      PairsValid(a, b, c, x);
      BeginsIffPrefix(j, m);
      WindowBound(j, m, k, x);
      NotInWindow(j, m, k, x, a);
    }
  }
}
