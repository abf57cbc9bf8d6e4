/** When the limit of the worker pool does not matter: a condition on the plan under which every
    order that respects precedence can be produced, and what a plan needs for that. At a limit of
    one operation the two are the same. */
module PoolRoom {
  import opened Operations
  import opened Precedence
  import opened GraphRewrites
  import opened Scheduler
  import opened StartOrders
  import opened Rounds

  ghost predicate Unrelated(E: set<Edge>, a: OpID, b: OpID) {
    a != b && !Precedes(E, a, b) && !Precedes(E, b, a)
  }

  /** The operations `S` have no order among themselves, and none with `q` or `c`. */
  ghost predicate Beside(E: set<Edge>, V: set<OpID>, q: OpID, c: OpID, S: set<OpID>) {
    && S <= V
    && (forall x :: x in S ==> Unrelated(E, x, q) && Unrelated(E, x, c))
    && (forall x, y :: x in S && y in S && x != y ==> Unrelated(E, x, y))
  }

  /** Fewer than `limit` operations can be executable beside two of which one waits for the other. */
  ghost predicate Roomy(E: set<Edge>, V: set<OpID>, limit: nat) {
    forall q, c, S :: Precedes(E, q, c) && Beside(E, V, q, c, S) ==> |S| < limit
  }

  /** A pool for all but one of the operations has room. */
  lemma SmallIsRoomy(E: set<Edge>, V: set<OpID>, limit: nat)
    requires Within(E, V) && Acyclic(E) && |V| <= limit + 1
    ensures Roomy(E, V, limit)
  {
    forall q, c, S | Precedes(E, q, c) && Beside(E, V, q, c, S) ensures |S| < limit {
      PrecedesWithin(E, V, q, c);
      assert q != c && q !in S && c !in S;
      SubsetSize(S + {q, c}, V);
      assert |S + {q, c}| == |S| + 2;
    }
  }

  /** A pool for as many operations as are ever executable at once has room. */
  lemma NarrowIsRoomy(E: set<Edge>, V: set<OpID>, limit: nat)
    requires Within(E, V)
    requires forall S :: S <= V && (forall x, y :: x in S && y in S && x != y ==> Unrelated(E, x, y)) ==> |S| <= limit
    ensures Roomy(E, V, limit)
  {
    forall q, c, S | Precedes(E, q, c) && Beside(E, V, q, c, S) ensures |S| < limit {
      PrecedesWithin(E, V, q, c);
      assert q !in S && |S + {q}| == |S| + 1;
    }
  }

  // ----- room is enough -----

  /** What precedes a ripe operation has been received. */
  lemma RipeAncestor(j: Job, l: seq<OpID>, r: nat, a: OpID, x: OpID)
    requires ValidJob(j) && Listing(j.ids, l) && PredsFirst(j.edges, l) && r <= |l|
    requires x in Ripe(j, Elems(l[..r])) && Precedes(j.edges, a, x)
    ensures a in l[..r]
  {
    var d := LastStep(j.edges, a, x);
    assert d in l[..r];
    if a != d {
      PrecedesWithin(j.edges, j.ids, a, x);
      var i :| 0 <= i < r && l[i] == d;
      var m :| 0 <= m < |l| && l[m] == a;
      if i < m { PredsFirstOrders(j.edges, l, i, m); }
      assert l[..r][m] == a;
    }
  }

  lemma LaterNotBefore(E: set<Edge>, l: seq<OpID>, k: nat, a: OpID, b: OpID)
    requires NoDuplicates(l) && PredsFirst(E, l) && k <= |l| && a in l && a !in l[..k] && b in l[..k]
    ensures a != b && !Precedes(E, a, b)
  {
    var m :| 0 <= m < |l| && l[m] == a;
    var i :| 0 <= i < k && l[i] == b;
    assert k <= m;
    PredsFirstOrders(E, l, i, m);
  }

  ghost function Overdue(j: Job, l: seq<OpID>, k: nat, r: nat): set<OpID>
    requires r <= k <= |l|
  {
    Ripe(j, Elems(l[..r])) - Elems(l[..k])
  }

  /** Two ripe operations that have not begun are unrelated. */
  lemma OverdueUnrelated(j: Job, l: seq<OpID>, k: nat, r: nat, x: OpID, a: OpID)
    requires ValidJob(j) && Listing(j.ids, l) && PredsFirst(j.edges, l) && r <= k <= |l|
    requires x in Overdue(j, l, k, r) && a !in l[..r]
    ensures !Precedes(j.edges, a, x)
  {
    if Precedes(j.edges, a, x) { RipeAncestor(j, l, r, a, x); }
  }

  lemma NotYet(l: seq<OpID>, r: nat, k: nat, x: OpID)
    requires r <= k <= |l| && x !in l[..k]
    ensures x !in l[..r]
  {
    assert l[..r] == l[..k][..r];
  }

  /** What is ripe but has not begun when `l[k]` is next, though `l[k]` itself is not ripe, stands
      beside `l[k]` and what it waits for. */
  lemma OverdueBeside(j: Job, l: seq<OpID>, k: nat, r: nat) returns (q: OpID)
    requires ValidJob(j) && Listing(j.ids, l) && PredsFirst(j.edges, l) && r <= k < |l|
    requires l[k] !in Ripe(j, Elems(l[..r]))
    ensures Precedes(j.edges, q, l[k]) && Beside(j.edges, j.ids, q, l[k], Overdue(j, l, k, r))
  {
    var E, c, S := j.edges, l[k], Overdue(j, l, k, r);
    assert c in l && c !in l[..r] && l[..k + 1] == l[..k] + [c];
    q :| (q, c) in E && q !in l[..r];
    EdgePrecedes(E, q, c);
    forall x | x in S ensures Unrelated(E, x, q) && Unrelated(E, x, c) {
      OverdueUnrelated(j, l, k, r, x, q);
      LaterNotBefore(E, l, k, x, q);
      OverdueUnrelated(j, l, k, r, x, c);
      LaterNotBefore(E, l, k + 1, x, c);
    }
    forall x, y | x in S && y in S && x != y ensures Unrelated(E, x, y) {
      NotYet(l, r, k, x);
      NotYet(l, r, k, y);
      OverdueUnrelated(j, l, k, r, x, y);
      OverdueUnrelated(j, l, k, r, y, x);
    }
  }

  lemma OverdueFew(j: Job, l: seq<OpID>, k: nat, r: nat)
    requires ValidJob(j) && Listing(j.ids, l) && PredsFirst(j.edges, l) && r <= k < |l|
    requires Roomy(j.edges, j.ids, j.parallelism) && l[k] !in Ripe(j, Elems(l[..r]))
    ensures |Overdue(j, l, k, r)| < j.parallelism
  {
    var q := OverdueBeside(j, l, k, r);
  }

  /** The first operation from `n` on that is not ripe when `l[..r]` has been received. */
  lemma FirstUnripe(j: Job, l: seq<OpID>, r: nat, n: nat) returns (k: nat)
    requires r <= n <= |l| && Elems(l[..n]) <= Ripe(j, Elems(l[..r]))
    ensures n <= k <= |l| && Elems(l[..k]) <= Ripe(j, Elems(l[..r]))
    ensures k < |l| ==> l[k] !in Ripe(j, Elems(l[..r]))
    decreases |l| - n
  {
    if n == |l| || l[n] !in Ripe(j, Elems(l[..r])) {
      k := n;
    } else {
      assert l[..n + 1] == l[..n] + [l[n]];
      k := FirstUnripe(j, l, r, n + 1);
    }
  }

  /** What was submitted before leaves a place for each operation that was not. */
  ghost predicate Spare(j: Job, l: seq<OpID>, before: set<OpID>, r: nat) {
    forall k :: r <= k < |l| && l[k] !in before ==> |before - Elems(l[..k])| < j.parallelism
  }

  lemma SparePlaces(j: Job, l: seq<OpID>, before: set<OpID>, k: nat, n: nat)
    requires k < n <= |l| && |before - Elems(l[..k])| < j.parallelism
    ensures |Places(before, l, k, Elems(l[..n]))| <= j.parallelism
  {
    var P, B := Places(before, l, k, Elems(l[..n])), before - Elems(l[..k]);
    forall x | x in P ensures x in B + {l[k]} {
      assert l[..k + 1] == l[..k] + [l[k]] && l[..k] == l[..n][..k];
    }
    SubsetSize(P, B + {l[k]});
  }

  lemma PredsRipe(j: Job, l: seq<OpID>, r: nat)
    requires Listing(j.ids, l) && PredsFirst(j.edges, l) && r < |l|
    ensures Elems(l[..r + 1]) <= Ripe(j, Elems(l[..r]))
  {
    forall x | x in l[..r + 1] ensures x in Ripe(j, Elems(l[..r])) {
      var i :| 0 <= i <= r && l[i] == x;
      assert x in l && l[..i] == l[..r][..i];
    }
  }

  lemma ElemsGrow(l: seq<OpID>, r: nat, n: nat)
    requires NoDuplicates(l) && r < n <= |l|
    ensures Elems(l[..r]) < Elems(l[..n])
  {
    assert l[..r] == l[..n][..r] && l[r] == l[..n][r];
    assert l[r] in Elems(l[..n]) && l[r] !in Elems(l[..r]);
  }

  lemma BatchFits(j: Job, l: seq<OpID>, r: nat, n: nat)
    requires ValidJob(j) && Listing(j.ids, l) && PredsFirst(j.edges, l) && Roomy(j.edges, j.ids, j.parallelism)
    requires r <= n <= |l| && (n < |l| ==> l[n] !in Ripe(j, Elems(l[..r])))
    ensures |Ripe(j, Elems(l[..r])) - Elems(l[..n])| <= j.parallelism
  {
    if n < |l| {
      OverdueFew(j, l, n, r);
    } else {
      assert l[..n] == l && Ripe(j, Elems(l[..r])) - Elems(l[..n]) == {};
    }
  }

  lemma LeavesSpare(j: Job, l: seq<OpID>, r: nat, n: nat)
    requires ValidJob(j) && Listing(j.ids, l) && PredsFirst(j.edges, l) && Roomy(j.edges, j.ids, j.parallelism)
    requires r <= n <= |l|
    ensures Spare(j, l, Ripe(j, Elems(l[..r])), n)
  {
    var S := Ripe(j, Elems(l[..r]));
    forall k | n <= k < |l| && l[k] !in S ensures |S - Elems(l[..k])| < j.parallelism { OverdueFew(j, l, k, r); }
  }

  /** With room, the loop can at any time receive all that has completed. */
  lemma RoomyRound(j: Job, l: seq<OpID>, before: set<OpID>, r: nat) returns (n: nat)
    requires ValidJob(j) && Listing(j.ids, l) && PredsFirst(j.edges, l) && Roomy(j.edges, j.ids, j.parallelism)
    requires r < |l| && Spare(j, l, before, r)
    ensures r < n <= |l| && Round(j, l, before, Cut(Elems(l[..r]), r), Cut(Elems(l[..n]), n))
  {
    PredsRipe(j, l, r);
    n := FirstUnripe(j, l, r, r + 1);
    BatchFits(j, l, r, n);
    ElemsGrow(l, r, n);
    forall k | r <= k < n && l[k] !in before ensures |Places(before, l, k, Elems(l[..n]))| <= j.parallelism {
      SparePlaces(j, l, before, k, n);
    }
  }

  lemma {:induction false} RoomyPaces(j: Job, l: seq<OpID>, before: set<OpID>, r: nat) returns (cuts: seq<Cut>)
    requires ValidJob(j) && Listing(j.ids, l) && PredsFirst(j.edges, l) && Roomy(j.edges, j.ids, j.parallelism)
    requires r <= |l| && Spare(j, l, before, r)
    ensures Paced(j, l, before, Cut(Elems(l[..r]), r), cuts)
    decreases |l| - r
  {
    if r == |l| {
      assert l[..r] == l;
      cuts := [];
    } else {
      var n := RoomyRound(j, l, before, r);
      LeavesSpare(j, l, r, n);
      var rest := RoomyPaces(j, l, Ripe(j, Elems(l[..r])), n);
      cuts := [Cut(Elems(l[..n]), n)] + rest;
      assert cuts[1..] == rest;
    }
  }

  /** With room in the pool, the start orders of successful executions are exactly the orders that
      respect precedence. */
  lemma ProducesIffStartOrder(j: Job, l: seq<OpID>)
    requires ValidJob(j) && Roomy(j.edges, j.ids, j.parallelism)
    ensures Produces(j, l) <==> StartOrder(j.edges, j.ids, l)
  {
    ProducesIffInRounds(j, l);
    if StartOrder(j.edges, j.ids, l) {
      StartOrderIffPredsFirst(j.edges, j.ids, l);
      assert Elems(l[..0]) == {};
      var cuts := RoomyPaces(j, l, {}, 0);
    }
  }

  // ----- what a full pool rules out -----

  /** Everything that `x` waits for comes before `y`. */
  ghost predicate Behind(E: set<Edge>, y: OpID, x: OpID) {
    forall p :: (p, x) in E ==> Precedes(E, p, y)
  }

  /** `x` is submitted together with `y` at the latest. */
  ghost predicate TogetherInv(s: State, y: OpID, x: OpID) {
    && (Received(s, y) ==> x !in s.opsMap)
    && (y !in s.opsMap && x in s.opsMap ==> s.loop.Batch?)
  }

  lemma BehindIsExecutable(j: Job, s: State, y: OpID, x: OpID)
    requires ValidJob(j) && Inv(j, s) && y in j.ids && y !in s.opsMap && x in s.opsMap && Behind(j.edges, y, x)
    ensures x in Executable(s.opsMap)
  {
    forall p ensures p !in s.opsMap[x] {
      if (p, x) in j.edges {
        var n: nat :| Walk(j.edges, p, y, n);
        BegunAncestors(j, s, p, y, n);
      }
    }
  }

  lemma StepTogether(j: Job, s: State, step: Step, y: OpID, x: OpID)
    requires ValidJob(j) && Inv(j, s) && y in j.ids && Behind(j.edges, y, x) && TogetherInv(s, y, x)
    requires Enabled(j, s, step)
    ensures TogetherInv(Apply(j, s, step), y, x)
  {
    if y !in s.opsMap && x in s.opsMap { BehindIsExecutable(j, s, y, x); }
    if OfWorker(step) { WorkerStepReceived(j, s, step, y); } else { LoopStepReceived(j, s, step, y); }
  }

  lemma {:induction false} RunTogether(j: Job, s: State, steps: seq<Step>, t: State, y: OpID, x: OpID)
    requires ValidJob(j) && Inv(j, s) && Run(j, s, steps, t)
    requires y in j.ids && Behind(j.edges, y, x) && TogetherInv(s, y, x)
    ensures TogetherInv(t, y, x)
    decreases |steps|
  {
    if steps != [] {
      StepTogether(j, s, steps[0], y, x);
      StepInv(j, s, steps[0]);
      RunTogether(j, Apply(j, s, steps[0]), steps[1..], t, y, x);
    }
  }

  lemma ReachTogether(j: Job, t: State, y: OpID, x: OpID)
    requires ValidJob(j) && Reachable(j, t) && y in j.ids && Behind(j.edges, y, x)
    ensures Received(t, y) ==> x !in t.opsMap
  {
    var steps :| Run(j, Start(j), steps, t);
    StartInv(j);
    RunTogether(j, Start(j), steps, t, y, x);
  }

  /** What was submitted before `l[k]`, which waits for `y`, and has not begun when `l[k]` begins. */
  ghost function Window(j: Job, l: seq<OpID>, k: nat, y: OpID): set<OpID>
    requires k < |l|
  {
    set x | x in j.ids && x !in l[..k + 1] && Behind(j.edges, y, x)
  }

  lemma WindowInPool(j: Job, u: State, l: seq<OpID>, k: nat, y: OpID)
    requires ValidJob(j) && Reachable(j, u) && k < |l| && u.started == l[..k + 1] && l[k] in u.workers
    requires (y, l[k]) in j.edges
    ensures Window(j, l, k, y) <= u.workers.Keys
  {
    ReachableInv(j, u);
    assert Received(u, y);
    forall x | x in Window(j, l, k, y) ensures x in u.workers {
      ReachTogether(j, u, y, x);
      assert x !in u.opsMap && x !in u.started;
    }
  }

  /** Whatever the limit: no execution begins an operation while the pool is full of others that
      were submitted before it. */
  lemma WindowBound(j: Job, l: seq<OpID>, k: nat, y: OpID)
    requires ValidJob(j) && Begins(j, l) && k < |l| && (y, l[k]) in j.edges
    ensures |Window(j, l, k, y)| < j.parallelism
  {
    var s :| Reachable(j, s) && s.started == l;
    var steps :| Run(j, Start(j), steps, s);
    var some, u := PassesThrough(j, Start(j), steps, s, k + 1);
    assert Reachable(j, u);
    WindowInPool(j, u, l, k, y);
    ReachableInv(j, u);
    assert l[k] == l[..k + 1][k];
    OneMoreFits(Window(j, l, k, y), l[k], u.workers.Keys, j.parallelism);
  }

  /** Every order that respects precedence can be produced. */
  ghost predicate AllOrders(j: Job) {
    forall l :: StartOrder(j.edges, j.ids, l) ==> Produces(j, l)
  }

  /** What is submitted before `c` and need not begin before it. */
  ghost function Rivals(j: Job, y: OpID, c: OpID): set<OpID> {
    set x | x in j.ids && x != c && !Precedes(j.edges, x, c) && Behind(j.edges, y, x)
  }

  ghost function Ancestors(E: set<Edge>, V: set<OpID>, c: OpID): set<OpID> {
    set a | a in V && Precedes(E, a, c)
  }

  /** What precedes `c`, in an order that respects precedence. */
  lemma ListAncestors(j: Job, c: OpID) returns (l: seq<OpID>)
    requires ValidJob(j)
    ensures NoDuplicates(l) && PredsFirst(j.edges, l) && forall x :: x in l <==> x in Ancestors(j.edges, j.ids, c)
  {
    var A := Ancestors(j.edges, j.ids, c);
    var F := set e | e in j.edges && e.1 in A;
    forall x, y | (x, y) in F ensures x in A {
      EdgePrecedes(j.edges, x, y);
      PrecedesTrans(j.edges, x, y, c);
    }
    AcyclicSubset(F, j.edges);
    l := Completable(Job(A, F, 1), []);
    forall i, p | 0 <= i < |l| && (p, l[i]) in j.edges ensures p in l[..i] {
      assert l[i] in A && (p, l[i]) in F;
    }
  }

  /** An order in which only what precedes `c` begins before it. */
  lemma EarlyOrder(j: Job, c: OpID) returns (m: seq<OpID>, k: nat)
    requires ValidJob(j) && c in j.ids
    ensures StartOrder(j.edges, j.ids, m) && k < |m| && m[k] == c
    ensures forall x :: x in m[..k + 1] ==> x == c || Precedes(j.edges, x, c)
  {
    var a := ListAncestors(j, c);
    forall p | (p, c) in j.edges ensures p in a { EdgePrecedes(j.edges, p, c); }
    Append(j.edges, a, c);
    k := |a|;
    m := Completable(j, a + [c]);
    assert m[..k + 1] == a + [c];
    StartOrderIffPredsFirst(j.edges, j.ids, m);
  }

  /** For every order to be possible, fewer operations than the limit may be submitted before an
      operation without having to begin before it. */
  lemma AllOrdersNeed(j: Job, y: OpID, c: OpID)
    requires ValidJob(j) && AllOrders(j) && (y, c) in j.edges
    ensures |Rivals(j, y, c)| < j.parallelism
  {
    var m, k := EarlyOrder(j, c);
    BeginsIffPrefix(j, m);
    WindowBound(j, m, k, y);
    SubsetSize(Rivals(j, y, c), Window(j, m, k, y));
  }

  // ----- a pool of one -----

  lemma AncestorsShrink(E: set<Edge>, V: set<OpID>, d: OpID, x: OpID)
    requires Within(E, V) && Acyclic(E) && (d, x) in E
    ensures Ancestors(E, V, d) < Ancestors(E, V, x)
  {
    EdgePrecedes(E, d, x);
    forall a | Precedes(E, a, d) ensures Precedes(E, a, x) { PrecedesTrans(E, a, d, x); }
    assert d in Ancestors(E, V, x) && d !in Ancestors(E, V, d);
  }

  /** Where an operation is unrelated to `q` and not before `c`, which waits for `q`, some pair has
      a rival. */
  lemma {:induction false} FindRival(j: Job, q: OpID, c: OpID, x: OpID) returns (y: OpID, d: OpID, z: OpID)
    requires ValidJob(j) && (q, c) in j.edges && x in j.ids
    requires Unrelated(j.edges, x, q) && x != c && !Precedes(j.edges, x, c)
    ensures (y, d) in j.edges && z in Rivals(j, y, d)
    decreases |Ancestors(j.edges, j.ids, q)| + |Ancestors(j.edges, j.ids, x)|
  {
    var E := j.edges;
    if p :| (p, x) in E && !Precedes(E, p, q) {
      EdgePrecedes(E, p, x);
      if Precedes(E, q, p) { PrecedesTrans(E, q, p, x); }
      AncestorsShrink(E, j.ids, p, x);
      SmallerSet(Ancestors(E, j.ids, p), Ancestors(E, j.ids, x));
      y, d, z := FindRival(j, p, x, q);
    } else {
      y, d, z := q, c, x;
    }
  }

  lemma SmallerSet(A: set<OpID>, B: set<OpID>)
    requires A < B
    ensures |A| < |B|
  {
    var x := OneMore(A, B);
    SubsetSmaller(A, B, x);
  }

  lemma HasRival(j: Job, q: OpID, c: OpID, x: OpID) returns (y: OpID, d: OpID)
    requires ValidJob(j) && Precedes(j.edges, q, c)
    requires x in j.ids && Unrelated(j.edges, x, q) && Unrelated(j.edges, x, c)
    ensures (y, d) in j.edges && |Rivals(j, y, d)| >= 1
  {
    var b := FirstStep(j.edges, q, c);
    EdgePrecedes(j.edges, q, b);
    if Precedes(j.edges, x, b) && b != c { PrecedesTrans(j.edges, x, b, c); }
    var z;
    y, d, z := FindRival(j, q, b, x);
  }

  /** With one worker every order can be produced iff of any two operations, one before the other,
      every third has an order with at least one. */
  lemma OneWorkerExactly(j: Job)
    requires ValidJob(j) && j.parallelism == 1
    ensures AllOrders(j) <==> Roomy(j.edges, j.ids, 1)
  {
    if Roomy(j.edges, j.ids, 1) {
      forall l | StartOrder(j.edges, j.ids, l) ensures Produces(j, l) { ProducesIffStartOrder(j, l); }
    }
    if AllOrders(j) {
      forall q, c, S | Precedes(j.edges, q, c) && Beside(j.edges, j.ids, q, c, S) ensures |S| < 1 {
        if x :| x in S {
          var y, d := HasRival(j, q, c, x);
          AllOrdersNeed(j, y, d);
        }
      }
    }
  }
}
