/** The orders in which an execution begins its operations: they respect precedence, and what a
    failed or cancelled execution has begun is the beginning of what a successful one begins. */
module StartOrders {
  import opened Operations
  import opened Precedence
  import opened PlanGraph
  import opened Scheduler

  /** The execution of a plan. */
  ghost function JobOf(g: Graph, parallelism: nat): Job {
    Job(g.ops.Keys, g.edges, parallelism)
  }

  ghost predicate Listing(V: set<OpID>, l: seq<OpID>) {
    NoDuplicates(l) && forall x :: x in l <==> x in V
  }

  /** No operation is listed twice or after one that it precedes. */
  ghost predicate Ordered(E: set<Edge>, l: seq<OpID>) {
    l != [] ==> l[0] !in l[1..] && (forall y :: y in l[1..] ==> !Precedes(E, y, l[0])) && Ordered(E, l[1..])
  }

  /** `l` lists `V`, never an operation after one that it precedes. */
  ghost predicate StartOrder(E: set<Edge>, V: set<OpID>, l: seq<OpID>) {
    Ordered(E, l) && forall x :: x in l <==> x in V
  }

  lemma {:induction false} OrderedAt(E: set<Edge>, l: seq<OpID>, i: nat, k: nat)
    requires Ordered(E, l) && i < k < |l|
    ensures l[i] != l[k] && !Precedes(E, l[k], l[i])
    decreases |l|
  {
    if i == 0 {
      assert l[1..][k - 1] == l[k];
    } else {
      OrderedAt(E, l[1..], i - 1, k - 1);
    }
  }

  lemma {:induction false} PredsFirstOrders(E: set<Edge>, l: seq<OpID>, i: nat, k: nat)
    requires NoDuplicates(l) && PredsFirst(E, l) && i < k < |l|
    ensures !Precedes(E, l[k], l[i])
    decreases i
  {
    if Precedes(E, l[k], l[i]) {
      var c := LastStep(E, l[k], l[i]);
      assert c in l[..i];
      var m :| 0 <= m < i && l[m] == c;
      PredsFirstOrders(E, l, m, k);
    }
  }

  lemma {:induction false} SuffixOrdered(E: set<Edge>, l: seq<OpID>, n: nat)
    requires NoDuplicates(l) && PredsFirst(E, l) && n <= |l|
    ensures Ordered(E, l[n..])
    decreases |l| - n
  {
    if n < |l| {
      assert l[n..][1..] == l[n + 1..];
      forall y | y in l[n + 1..] ensures y != l[n] && !Precedes(E, y, l[n]) {
        var k :| n < k < |l| && l[k] == y;
        PredsFirstOrders(E, l, n, k);
      }
      SuffixOrdered(E, l, n + 1);
    }
  }

  /** Direct predecessors first is the same as ancestors first. */
  lemma StartOrderIffPredsFirst(E: set<Edge>, V: set<OpID>, l: seq<OpID>)
    requires Within(E, V) && Acyclic(E)
    ensures StartOrder(E, V, l) <==> Listing(V, l) && PredsFirst(E, l)
  {
    if Listing(V, l) && PredsFirst(E, l) {
      SuffixOrdered(E, l, 0);
      assert l[0..] == l;
    }
    if StartOrder(E, V, l) {
      forall i, k | 0 <= i < k < |l| ensures l[i] != l[k] { OrderedAt(E, l, i, k); }
      forall i, p | 0 <= i < |l| && (p, l[i]) in E ensures p in l[..i] {
        EdgePrecedes(E, p, l[i]);
        var m :| 0 <= m < |l| && l[m] == p;
        if i < m { OrderedAt(E, l, i, m); }
        assert m < i;
      }
    }
  }

  /** Some successful run of `j` begins its operations in the order `l`. */
  ghost predicate Produces(j: Job, l: seq<OpID>) {
    exists steps, t :: Run(j, Start(j), steps, t) && t.loop == Returned(true) && t.started == l
  }

  /** Whatever the limit of the pool, a successful execution respects precedence. */
  lemma ProducedIsStartOrder(j: Job, l: seq<OpID>)
    requires ValidJob(j) && Produces(j, l)
    ensures StartOrder(j.edges, j.ids, l)
  {
    var steps, t :| Run(j, Start(j), steps, t) && t.loop == Returned(true) && t.started == l;
    SuccessMeansAllCompleted(j, t);
    StartOrderIffPredsFirst(j.edges, j.ids, l);
  }

  // ----- executions that have not ended, were cancelled or failed -----

  /** Some execution of `j` has, at some moment, begun exactly the operations `l`, in this order. */
  ghost predicate Begins(j: Job, l: seq<OpID>) {
    exists s :: Reachable(j, s) && s.started == l
  }

  lemma {:induction false} StartedGrows(j: Job, s: State, steps: seq<Step>, t: State)
    requires Run(j, s, steps, t)
    ensures s.started <= t.started
    decreases |steps|
  {
    if steps != [] { StartedGrows(j, Apply(j, s, steps[0]), steps[1..], t); }
  }

  /** A run that has begun `t.started` has passed through every shorter list of begun operations,
      and through the moment at which the last one of it began. */
  lemma {:induction false} PassesThrough(j: Job, s: State, steps: seq<Step>, t: State, k: nat)
      returns (some: seq<Step>, u: State)
    requires Run(j, s, steps, t) && |s.started| <= k <= |t.started|
    ensures Run(j, s, some, u) && u.started == t.started[..k]
    ensures |s.started| < k ==> t.started[k - 1] in u.workers
    decreases |steps|
  {
    StartedGrows(j, s, steps, t);
    if |s.started| == k {
      return [], s;
    }
    var next := Apply(j, s, steps[0]);
    StartedGrows(j, next, steps[1..], t);
    if |next.started| == k {
      return [steps[0]], next;
    }
    var rest;
    rest, u := PassesThrough(j, next, steps[1..], t, k);
    some := [steps[0]] + rest;
    FirstOfRun(j, s, steps[0], rest, u);
  }

  /** Any list of operations that respects precedence can be completed. */
  lemma {:induction false} Completable(j: Job, l: seq<OpID>) returns (m: seq<OpID>)
    requires ValidJob(j) && NoDuplicates(l) && PredsFirst(j.edges, l) && forall x :: x in l ==> x in j.ids
    ensures l <= m && Listing(j.ids, m) && PredsFirst(j.edges, m)
    decreases j.ids - set x | x in l
  {
    var left := j.ids - set x | x in l;
    if left == {} {
      forall x | x in j.ids ensures x in l { assert x !in left; }
      m := l;
    } else {
      var x := MinimalElement(j.edges, left);
      forall p | (p, x) in j.edges ensures p in l { EdgePrecedes(j.edges, p, x); }
      Append(j.edges, l, x);
      assert x in left && x !in j.ids - set y | y in l + [x];
      m := Completable(j, l + [x]);
    }
  }

  lemma {:induction false} RunConcat(j: Job, s: State, a: seq<Step>, t: State, b: seq<Step>, u: State)
    requires Run(j, s, a, t) && Run(j, t, b, u)
    ensures Run(j, s, a + b, u)
    decreases |a|
  {
    if a == [] {
      assert a + b == b;
    } else {
      RunConcat(j, Apply(j, s, a[0]), a[1..], t, b, u);
      assert (a + b)[1..] == a[1..] + b;
    }
  }

  lemma Reach(j: Job, s: State, step: Step)
    requires Reachable(j, s) && Enabled(j, s, step)
    ensures Reachable(j, Apply(j, s, step))
  {
    var steps :| Run(j, Start(j), steps, s);
    assert [step][1..] == [];
    RunConcat(j, Start(j), steps, s, [step], Apply(j, s, step));
  }

  lemma StartReachable(j: Job)
    ensures Reachable(j, Start(j))
  {
    assert Run(j, Start(j), [], Start(j));
  }

  /** The loop can receive all that is queued. */
  lemma DrainAll(j: Job, s: State) returns (t: State)
    requires Reachable(j, s) && s.loop.Drain?
    ensures Reachable(j, t) && t.loop == Drain(s.loop.got || s.queue != []) && t.queue == []
    ensures t.opsMap.Keys == s.opsMap.Keys && t.workers == s.workers && t.status == s.status
    ensures t.started == s.started && t.cancelled == s.cancelled
    decreases |s.queue|
  {
    if s.queue == [] {
      t := s;
    } else {
      Reach(j, s, Receive);
      t := DrainAll(j, Apply(j, s, Receive));
    }
  }

  // ----- a failed or cancelled execution begins nothing that a healthy one could not -----

  /** `u` is a healthy execution that has begun the same operations as `s`. It lets a worker go on
      only when the same worker leaves the pool in `s`, and follows the loop of `s` for as long as
      that loop can still submit something. */
  ghost predicate Heals(s: State, u: State) {
    && Healthy(u) && u.started == s.started
    && u.opsMap.Keys == s.opsMap.Keys && u.workers.Keys == s.workers.Keys
    && (forall x :: x in u.workers ==> u.workers[x] in {Submitted, Executing})
    && (!s.cancelled ==> u.opsMap == s.opsMap && u.queue == s.queue && u.loop == s.loop)
    && match s.loop
       case Top(first) => first ==> u.loop == s.loop && u.opsMap == s.opsMap
       case Drain(got) => u.loop.Drain? && (got || s.queue != [] ==> u.loop.got || u.queue != [])
       case Batch(todo) => u.loop.Batch? && todo <= u.loop.todo
       case _ => true
  }

  ghost function StepsLeft(w: Worker): nat {
    match w
    case Submitted => 4
    case Executing => 3
    case Effective => 2
    case _ => 1
  }

  /** The worker of `op` is one step further in `v` than in `u`, and nothing else has moved. */
  ghost predicate Moved(u: State, v: State, op: OpID) {
    && Healthy(v) && v.started == u.started && v.opsMap == u.opsMap && v.loop == u.loop
    && if op !in v.workers then v.workers == u.workers - {op} && v.queue == u.queue + [op] else
      && v.workers - {op} == u.workers - {op} && v.queue == u.queue && v.workers[op] != Submitted
      && op in u.workers && StepsLeft(v.workers[op]) < StepsLeft(u.workers[op])
  }

  lemma Moves(j: Job, u: State, op: OpID, step: Step)
    requires StatusInv(j, u) && Healthy(u) && op in u.workers && u.workers[op] != Submitted
    requires step == WorkerStep(op, u.workers[op])
    ensures Enabled(j, u, step) && Moved(u, Apply(j, u, step), op)
  {
  }

  /** A healthy worker that has begun makes its next step. */
  lemma GoOn(j: Job, u: State, op: OpID) returns (v: State)
    requires ValidJob(j) && Reachable(j, u) && Healthy(u) && op in u.workers && u.workers[op] != Submitted
    ensures Reachable(j, v) && Moved(u, v, op)
    ensures forall x :: Received(v, x) <==> Received(u, x)
  {
    ReachableInv(j, u);
    var step := WorkerStep(op, u.workers[op]);
    Moves(j, u, op, step);
    v := Apply(j, u, step);
    forall x ensures Received(v, x) <==> Received(u, x) { WorkerStepReceived(j, u, step, x); }
    Reach(j, u, step);
  }

  /** A healthy worker that has begun can run to its end. */
  lemma FinishWorker(j: Job, u: State, op: OpID) returns (v: State)
    requires ValidJob(j) && Reachable(j, u) && Healthy(u) && op in u.workers && u.workers[op] != Submitted
    ensures Reachable(j, v) && Healthy(v)
    ensures v.workers == u.workers - {op} && v.queue == u.queue + [op]
    ensures v.started == u.started && v.opsMap == u.opsMap && v.loop == u.loop
    ensures forall x :: Received(v, x) <==> Received(u, x)
    decreases StepsLeft(u.workers[op])
  {
    v := GoOn(j, u, op);
    if op in v.workers {
      v := FinishWorker(j, v, op);
    }
  }

  lemma SameLoop(s: State, u: State, t: State, v: State, op: OpID)
    requires Heals(s, u) && op in s.workers && t.workers == s.workers - {op} && t.loop == s.loop && t.opsMap == s.opsMap
    requires t.started == s.started && t.queue in {s.queue, s.queue + [op]}
    requires t.cancelled || (!s.cancelled && t.queue == s.queue + [op])
    requires Healthy(v) && v.workers == u.workers - {op} && v.queue == u.queue + [op]
    requires v.started == u.started && v.opsMap == u.opsMap && v.loop == u.loop
    ensures Heals(t, v)
  {
  }

  /** A worker of `s` leaves the pool, with its completion queued or its error raised. */
  lemma HealLeave(j: Job, s: State, u: State, step: Step) returns (v: State)
    requires ValidJob(j) && Inv(j, s) && Reachable(j, u) && Heals(s, u)
    requires Enabled(j, s, step) && (step.Push? || step.Raise?)
    ensures Reachable(j, v) && Heals(Apply(j, s, step), v)
  {
    ReachableInv(j, u);
    assert step.op in s.started;
    v := FinishWorker(j, u, step.op);
    SameLoop(s, u, Apply(j, s, step), v, step.op);
  }

  /** The loop of `s` has received something and turns to submitting. */
  lemma HealDrain(j: Job, s: State, u: State) returns (v: State)
    requires ValidJob(j) && Inv(j, s) && Reachable(j, u) && Heals(s, u)
    requires s.loop == Drain(true) && s.queue == [] && s.cancelled
    ensures Reachable(j, v) && Heals(Apply(j, s, EndDrain), v)
  {
    var t := DrainAll(j, u);
    ReachableInv(j, t);
    Reach(j, t, EndDrain);
    v := Apply(j, t, EndDrain);
    forall x | x in Executable(s.opsMap) ensures x in Executable(v.opsMap) {
      StillExecutable(j, s, t, x);
    }
  }

  lemma StillExecutable(j: Job, s: State, t: State, x: OpID)
    requires Inv(j, s) && Inv(j, t) && Healthy(t) && t.queue == []
    requires t.opsMap.Keys == s.opsMap.Keys && t.workers.Keys == s.workers.Keys && x in Executable(s.opsMap)
    ensures x in Executable(t.opsMap)
  {
    forall p ensures p !in t.opsMap[x] {
      if (p, x) in j.edges {
        assert p !in s.opsMap[x];
        assert p in j.ids && p !in t.opsMap && p !in t.workers;
      }
    }
  }

  /** A step of the loop that the healthy execution can take as well. */
  lemma HealSame(j: Job, s: State, u: State, step: Step)
    requires LoopInv(s) && LoopInv(u) && Heals(s, u) && Enabled(j, s, step)
    requires !step.Submit?
    requires (!s.cancelled && !OfWorker(step) && !step.ExternalCancel?) || (step.CheckTop? && s.loop.first)
    ensures Enabled(j, u, step) && Heals(Apply(j, s, step), Apply(j, u, step))
  {
  }

  lemma HealSubmit(j: Job, s: State, u: State, op: OpID)
    requires Inv(j, u) && Heals(s, u) && Enabled(j, s, Submit(op))
    ensures Enabled(j, u, Submit(op)) && Heals(Apply(j, s, Submit(op)), Apply(j, u, Submit(op)))
  {
  }

  lemma HealBegin(j: Job, s: State, u: State, op: OpID)
    requires Inv(j, s) && Inv(j, u) && Heals(s, u) && Enabled(j, s, Begin(op))
    ensures Enabled(j, u, Begin(op)) && Heals(Apply(j, s, Begin(op)), Apply(j, u, Begin(op)))
  {
    assert op in j.ids && op !in s.started && op !in s.opsMap;
    assert u.status[op] == StatusUnknown;
  }

  /** Other steps change nothing that the healthy execution follows. */
  lemma HealStutter(j: Job, s: State, u: State, step: Step)
    requires Inv(j, s) && Heals(s, u) && Enabled(j, s, step)
    requires step.TakeEffect? || step.Complete? || step.Fail? || step.ExternalCancel?
      || (s.cancelled && (step.Receive? || step.EndBatch? || step.PoolDone?))
      || (s.cancelled && step.CheckTop? && !s.loop.first)
      || (s.cancelled && step.EndDrain? && !s.loop.got)
    ensures Heals(Apply(j, s, step), u)
  {
  }

  /** A step that the healthy execution takes as well. */
  ghost predicate Followed(s: State, step: Step) {
    step.Begin? || step.Submit? || (step.CheckTop? && s.loop.Top? && s.loop.first)
    || (!s.cancelled && !OfWorker(step) && !step.ExternalCancel?)
  }

  lemma HealFollow(j: Job, s: State, u: State, step: Step)
    requires Inv(j, s) && Inv(j, u) && Heals(s, u) && Enabled(j, s, step) && Followed(s, step)
    ensures Enabled(j, u, step) && Heals(Apply(j, s, step), Apply(j, u, step))
  {
    match step
    case Begin(op) => HealBegin(j, s, u, op);
    case Submit(op) => HealSubmit(j, s, u, op);
    case _ => HealSame(j, s, u, step);
  }

  lemma HealStep(j: Job, s: State, u: State, step: Step) returns (v: State)
    requires ValidJob(j) && Inv(j, s) && Reachable(j, u) && Heals(s, u) && Enabled(j, s, step)
    ensures Reachable(j, v) && Heals(Apply(j, s, step), v)
  {
    if step.Push? || step.Raise? {
      v := HealLeave(j, s, u, step);
    } else if step.EndDrain? && s.cancelled && s.loop.got {
      v := HealDrain(j, s, u);
    } else if Followed(s, step) {
      ReachableInv(j, u);
      HealFollow(j, s, u, step);
      Reach(j, u, step);
      v := Apply(j, u, step);
    } else {
      HealStutter(j, s, u, step);
      v := u;
    }
  }

  lemma {:induction false} HealRun(j: Job, s: State, steps: seq<Step>, t: State, u: State) returns (v: State)
    requires ValidJob(j) && Inv(j, s) && Reachable(j, u) && Heals(s, u) && Run(j, s, steps, t)
    ensures Reachable(j, v) && Heals(t, v)
    decreases |steps|
  {
    if steps == [] {
      v := u;
    } else {
      v := HealStep(j, s, u, steps[0]);
      StepInv(j, s, steps[0]);
      v := HealRun(j, Apply(j, s, steps[0]), steps[1..], t, v);
    }
  }

  /** From a healthy state the executor can go on to a successful return. */
  lemma HealthyFinish(j: Job, u: State) returns (m: seq<OpID>)
    requires ValidJob(j) && Reachable(j, u) && Healthy(u)
    ensures Produces(j, m) && u.started <= m
  {
    var steps :| Run(j, Start(j), steps, u);
    ReachableInv(j, u);
    var rest, t := CanAlwaysFinish(j, u);
    RunConcat(j, Start(j), steps, u, rest, t);
    StartedGrows(j, u, rest, t);
    m := t.started;
  }

  /** What executions can have begun, however they go on or end, are exactly the prefixes of the
      orders of successful executions. */
  lemma BeginsIffPrefix(j: Job, l: seq<OpID>)
    requires ValidJob(j)
    ensures Begins(j, l) <==> exists m :: Produces(j, m) && l <= m
  {
    if Begins(j, l) {
      var s :| Reachable(j, s) && s.started == l;
      var steps :| Run(j, Start(j), steps, s);
      StartInv(j);
      StartReachable(j);
      var u := HealRun(j, Start(j), steps, s, Start(j));
      var m := HealthyFinish(j, u);
    }
    if m :| Produces(j, m) && l <= m {
      var steps, t :| Run(j, Start(j), steps, t) && t.loop == Returned(true) && t.started == m;
      var some, u := PassesThrough(j, Start(j), steps, t, |l|);
      assert Reachable(j, u) && u.started == l;
    }
  }
}
