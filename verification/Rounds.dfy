/** Exactly which orders the executor can produce with a pool of a given size. Workers, queue,
    statuses and interleaving are reduced to the rounds of the scheduling loop: in each it receives
    completions and then submits, before it receives again, all that has become executable. */
module Rounds {
  import opened Operations
  import opened GraphRewrites
  import opened Scheduler
  import opened StartOrders

  ghost function Elems(l: seq<OpID>): set<OpID> {
    set x | x in l
  }

  /** What is submitted once all of `R` has been received: whatever waits for nothing else. */
  ghost function Ripe(j: Job, R: set<OpID>): set<OpID> {
    set x | x in j.ids && forall p :: (p, x) in j.edges ==> p in R
  }

  /** A moment at which the loop has just received completions: all those received so far, and how
      many operations have begun. */
  datatype Cut = Cut(received: set<OpID>, begun: nat)

  /** Who holds a place in the pool when `l[k]` begins: all that was submitted before the round and
      all that has begun, except what has completed by then. */
  ghost function Places(before: set<OpID>, l: seq<OpID>, k: nat, R: set<OpID>): set<OpID>
    requires k < |l|
  {
    before + Elems(l[..k + 1]) - R * Elems(l[..k])
  }

  /** The loop can get from `c` to `d`: what begins has been submitted, everything submitted fits
      into the pool at the end, and an operation submitted in this round finds a place. */
  ghost predicate Round(j: Job, l: seq<OpID>, before: set<OpID>, c: Cut, d: Cut) {
    && c.received < d.received && c.begun <= d.begun <= |l|
    && d.received <= Elems(l[..d.begun]) <= Ripe(j, c.received)
    && |Ripe(j, c.received) - d.received| <= j.parallelism
    && forall k {:trigger Places(before, l, k, d.received)} :: c.begun <= k < d.begun && l[k] !in before ==>
      |Places(before, l, k, d.received)| <= j.parallelism
  }

  /** The rest of `l` can be begun in rounds that end at `cuts`. */
  ghost predicate Paced(j: Job, l: seq<OpID>, before: set<OpID>, c: Cut, cuts: seq<Cut>)
    decreases |cuts|
  {
    if cuts == [] then c.received == j.ids
    else Round(j, l, before, c, cuts[0]) && Paced(j, l, Ripe(j, c.received), cuts[0], cuts[1..])
  }

  ghost predicate InRounds(j: Job, l: seq<OpID>) {
    exists cuts :: Paced(j, l, {}, Cut({}, 0), cuts)
  }

  // ----- rounds can be executed -----

  /** The loop has received `c` and is submitting or done with it; only what it is to receive next
      is let go. */
  ghost predicate InRound(s: State, l: seq<OpID>, before: set<OpID>, c: Cut, d: Cut) {
    && (s.loop.Batch? || s.loop == Top(false)) && Healthy(s)
    && s.started <= l && c.begun <= |s.started| <= d.begun <= |l|
    && (forall x :: Received(s, x) <==> x in c.received)
    && (forall x :: x in s.queue ==> x in d.received)
    && s.opsMap.Keys !! before
    && (|s.started| < d.begun ==> s.workers.Keys <= before + Elems(l[..|s.started| + 1]))
  }

  /** No worker that is to be received next is still in the pool. */
  ghost predicate LetGo(s: State, d: Cut) {
    forall x :: x in s.workers && x in d.received ==> s.workers[x] == Submitted
  }

  lemma ExecutableIsRipe(j: Job, s: State, c: Cut, x: OpID)
    requires Inv(j, s) && (forall y :: Received(s, y) <==> y in c.received) && x in s.opsMap
    ensures x in Executable(s.opsMap) <==> x in Ripe(j, c.received)
  {
    if x in Ripe(j, c.received) {
      forall p ensures p !in s.opsMap[x] { if (p, x) in j.edges { assert p in c.received; } }
    }
    if x in Executable(s.opsMap) {
      forall p | (p, x) in j.edges ensures p in c.received { assert p !in s.opsMap[x]; }
    }
  }

  lemma SubmittedIsRipe(j: Job, s: State, c: Cut, x: OpID)
    requires Inv(j, s) && (forall y :: Received(s, y) ==> y in c.received) && x in j.ids && x !in s.opsMap
    ensures x in Ripe(j, c.received)
  {
  }

  lemma OneMoreFits(W: set<OpID>, x: OpID, P: set<OpID>, n: nat)
    requires W + {x} <= P && x !in W && |P| <= n
    ensures |W| < n
  {
    SubsetSize(W + {x}, P);
  }

  /** The next operation to begin is in the batch. */
  lemma NextIsInBatch(j: Job, s: State, l: seq<OpID>, before: set<OpID>, c: Cut, d: Cut, k: nat)
    requires Inv(j, s) && Listing(j.ids, l) && InRound(s, l, before, c, d)
    requires k == |s.started| < d.begun && Elems(l[..d.begun]) <= Ripe(j, c.received) && l[k] !in s.workers
    ensures s.loop.Batch? && l[k] in s.opsMap && l[k] in s.loop.todo
  {
    assert s.started == l[..k] && l[k] == l[..d.begun][k];
    assert l[k] !in s.started;
    assert l[k] in s.opsMap;
    ExecutableIsRipe(j, s, c, l[k]);
  }

  lemma NextPlaces(s: State, l: seq<OpID>, before: set<OpID>, d: Cut, k: nat)
    requires k < |l| && NoDuplicates(l) && s.workers.Keys <= before + Elems(l[..k + 1]) && LetGo(s, d)
    requires forall x :: x in s.workers && x in l[..k] ==> s.workers[x] != Submitted
    ensures s.workers.Keys + {l[k]} <= Places(before, l, k, d.received)
  {
    assert l[..k + 1][k] == l[k];
  }

  /** And there is a place for it. */
  lemma NextFits(j: Job, s: State, l: seq<OpID>, before: set<OpID>, c: Cut, d: Cut, k: nat)
    requires Inv(j, s) && Listing(j.ids, l) && InRound(s, l, before, c, d) && LetGo(s, d)
    requires k == |s.started| < d.begun && Elems(l[..d.begun]) <= Ripe(j, c.received) && l[k] !in s.workers
    requires l[k] !in before ==> |Places(before, l, k, d.received)| <= j.parallelism
    ensures Enabled(j, s, Submit(l[k]))
  {
    NextIsInBatch(j, s, l, before, c, d, k);
    assert s.started == l[..k];
    NextPlaces(s, l, before, d, k);
    OneMoreFits(s.workers.Keys, l[k], Places(before, l, k, d.received), j.parallelism);
  }

  /** Whatever else is in the batch finds a place after that. */
  lemma RestFits(j: Job, s: State, l: seq<OpID>, before: set<OpID>, c: Cut, d: Cut, x: OpID)
    requires Inv(j, s) && Round(j, l, before, c, d) && InRound(s, l, before, c, d) && LetGo(s, d)
    requires |s.started| == d.begun && s.loop.Batch? && x in s.loop.todo
    ensures Enabled(j, s, Submit(x))
  {
    var P := Ripe(j, c.received) - d.received;
    assert s.started == l[..d.begun];
    forall y | y in s.workers ensures y in P {
      SubmittedIsRipe(j, s, c, y);
      assert y in d.received ==> y in s.started;
    }
    ExecutableIsRipe(j, s, c, x);
    assert x !in s.started && x in P;
    OneMoreFits(s.workers.Keys, x, P, j.parallelism);
  }

  /** A step that begins the operations of `l` in order, and submits each before all others. */
  ghost predicate Planned(s: State, l: seq<OpID>, d: Cut, step: Step) {
    match step
    case Begin(op) => |s.started| < |l| && |s.started| < d.begun && op == l[|s.started|]
    case Submit(op) => |s.started| < |l| && |s.started| < d.begun ==> op == l[|s.started|]
    case EndBatch => |s.started| == d.begun
    case _ => false
  }

  lemma StepToNext(j: Job, s: State, l: seq<OpID>, before: set<OpID>, c: Cut, d: Cut, k: nat) returns (step: Step)
    requires Inv(j, s) && Listing(j.ids, l) && Round(j, l, before, c, d)
    requires InRound(s, l, before, c, d) && LetGo(s, d) && k == |s.started| < d.begun
    ensures Enabled(j, s, step) && Planned(s, l, d, step)
  {
    assert s.started == l[..k] && l[k] !in s.started;
    if l[k] in s.workers {
      step := Begin(l[k]);
    } else {
      assert l[k] !in before ==> |Places(before, l, k, d.received)| <= j.parallelism;
      NextFits(j, s, l, before, c, d, k);
      step := Submit(l[k]);
    }
  }

  /** A step of a round other than letting a worker go. */
  lemma StepInRound(j: Job, s: State, l: seq<OpID>, before: set<OpID>, c: Cut, d: Cut) returns (step: Step)
    requires Inv(j, s) && Listing(j.ids, l) && Round(j, l, before, c, d)
    requires InRound(s, l, before, c, d) && LetGo(s, d) && (|s.started| < d.begun || s.loop.Batch?)
    ensures Enabled(j, s, step) && Planned(s, l, d, step)
  {
    if |s.started| < d.begun {
      step := StepToNext(j, s, l, before, c, d, |s.started|);
    } else if x :| x in s.loop.todo {
      RestFits(j, s, l, before, c, d, x);
      step := Submit(x);
    } else {
      step := EndBatch;
    }
  }

  lemma BeginInRound(j: Job, s: State, l: seq<OpID>, before: set<OpID>, c: Cut, d: Cut, op: OpID)
    requires StatusInv(j, s) && InRound(s, l, before, c, d) && Enabled(j, s, Begin(op)) && Planned(s, l, d, Begin(op))
    ensures InRound(Apply(j, s, Begin(op)), l, before, c, d)
  {
    var k, t := |s.started|, Apply(j, s, Begin(op));
    forall x ensures Received(t, x) <==> Received(s, x) { WorkerStepReceived(j, s, Begin(op), x); }
    if k + 1 < d.begun {
      forall x | x in t.workers ensures x in before + Elems(l[..k + 2]) {
        assert x in s.workers.Keys;
        assert l[..k + 2] == l[..k + 1] + [l[k + 1]];
      }
    }
  }

  lemma SubmitInRound(j: Job, s: State, l: seq<OpID>, before: set<OpID>, c: Cut, d: Cut, op: OpID)
    requires StatusInv(j, s) && QueueInv(j, s) && InRound(s, l, before, c, d)
    requires Enabled(j, s, Submit(op)) && Planned(s, l, d, Submit(op))
    ensures InRound(Apply(j, s, Submit(op)), l, before, c, d)
  {
    var k, t := |s.started|, Apply(j, s, Submit(op));
    forall x ensures Received(t, x) <==> Received(s, x) { LoopStepReceived(j, s, Submit(op), x); }
    if k < d.begun { assert l[..k + 1][k] == l[k]; }
  }

  lemma StaysInRound(j: Job, s: State, l: seq<OpID>, before: set<OpID>, c: Cut, d: Cut, step: Step)
    requires Inv(j, s) && InRound(s, l, before, c, d) && Enabled(j, s, step) && Planned(s, l, d, step)
    ensures InRound(Apply(j, s, step), l, before, c, d)
  {
    match step
    case Begin(op) => BeginInRound(j, s, l, before, c, d, op);
    case Submit(op) => SubmitInRound(j, s, l, before, c, d, op);
    case EndBatch => assert forall x :: Received(Apply(j, s, EndBatch), x) <==> Received(s, x);
  }

  lemma LetGoInRound(s: State, t: State, l: seq<OpID>, before: set<OpID>, c: Cut, d: Cut, op: OpID)
    requires InRound(s, l, before, c, d) && op in d.received && op in s.workers && Healthy(t)
    requires t.workers == s.workers - {op} && t.queue == s.queue + [op]
    requires t.started == s.started && t.opsMap == s.opsMap && t.loop == s.loop
    requires forall x :: Received(t, x) <==> Received(s, x)
    ensures InRound(t, l, before, c, d)
  {
  }

  lemma PlannedSmaller(j: Job, s: State, l: seq<OpID>, d: Cut, step: Step)
    requires Enabled(j, s, step) && Planned(s, l, d, step)
    ensures var t := Apply(j, s, step);
      (s.opsMap.Keys, |l| - |s.started|, s.workers.Keys, s.loop.Batch? decreases to
       t.opsMap.Keys, |l| - |t.started|, t.workers.Keys, t.loop.Batch?)
  {
    if step.Submit? { assert step.op in s.opsMap.Keys; }
  }

  /** The next thing to happen in a round. */
  lemma AdvanceRound(j: Job, s: State, l: seq<OpID>, before: set<OpID>, c: Cut, d: Cut) returns (t: State)
    requires ValidJob(j) && Reachable(j, s) && Listing(j.ids, l)
    requires Round(j, l, before, c, d) && InRound(s, l, before, c, d)
    requires !LetGo(s, d) || |s.started| < d.begun || s.loop.Batch?
    ensures Reachable(j, t) && InRound(t, l, before, c, d)
    ensures (s.opsMap.Keys, |l| - |s.started|, s.workers.Keys, s.loop.Batch? decreases to
             t.opsMap.Keys, |l| - |t.started|, t.workers.Keys, t.loop.Batch?)
  {
    if op :| op in s.workers && op in d.received && s.workers[op] != Submitted {
      t := FinishWorker(j, s, op);
      LetGoInRound(s, t, l, before, c, d, op);
    } else {
      ReachableInv(j, s);
      var step := StepInRound(j, s, l, before, c, d);
      StaysInRound(j, s, l, before, c, d, step);
      Reach(j, s, step);
      PlannedSmaller(j, s, l, d, step);
      t := Apply(j, s, step);
    }
  }

  /** All of a round up to the moment before the loop receives again. */
  lemma RunRound(j: Job, s: State, l: seq<OpID>, before: set<OpID>, c: Cut, d: Cut) returns (t: State)
    requires ValidJob(j) && Reachable(j, s) && Listing(j.ids, l)
    requires Round(j, l, before, c, d) && InRound(s, l, before, c, d)
    ensures Reachable(j, t) && InRound(t, l, before, c, d) && LetGo(t, d)
    ensures t.loop == Top(false) && |t.started| == d.begun
    decreases s.opsMap.Keys, |l| - |s.started|, s.workers.Keys, s.loop.Batch?
  {
    if !LetGo(s, d) || |s.started| < d.begun || s.loop.Batch? {
      t := AdvanceRound(j, s, l, before, c, d);
      t := RunRound(j, t, l, before, c, d);
    } else {
      t := s;
    }
  }

  lemma NoneLeft(j: Job, s: State, l: seq<OpID>)
    requires Inv(j, s) && Listing(j.ids, l) && s.started == l
    requires forall x :: x in s.workers ==> s.workers[x] == Submitted
    ensures s.workers == map[]
  {
    assert s.workers.Keys == {};
  }

  lemma NextIsSubmitted(j: Job, s: State, l: seq<OpID>)
    requires ValidJob(j) && Reachable(j, s) && Listing(j.ids, l)
    requires s.opsMap == map[] && s.started <= l && |s.started| < |l|
    ensures l[|s.started|] in s.workers && s.workers[l[|s.started|]] == Submitted
  {
    ReachableInv(j, s);
    var op := l[|s.started|];
    assert op in l && op !in s.started;
  }

  lemma BeginNext(j: Job, s: State, l: seq<OpID>) returns (t: State)
    requires ValidJob(j) && Reachable(j, s) && Healthy(s) && Listing(j.ids, l)
    requires s.opsMap == map[] && s.loop == Waiting && s.started <= l && |s.started| < |l|
    ensures Reachable(j, t) && Healthy(t) && t.opsMap == map[] && t.loop == Waiting
    ensures t.started == l[..|s.started| + 1]
  {
    var op := l[|s.started|];
    NextIsSubmitted(j, s, l);
    Reach(j, s, Begin(op));
    t := Apply(j, s, Begin(op));
    assert l[..|s.started| + 1] == s.started + [op];
  }

  /** Once everything is submitted, the workers can begin in whatever order is left. */
  lemma FinishOrder(j: Job, s: State, l: seq<OpID>)
    requires ValidJob(j) && Reachable(j, s) && Healthy(s) && Listing(j.ids, l) && s.started <= l
    requires s.loop == Waiting && s.opsMap == map[]
    ensures Produces(j, l)
    decreases |l| - |s.started|, s.workers.Keys
  {
    if op :| op in s.workers && s.workers[op] != Submitted {
      var t := FinishWorker(j, s, op);
      FinishOrder(j, t, l);
    } else if |s.started| < |l| {
      var t := BeginNext(j, s, l);
      FinishOrder(j, t, l);
    } else {
      ReachableInv(j, s);
      NoneLeft(j, s, l);
      Reach(j, s, PoolDone);
    }
  }

  lemma FinishFromTop(j: Job, s: State, l: seq<OpID>)
    requires ValidJob(j) && Reachable(j, s) && Healthy(s) && Listing(j.ids, l) && s.started <= l
    requires s.loop.Top? && s.opsMap == map[]
    ensures Produces(j, l)
  {
    Reach(j, s, CheckTop);
    FinishOrder(j, Apply(j, s, CheckTop), l);
  }

  /** What the loop has received when it has emptied the queue at the end of a round. */
  lemma ReceivedNext(j: Job, s: State, l: seq<OpID>, before: set<OpID>, c: Cut, d: Cut, t: State)
    requires Inv(j, s) && InRound(s, l, before, c, d) && LetGo(s, d) && |s.started| == d.begun
    requires c.received <= d.received <= Elems(l[..d.begun])
    requires t.workers == s.workers && t.status == s.status && t.queue == []
    ensures forall x :: Received(t, x) <==> x in d.received
  {
    assert s.started == l[..d.begun];
    forall x | x in d.received ensures Received(t, x) {
      assert x in s.started;
    }
    forall x | Received(t, x) ensures x in d.received {
      assert Received(s, x) || x in s.queue;
    }
  }

  lemma TopToDrain(j: Job, s: State) returns (t: State)
    requires Reachable(j, s) && s.loop == Top(false) && s.opsMap != map[] && !s.cancelled
    ensures Reachable(j, t) && t.loop == Drain(s.queue != []) && t.queue == []
    ensures t.workers == s.workers && t.status == s.status && t.opsMap.Keys == s.opsMap.Keys
    ensures t.started == s.started && !t.cancelled
  {
    Reach(j, s, CheckTop);
    t := DrainAll(j, Apply(j, s, CheckTop));
  }

  lemma OneMore(A: set<OpID>, B: set<OpID>) returns (x: OpID)
    requires A < B
    ensures x in B && x !in A
  {
    assert !(B <= A);
    x :| x in B && x !in A;
  }

  /** At the end of a round the loop receives what it is to receive, and nothing else. */
  lemma ReceiveRound(j: Job, s: State, l: seq<OpID>, before: set<OpID>, c: Cut, d: Cut) returns (t: State)
    requires ValidJob(j) && Reachable(j, s) && Round(j, l, before, c, d) && InRound(s, l, before, c, d) && LetGo(s, d)
    requires s.loop == Top(false) && |s.started| == d.begun && s.opsMap != map[]
    ensures Reachable(j, t) && t.loop == Drain(true) && t.queue == []
    ensures forall x :: Received(t, x) <==> x in d.received
    ensures t.workers == s.workers && t.started == s.started && t.opsMap.Keys == s.opsMap.Keys && Healthy(t)
  {
    t := TopToDrain(j, s);
    ReachableInv(j, s);
    ReceivedNext(j, s, l, before, c, d, t);
    var x := OneMore(c.received, d.received);
    assert !Received(s, x) && Received(t, x);
  }

  lemma EntersRound(j: Job, s: State, l: seq<OpID>, before: set<OpID>, c: Cut, d: Cut, e: Cut, t: State)
    requires Inv(j, s) && InRound(s, l, before, c, d) && s.loop == Top(false)
    requires |s.started| == d.begun <= e.begun <= |l|
    requires t.workers == s.workers && t.started == s.started && t.opsMap.Keys == s.opsMap.Keys && t.queue == []
    requires t.loop.Batch? && Healthy(t) && forall x :: Received(t, x) <==> x in d.received
    ensures InRound(t, l, Ripe(j, c.received), d, e)
  {
    forall x | x in s.opsMap ensures x !in Ripe(j, c.received) { ExecutableIsRipe(j, s, c, x); }
    forall x | x in s.workers ensures x in Ripe(j, c.received) { SubmittedIsRipe(j, s, c, x); }
  }

  /** From the end of one round the loop gets into the next one. */
  lemma NextRound(j: Job, s: State, l: seq<OpID>, before: set<OpID>, c: Cut, d: Cut, e: Cut) returns (t: State)
    requires ValidJob(j) && Reachable(j, s) && Round(j, l, before, c, d) && InRound(s, l, before, c, d) && LetGo(s, d)
    requires s.loop == Top(false) && |s.started| == d.begun <= e.begun <= |l| && s.opsMap != map[]
    ensures Reachable(j, t) && InRound(t, l, Ripe(j, c.received), d, e)
  {
    var u := ReceiveRound(j, s, l, before, c, d);
    Reach(j, u, EndDrain);
    t := Apply(j, u, EndDrain);
    ReachableInv(j, s);
    forall x ensures Received(t, x) <==> x in d.received { assert Received(t, x) <==> Received(u, x); }
    EntersRound(j, s, l, before, c, d, e, t);
  }

  lemma MoreRounds(j: Job, s: State, l: seq<OpID>, before: set<OpID>, d: Cut, rest: seq<Cut>)
    requires ValidJob(j) && Reachable(j, s) && s.opsMap != map[] && d.begun <= |l| && s.started == l[..d.begun]
    requires d.received <= Elems(l[..d.begun]) && Paced(j, l, before, d, rest)
    ensures rest != [] && d.begun <= rest[0].begun <= |l|
  {
    ReachableInv(j, s);
    assert s.opsMap.Keys != {};
    var x :| x in s.opsMap;
    assert x !in s.started;
  }

  lemma IntoNextRound(j: Job, s: State, l: seq<OpID>, before: set<OpID>, c: Cut, d: Cut, rest: seq<Cut>)
      returns (t: State)
    requires ValidJob(j) && Reachable(j, s) && Round(j, l, before, c, d) && InRound(s, l, before, c, d) && LetGo(s, d)
    requires s.loop == Top(false) && |s.started| == d.begun && s.opsMap != map[]
    requires Paced(j, l, Ripe(j, c.received), d, rest)
    ensures rest != [] && Reachable(j, t) && InRound(t, l, Ripe(j, c.received), d, rest[0])
  {
    assert s.started == l[..d.begun];
    MoreRounds(j, s, l, Ripe(j, c.received), d, rest);
    t := NextRound(j, s, l, before, c, d, rest[0]);
  }

  /** Rounds can be executed, one after the other. */
  lemma {:induction false} FollowRounds(j: Job, s: State, l: seq<OpID>, before: set<OpID>, c: Cut, cuts: seq<Cut>)
    requires ValidJob(j) && Reachable(j, s) && Listing(j.ids, l)
    requires cuts != [] && Paced(j, l, before, c, cuts) && InRound(s, l, before, c, cuts[0])
    ensures Produces(j, l)
    decreases |cuts|
  {
    var t := RunRound(j, s, l, before, c, cuts[0]);
    if t.opsMap == map[] {
      FinishFromTop(j, t, l);
    } else {
      var u := IntoNextRound(j, t, l, before, c, cuts[0], cuts[1..]);
      FollowRounds(j, u, l, Ripe(j, c.received), cuts[0], cuts[1..]);
    }
  }

  lemma FirstRound(j: Job, l: seq<OpID>, d: Cut) returns (t: State)
    requires ValidJob(j) && j.ids != {} && d.begun <= |l|
    ensures Reachable(j, t) && InRound(t, l, {}, Cut({}, 0), d)
  {
    var s := Start(j);
    StartReachable(j);
    Reach(j, s, CheckTop);
    t := Apply(j, s, CheckTop);
  }

  lemma PacedIsProduced(j: Job, l: seq<OpID>, cuts: seq<Cut>)
    requires ValidJob(j) && Listing(j.ids, l) && Paced(j, l, {}, Cut({}, 0), cuts)
    ensures Produces(j, l)
  {
    if j.ids == {} {
      StartReachable(j);
      FinishFromTop(j, Start(j), l);
    } else {
      var t := FirstRound(j, l, cuts[0]);
      FollowRounds(j, t, l, {}, Cut({}, 0), cuts);
    }
  }

  // ----- and every successful execution goes in rounds -----

  ghost function Gone(j: Job, s: State): set<OpID> {
    set x | x in j.ids && x !in s.opsMap && x !in s.workers
  }

  /** The execution is in the round that began when the loop had received `c`. */
  ghost predicate Tracks(j: Job, s: State, before: set<OpID>, c: Cut) {
    && before <= j.ids && before !! s.opsMap.Keys
    && (forall x :: x in j.ids && x !in s.opsMap ==> x in Ripe(j, c.received))
    && (forall x :: x in c.received ==> Received(s, x))
    && (s.loop != Drain(true) ==> forall x :: Received(s, x) ==> x in c.received)
    && (s.loop == Drain(true) ==> exists x :: Received(s, x) && x !in c.received)
    && (s.loop.Batch? || s.loop == Top(true) || s.opsMap.Keys !! Ripe(j, c.received))
  }

  /** Whatever has begun in this round found a place. */
  ghost predicate Fitted(j: Job, s: State, l: seq<OpID>, before: set<OpID>, c: Cut) {
    && s.started <= l && c.begun <= |s.started|
    && forall k {:trigger Places(before, l, k, Gone(j, s))} :: c.begun <= k < |s.started| ==>
      |Places(before, l, k, Gone(j, s))| <= j.parallelism
  }

  lemma SameTracks(j: Job, s: State, t: State, before: set<OpID>, c: Cut)
    requires Tracks(j, s, before, c) && t.loop == s.loop && t.opsMap == s.opsMap
    requires forall x :: Received(t, x) <==> Received(s, x)
    ensures Tracks(j, t, before, c)
  {
  }

  lemma WorkerStepTracks(j: Job, s: State, before: set<OpID>, c: Cut, step: Step)
    requires StatusInv(j, s) && Tracks(j, s, before, c) && Enabled(j, s, step) && OfWorker(step)
    ensures Tracks(j, Apply(j, s, step), before, c)
  {
    var t := Apply(j, s, step);
    forall x ensures Received(t, x) <==> Received(s, x) { WorkerStepReceived(j, s, step, x); }
    SameTracks(j, s, t, before, c);
  }

  lemma LoopStepTracks(j: Job, s: State, before: set<OpID>, c: Cut, step: Step)
    requires Inv(j, s) && Tracks(j, s, before, c) && Enabled(j, s, step) && !OfWorker(step)
    requires !step.Receive? && !step.Submit? && !(step.EndDrain? && s.loop.got)
    ensures Tracks(j, Apply(j, s, step), before, c)
  {
    var t := Apply(j, s, step);
    forall x ensures Received(t, x) <==> Received(s, x) { LoopStepReceived(j, s, step, x); }
    if step.EndBatch? {
      forall x | x in s.opsMap ensures x !in Ripe(j, c.received) { ExecutableIsRipe(j, s, c, x); }
    }
  }

  lemma SubmitTracks(j: Job, s: State, before: set<OpID>, c: Cut, op: OpID)
    requires Inv(j, s) && Tracks(j, s, before, c) && Enabled(j, s, Submit(op))
    ensures Tracks(j, Apply(j, s, Submit(op)), before, c)
  {
    var t := Apply(j, s, Submit(op));
    forall x ensures Received(t, x) <==> Received(s, x) { LoopStepReceived(j, s, Submit(op), x); }
    ExecutableIsRipe(j, s, c, op);
  }

  lemma ReceiveTracks(j: Job, s: State, before: set<OpID>, c: Cut)
    requires Inv(j, s) && Tracks(j, s, before, c) && Enabled(j, s, Receive)
    ensures Tracks(j, Apply(j, s, Receive), before, c)
  {
    var t := Apply(j, s, Receive);
    forall x ensures Received(t, x) <==> Received(s, x) || x == s.queue[0] { LoopStepReceived(j, s, Receive, x); }
    assert t.opsMap.Keys == s.opsMap.Keys;
    assert !Received(s, s.queue[0]) && Received(t, s.queue[0]);
  }

  lemma StepTracks(j: Job, s: State, before: set<OpID>, c: Cut, step: Step)
    requires Inv(j, s) && Tracks(j, s, before, c) && Enabled(j, s, step) && !(step.EndDrain? && s.loop.got)
    ensures Tracks(j, Apply(j, s, step), before, c)
  {
    match step
    case Submit(op) => SubmitTracks(j, s, before, c, op);
    case Receive => ReceiveTracks(j, s, before, c);
    case _ =>
      if OfWorker(step) { WorkerStepTracks(j, s, before, c, step); } else { LoopStepTracks(j, s, before, c, step); }
  }

  lemma PlaceIsHeld(j: Job, s: State, l: seq<OpID>, before: set<OpID>, k: nat, x: OpID)
    requires StatusInv(j, s) && StartedInv(j, s) && before <= j.ids && before !! s.opsMap.Keys
    requires k < |l| && s.started == l[..k] && l[k] in s.workers && x in Places(before, l, k, Gone(j, s))
    ensures x in s.workers
  {
    assert l[..k + 1] == s.started + [l[k]];
    assert x == l[k] || x in s.started || x in before;
  }

  /** At the moment an operation begins, all of its `Places` are taken by workers. */
  lemma BeginHolds(j: Job, s: State, l: seq<OpID>, before: set<OpID>, k: nat)
    requires StatusInv(j, s) && StartedInv(j, s) && PoolInv(j, s) && before <= j.ids && before !! s.opsMap.Keys
    requires k < |l| && s.started == l[..k] && l[k] in s.workers
    ensures |Places(before, l, k, Gone(j, s))| <= j.parallelism
  {
    var P := Places(before, l, k, Gone(j, s));
    forall x | x in P ensures x in s.workers { PlaceIsHeld(j, s, l, before, k, x); }
    SubsetSize(P, s.workers.Keys);
  }

  lemma GoneGrows(j: Job, s: State, step: Step)
    requires StatusInv(j, s) && Enabled(j, s, step)
    ensures Gone(j, s) <= Gone(j, Apply(j, s, step))
  {
  }

  lemma PlacesShrink(before: set<OpID>, l: seq<OpID>, k: nat, R: set<OpID>, S: set<OpID>)
    requires k < |l| && R <= S
    ensures |Places(before, l, k, S)| <= |Places(before, l, k, R)|
  {
    SubsetSize(Places(before, l, k, S), Places(before, l, k, R));
  }

  lemma StillFits(limit: nat, l: seq<OpID>, before: set<OpID>, b: nat, n: nat, R: set<OpID>, S: set<OpID>)
    requires n <= |l| && R <= S
    requires forall k {:trigger Places(before, l, k, R)} :: b <= k < n ==> |Places(before, l, k, R)| <= limit
    ensures forall k {:trigger Places(before, l, k, S)} :: b <= k < n ==> |Places(before, l, k, S)| <= limit
  {
    forall k | b <= k < n ensures |Places(before, l, k, S)| <= limit { PlacesShrink(before, l, k, R, S); }
  }

  lemma OneMoreFitted(limit: nat, l: seq<OpID>, before: set<OpID>, b: nat, n: nat, R: set<OpID>)
    requires n < |l| && |Places(before, l, n, R)| <= limit
    requires forall k {:trigger Places(before, l, k, R)} :: b <= k < n ==> |Places(before, l, k, R)| <= limit
    ensures forall k {:trigger Places(before, l, k, R)} :: b <= k < n + 1 ==> |Places(before, l, k, R)| <= limit
  {
  }

  lemma BeginFitted(j: Job, s: State, l: seq<OpID>, before: set<OpID>, c: Cut, op: OpID)
    requires StatusInv(j, s) && StartedInv(j, s) && PoolInv(j, s) && before <= j.ids && before !! s.opsMap.Keys
    requires Fitted(j, s, l, before, c) && Enabled(j, s, Begin(op)) && s.started + [op] <= l
    ensures Fitted(j, Apply(j, s, Begin(op)), l, before, c)
  {
    var t, n := Apply(j, s, Begin(op)), |s.started|;
    assert Gone(j, t) == Gone(j, s) && t.started == s.started + [op] && l[n] == op && s.started == l[..n];
    BeginHolds(j, s, l, before, n);
    OneMoreFitted(j.parallelism, l, before, c.begun, n, Gone(j, s));
  }

  lemma StepFitted(j: Job, s: State, l: seq<OpID>, before: set<OpID>, c: Cut, step: Step)
    requires StatusInv(j, s) && StartedInv(j, s) && PoolInv(j, s) && before <= j.ids && before !! s.opsMap.Keys
    requires Fitted(j, s, l, before, c) && Enabled(j, s, step) && Apply(j, s, step).started <= l
    ensures Fitted(j, Apply(j, s, step), l, before, c)
  {
    var t := Apply(j, s, step);
    if step.Begin? {
      BeginFitted(j, s, l, before, c, step.op);
    } else {
      GoneGrows(j, s, step);
      StillFits(j.parallelism, l, before, c.begun, |s.started|, Gone(j, s), Gone(j, t));
    }
  }

  lemma GoneIsReceived(j: Job, s: State, x: OpID)
    requires Inv(j, s) && Healthy(s) && s.queue == []
    ensures x in Gone(j, s) <==> Received(s, x)
  {
  }

  /** Where the loop stops receiving, one round ends and the next begins. */
  lemma CutHere(j: Job, s: State, l: seq<OpID>, before: set<OpID>, c: Cut, d: Cut)
    requires Inv(j, s) && Healthy(s) && Tracks(j, s, before, c) && Fitted(j, s, l, before, c)
    requires s.loop == Drain(true) && s.queue == [] && d == Cut(Gone(j, s), |s.started|)
    ensures Round(j, l, before, c, d)
  {
    forall x ensures x in d.received <==> Received(s, x) { GoneIsReceived(j, s, x); }
    assert s.started == l[..d.begun];
    CutStrict(s, c, d);
    CutFits(j, s, c, d);
    forall k | c.begun <= k < d.begun ensures |Places(before, l, k, d.received)| <= j.parallelism {
    }
  }

  lemma CutStrict(s: State, c: Cut, d: Cut)
    requires forall x :: x in d.received <==> Received(s, x)
    requires forall x :: x in c.received ==> Received(s, x)
    requires exists x :: Received(s, x) && x !in c.received
    ensures c.received < d.received
  {
    var x :| Received(s, x) && x !in c.received;
    assert x in d.received;
  }

  lemma CutFits(j: Job, s: State, c: Cut, d: Cut)
    requires PoolInv(j, s) && s.opsMap.Keys !! Ripe(j, c.received) && d.received == Gone(j, s)
    ensures |Ripe(j, c.received) - d.received| <= j.parallelism
  {
    SubsetSize(Ripe(j, c.received) - d.received, s.workers.Keys);
  }

  lemma NextTracks(j: Job, s: State, l: seq<OpID>, before: set<OpID>, c: Cut, d: Cut)
    requires Inv(j, s) && Healthy(s) && Tracks(j, s, before, c) && s.started <= l
    requires s.loop == Drain(true) && s.queue == [] && d == Cut(Gone(j, s), |s.started|)
    ensures var t := Apply(j, s, EndDrain);
      Tracks(j, t, Ripe(j, c.received), d) && Fitted(j, t, l, Ripe(j, c.received), d)
  {
    var t := Apply(j, s, EndDrain);
    forall x ensures Received(t, x) <==> x in d.received {
      GoneIsReceived(j, s, x);
      assert Received(t, x) <==> Received(s, x);
    }
    forall x | x in j.ids && x !in s.opsMap ensures x in Ripe(j, d.received) { SubmittedIsRipe(j, s, d, x); }
  }

  lemma LastCut(j: Job, t: State, before: set<OpID>, c: Cut)
    requires Inv(j, t) && t.loop == Returned(true) && Tracks(j, t, before, c) && Fitted(j, t, t.started, before, c)
    requires c.received != j.ids
    ensures Round(j, t.started, before, c, Cut(j.ids, |t.started|))
  {
    var l := t.started;
    assert l[..|l|] == l && Gone(j, t) == j.ids;
    assert Elems(l) == j.ids && j.ids <= Ripe(j, c.received);
    assert Ripe(j, c.received) - j.ids == {};
    assert c.received < j.ids;
    forall k | c.begun <= k < |l| ensures |Places(before, l, k, j.ids)| <= j.parallelism {
      assert |Places(before, l, k, Gone(j, t))| <= j.parallelism;
    }
  }

  lemma {:induction false} HealthyBefore(j: Job, s: State, steps: seq<Step>, t: State)
    requires Inv(j, s) && Run(j, s, steps, t) && Healthy(t)
    ensures Healthy(s)
    decreases |steps|
  {
    if steps != [] {
      StepInv(j, s, steps[0]);
      HealthyBefore(j, Apply(j, s, steps[0]), steps[1..], t);
      StaysUnhealthy(j, s, steps[0]);
    }
  }

  lemma StaysUnhealthy(j: Job, s: State, step: Step)
    requires StatusInv(j, s) && Enabled(j, s, step) && Healthy(Apply(j, s, step))
    ensures Healthy(s)
  {
    var t := Apply(j, s, step);
    forall x | x in s.status ensures s.status[x] != StatusFailed {
      assert x in t.status && t.status[x] != StatusFailed;
    }
  }

  lemma {:induction false} RunIsPaced(j: Job, s: State, steps: seq<Step>, t: State, before: set<OpID>, c: Cut)
      returns (cuts: seq<Cut>)
    requires Inv(j, s) && Run(j, s, steps, t) && t.loop == Returned(true) && Healthy(t)
    requires Tracks(j, s, before, c) && Fitted(j, s, t.started, before, c)
    ensures Paced(j, t.started, before, c, cuts)
    decreases |steps|
  {
    if steps == [] {
      cuts := if c.received == j.ids then [] else [Cut(j.ids, |t.started|)];
      if c.received != j.ids { LastCut(j, t, before, c); }
    } else {
      var step := steps[0];
      var u := Apply(j, s, step);
      StartedGrows(j, u, steps[1..], t);
      StepInv(j, s, step);
      if step.EndDrain? && s.loop.got {
        HealthyBefore(j, s, steps, t);
        var d := Cut(Gone(j, s), |s.started|);
        CutHere(j, s, t.started, before, c, d);
        NextTracks(j, s, t.started, before, c, d);
        var rest := RunIsPaced(j, u, steps[1..], t, Ripe(j, c.received), d);
        cuts := [d] + rest;
        assert cuts[1..] == rest;
      } else {
        StepTracks(j, s, before, c, step);
        StepFitted(j, s, t.started, before, c, step);
        cuts := RunIsPaced(j, u, steps[1..], t, before, c);
      }
    }
  }

  lemma StartTracks(j: Job, l: seq<OpID>)
    requires ValidJob(j)
    ensures Tracks(j, Start(j), {}, Cut({}, 0)) && Fitted(j, Start(j), l, {}, Cut({}, 0))
  {
  }

  lemma RunIsInRounds(j: Job, s: State, steps: seq<Step>, t: State)
    requires Inv(j, s) && Run(j, s, steps, t) && t.loop == Returned(true)
    requires Tracks(j, s, {}, Cut({}, 0)) && Fitted(j, s, t.started, {}, Cut({}, 0))
    ensures InRounds(j, t.started)
  {
    RunInv(j, s, steps, t);
    var cuts := RunIsPaced(j, s, steps, t, {}, Cut({}, 0));
  }

  lemma ProducedIsPaced(j: Job, l: seq<OpID>)
    requires ValidJob(j) && Produces(j, l)
    ensures InRounds(j, l)
  {
    var steps, t :| Run(j, Start(j), steps, t) && t.loop == Returned(true) && t.started == l;
    StartInv(j);
    StartTracks(j, l);
    RunIsInRounds(j, Start(j), steps, t);
  }

  /** Exactly what the executor can produce: the orders that respect precedence and can be begun in
      rounds, each of which finds its places in the pool. */
  lemma ProducesIffInRounds(j: Job, l: seq<OpID>)
    requires ValidJob(j)
    ensures Produces(j, l) <==> StartOrder(j.edges, j.ids, l) && InRounds(j, l)
  {
    if Produces(j, l) {
      ProducedIsStartOrder(j, l);
      ProducedIsPaced(j, l);
    }
    if StartOrder(j.edges, j.ids, l) && InRounds(j, l) {
      StartOrderIffPredsFirst(j.edges, j.ids, l);
      var cuts :| Paced(j, l, {}, Cut({}, 0), cuts);
      PacedIsProduced(j, l, cuts);
    }
  }
}
