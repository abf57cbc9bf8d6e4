/** The plan executor (pkg/plan/plan_execute.go) as a transition system. The scheduling loop, the
    worker goroutines and an outside cancellation interleave freely; an operation's body is
    reduced to taking effect or failing. */
module Scheduler {
  import opened Operations
  import opened Precedence
  import opened GraphRewrites

  /** What is executed: an acyclic graph, and the largest number of concurrent workers. */
  datatype Job = Job(ids: set<OpID>, edges: set<Edge>, parallelism: nat)

  ghost predicate ValidJob(j: Job) {
    Within(j.edges, j.ids) && Acyclic(j.edges) && j.parallelism > 0
  }

  /** Life of a submitted operation, which holds a place in the pool: it has yet to begin, runs,
      and then either takes effect, is marked completed and queued, or has its error raised. */
  datatype Worker = Submitted | Executing | Effective | Succeeded | Erred

  /** Where the scheduling loop is. */
  datatype Loop =
    | Top(first: bool)              // loop head
    | Drain(got: bool)              // receiving completions
    | Batch(todo: set<OpID>)        // submitting what became executable
    | Waiting                       // waiting for the pool
    | Returned(succeeded: bool)

  datatype State = State(
    opsMap: map<OpID, set<OpID>>,   // unscheduled operations, with predecessors not yet received
    workers: map<OpID, Worker>,
    queue: seq<OpID>,               // completions not yet received
    status: map<OpID, Status>,
    cancelled: bool,
    poolErr: bool,
    loop: Loop,
    started: seq<OpID>,             // operations in the order they began
    applied: seq<OpID>,             // operations in the order they took effect
    finished: seq<OpID>)            // operations in the order they completed

  datatype Step =
    | CheckTop | Receive | EndDrain | Submit(op: OpID) | EndBatch | PoolDone
    | Begin(op: OpID) | TakeEffect(op: OpID) | Complete(op: OpID) | Fail(op: OpID)
    | Push(op: OpID) | Raise(op: OpID) | ExternalCancel

  /** A step of a worker, not of the loop or from outside. */
  ghost predicate OfWorker(step: Step) {
    step.Begin? || step.TakeEffect? || step.Complete? || step.Fail? || step.Push? || step.Raise?
  }

  ghost function Start(j: Job): State {
    State(map x | x in j.ids :: Preds(j.edges, x), map[], [], map x | x in j.ids :: StatusUnknown,
          false, false, Top(true), [], [], [])
  }

  ghost function Executable(opsMap: map<OpID, set<OpID>>): set<OpID> {
    set x | x in opsMap && opsMap[x] == {}
  }

  ghost predicate Enabled(j: Job, s: State, step: Step) {
    match step
    case CheckTop => s.loop.Top?
    case Receive => s.loop.Drain? && s.queue != []
    case EndDrain => s.loop.Drain? && s.queue == []
    case Submit(op) => s.loop.Batch? && op in s.loop.todo && op in s.opsMap && |s.workers.Keys| < j.parallelism
    case EndBatch => s.loop.Batch? && s.loop.todo == {}
    case PoolDone => s.loop.Waiting? && s.workers == map[]
    case Begin(op) => op in s.workers && s.workers[op] == Submitted
    case TakeEffect(op) => op in s.workers && s.workers[op] == Executing
    case Complete(op) => op in s.workers && s.workers[op] == Effective
    case Fail(op) => op in s.workers && s.workers[op] == Executing
    case Push(op) => op in s.workers && s.workers[op] == Succeeded
    case Raise(op) => op in s.workers && s.workers[op] == Erred
    case ExternalCancel => !s.loop.Returned? && !s.cancelled
  }

  ghost function WorkerStatus(w: Worker): Status {
    match w
    case Submitted => StatusUnknown
    case Executing => StatusPending
    case Effective => StatusPending
    case Succeeded => StatusCompleted
    case Erred => StatusFailed
  }

  /** The worker of `op` moves on, and the status reported for `op` with it. */
  ghost function Move(s: State, op: OpID, w: Worker): State {
    s.(workers := s.workers[op := w], status := s.status[op := WorkerStatus(w)])
  }

  ghost function Apply(j: Job, s: State, step: Step): State
    requires Enabled(j, s, step)
  {
    match step
    case CheckTop =>
      s.(loop := if s.opsMap == map[] then Waiting
                 else if s.loop.first then Batch(Executable(s.opsMap))
                 else if s.cancelled then Waiting
                 else Drain(false))
    case Receive =>
      s.(queue := s.queue[1..], loop := Drain(true),
         opsMap := map x | x in s.opsMap :: s.opsMap[x] - {s.queue[0]})
    case EndDrain => s.(loop := if s.loop.got then Batch(Executable(s.opsMap)) else Top(false))
    case Submit(op) =>
      s.(opsMap := s.opsMap - {op}, workers := s.workers[op := Submitted], loop := Batch(s.loop.todo - {op}))
    case EndBatch => s.(loop := Top(false))
    case PoolDone => s.(loop := Returned(!s.poolErr && !s.cancelled))
    case Begin(op) => Move(s, op, Executing).(started := s.started + [op])
    case TakeEffect(op) => Move(s, op, Effective).(applied := s.applied + [op])
    case Complete(op) => Move(s, op, Succeeded).(finished := s.finished + [op])
    case Fail(op) => Move(s, op, Erred)
    case Push(op) => s.(workers := s.workers - {op}, queue := s.queue + [op])
    case Raise(op) => s.(workers := s.workers - {op}, cancelled := true, poolErr := true)
    case ExternalCancel => s.(cancelled := true)
  }

  /** `t` is the state after taking `steps` from `s`, each of them enabled. */
  ghost predicate Run(j: Job, s: State, steps: seq<Step>, t: State)
    decreases |steps|
  {
    if steps == [] then s == t
    else Enabled(j, s, steps[0]) && Run(j, Apply(j, s, steps[0]), steps[1..], t)
  }

  ghost predicate Reachable(j: Job, t: State) {
    exists steps :: Run(j, Start(j), steps, t)
  }

  // ----- the inductive invariant, in six parts -----

  /** An operation is in exactly one place, and its status says where it has got to. */
  ghost predicate StatusInv(j: Job, s: State) {
    && s.status.Keys == j.ids
    && s.opsMap.Keys <= j.ids && s.workers.Keys <= j.ids && s.opsMap.Keys !! s.workers.Keys
    && (forall x :: x in s.opsMap ==> s.status[x] == StatusUnknown)
    && (forall x :: x in s.workers ==> s.status[x] == WorkerStatus(s.workers[x]))
    && (forall x :: x in j.ids && x !in s.opsMap && x !in s.workers ==> s.status[x] in {StatusCompleted, StatusFailed})
  }

  ghost predicate QueueInv(j: Job, s: State) {
    && (forall i, k :: 0 <= i < k < |s.queue| ==> s.queue[i] != s.queue[k])
    && (forall x :: x in s.queue ==>
      x in s.status && x !in s.opsMap && x !in s.workers && s.status[x] == StatusCompleted)
  }

  /** The loop has learnt of the completion of `x`. */
  ghost predicate Received(s: State, x: OpID) {
    x in s.status && s.status[x] == StatusCompleted && x !in s.workers && x !in s.queue
  }

  /** The loop's predecessor sets are exact, and an operation leaves them only when all its
      predecessors have been received. */
  ghost predicate PredInv(j: Job, s: State) {
    && (forall x, p :: x in s.opsMap ==> (p in s.opsMap[x] <==> (p, x) in j.edges && !Received(s, p)))
    && (forall x, p :: x in j.ids && x !in s.opsMap && (p, x) in j.edges ==> Received(s, p))
  }

  ghost predicate LoopInv(s: State) {
    && (forall x :: x in s.status && s.status[x] == StatusFailed && x !in s.workers ==> s.poolErr)
    && (s.poolErr ==> s.cancelled)
    && match s.loop
       case Top(first) => !first ==> Executable(s.opsMap) == {}
       case Drain(got) => !got ==> Executable(s.opsMap) == {}
       case Batch(todo) => todo == Executable(s.opsMap)
       case Waiting => s.opsMap == map[] || s.cancelled
       case Returned(succeeded) =>
         s.workers == map[] && succeeded == (!s.poolErr && !s.cancelled) && (succeeded ==> s.opsMap == map[])
  }

  /** `q` lists each of its members after all the members' predecessors. */
  ghost predicate PredsFirst(E: set<Edge>, q: seq<OpID>) {
    forall i, p :: 0 <= i < |q| && (p, q[i]) in E ==> p in q[..i]
  }

  /** The effect of `x` has happened. */
  ghost predicate InEffect(s: State, x: OpID) {
    x in s.status && (s.status[x] == StatusCompleted || (x in s.workers && s.workers[x] == Effective))
  }

  ghost predicate StartedInv(j: Job, s: State) {
    && NoDuplicates(s.started) && PredsFirst(j.edges, s.started)
    && forall x :: x in s.started <==> x in s.status && s.status[x] != StatusUnknown
  }

  ghost predicate AppliedInv(j: Job, s: State) {
    && NoDuplicates(s.applied) && PredsFirst(j.edges, s.applied)
    && forall x :: x in s.applied <==> InEffect(s, x)
  }

  ghost predicate FinishedInv(j: Job, s: State) {
    && NoDuplicates(s.finished) && PredsFirst(j.edges, s.finished)
    && forall x :: x in s.finished <==> x in s.status && s.status[x] == StatusCompleted
  }

  /** Each log lists its operations once, and after their predecessors. */
  ghost predicate LogInv(j: Job, s: State) {
    StartedInv(j, s) && AppliedInv(j, s) && FinishedInv(j, s)
  }

  /** The pool is never over its limit. */
  ghost predicate PoolInv(j: Job, s: State) {
    |s.workers.Keys| <= j.parallelism
  }

  ghost predicate Inv(j: Job, s: State) {
    StatusInv(j, s) && QueueInv(j, s) && PredInv(j, s) && LoopInv(s) && LogInv(j, s) && PoolInv(j, s)
  }

  lemma StartInv(j: Job)
    requires ValidJob(j)
    ensures Inv(j, Start(j))
  {
    forall x, p | x in j.ids ensures p in Preds(j.edges, x) <==> (p, x) in j.edges {
      if (p, x) in j.edges { assert (p, x).0 == p; }
    }
  }

  lemma MoveStatus(j: Job, s: State, op: OpID, w: Worker, t: State)
    requires StatusInv(j, s) && op in s.workers && t.opsMap == s.opsMap
    requires t.workers == s.workers[op := w] && t.status == s.status[op := WorkerStatus(w)]
    ensures StatusInv(j, t)
  {
  }

  lemma LeaveStatus(j: Job, s: State, op: OpID, t: State)
    requires StatusInv(j, s) && op in s.workers && s.workers[op] in {Succeeded, Erred}
    requires t.opsMap == s.opsMap && t.workers == s.workers - {op} && t.status == s.status
    ensures StatusInv(j, t)
  {
  }

  lemma SameStatus(j: Job, s: State, t: State)
    requires StatusInv(j, s) && t.opsMap.Keys == s.opsMap.Keys && t.workers == s.workers && t.status == s.status
    ensures StatusInv(j, t)
  {
  }

  lemma StepStatus(j: Job, s: State, step: Step)
    requires StatusInv(j, s) && Enabled(j, s, step)
    ensures StatusInv(j, Apply(j, s, step))
  {
    var t := Apply(j, s, step);
    match step
    case Submit(op) =>
    case Begin(op) => MoveStatus(j, s, op, Executing, t);
    case TakeEffect(op) => MoveStatus(j, s, op, Effective, t);
    case Complete(op) => MoveStatus(j, s, op, Succeeded, t);
    case Fail(op) => MoveStatus(j, s, op, Erred, t);
    case Push(op) => LeaveStatus(j, s, op, t);
    case Raise(op) => LeaveStatus(j, s, op, t);
    case _ => SameStatus(j, s, t);
  }

  lemma LoopStepQueue(j: Job, s: State, step: Step)
    requires StatusInv(j, s) && QueueInv(j, s) && Enabled(j, s, step) && !OfWorker(step)
    ensures QueueInv(j, Apply(j, s, step))
  {
  }

  lemma WorkerStepQueue(j: Job, s: State, step: Step)
    requires StatusInv(j, s) && QueueInv(j, s) && Enabled(j, s, step) && OfWorker(step)
    ensures QueueInv(j, Apply(j, s, step))
  {
  }

  lemma LoopStepReceived(j: Job, s: State, step: Step, x: OpID)
    requires StatusInv(j, s) && QueueInv(j, s) && Enabled(j, s, step) && !OfWorker(step)
    ensures Received(Apply(j, s, step), x) <==> Received(s, x) || (step.Receive? && x == s.queue[0])
  {
    if step.Receive? { assert s.queue == [s.queue[0]] + s.queue[1..]; }
  }

  lemma WorkerStepReceived(j: Job, s: State, step: Step, x: OpID)
    requires StatusInv(j, s) && Enabled(j, s, step) && OfWorker(step)
    ensures Received(Apply(j, s, step), x) <==> Received(s, x)
  {
  }

  lemma SamePreds(j: Job, s: State, t: State)
    requires PredInv(j, s) && t.opsMap == s.opsMap && forall x :: Received(t, x) <==> Received(s, x)
    ensures PredInv(j, t)
  {
  }

  lemma StepPred(j: Job, s: State, step: Step)
    requires StatusInv(j, s) && QueueInv(j, s) && PredInv(j, s) && LoopInv(s) && Enabled(j, s, step)
    ensures PredInv(j, Apply(j, s, step))
  {
    var t := Apply(j, s, step);
    forall x ensures Received(t, x) <==> Received(s, x) || (step.Receive? && x == s.queue[0]) {
      if OfWorker(step) { WorkerStepReceived(j, s, step, x); } else { LoopStepReceived(j, s, step, x); }
    }
    if !step.Receive? && !step.Submit? { SamePreds(j, s, t); }
  }

  lemma LoopStepLoop(j: Job, s: State, step: Step)
    requires StatusInv(j, s) && LoopInv(s) && Enabled(j, s, step) && !OfWorker(step)
    ensures LoopInv(Apply(j, s, step))
  {
  }

  lemma WorkerStepLoop(j: Job, s: State, step: Step)
    requires StatusInv(j, s) && LoopInv(s) && Enabled(j, s, step) && OfWorker(step)
    ensures LoopInv(Apply(j, s, step))
  {
  }

  lemma Append(E: set<Edge>, q: seq<OpID>, x: OpID)
    requires NoDuplicates(q) && PredsFirst(E, q) && x !in q
    requires forall p :: (p, x) in E ==> p in q
    ensures NoDuplicates(q + [x]) && PredsFirst(E, q + [x])
  {
    forall i, p | 0 <= i < |q + [x]| && (p, (q + [x])[i]) in E ensures p in (q + [x])[..i] {
      assert (q + [x])[..i] == q[..i];
      if i == |q| { assert q[..i] == q; }
    }
  }

  lemma StepStarted(j: Job, s: State, step: Step)
    requires StatusInv(j, s) && PredInv(j, s) && StartedInv(j, s) && Enabled(j, s, step)
    ensures StartedInv(j, Apply(j, s, step))
  {
    if step.Begin? { Append(j.edges, s.started, step.op); }
  }

  lemma LoopStepEffect(j: Job, s: State, step: Step, x: OpID)
    requires StatusInv(j, s) && Enabled(j, s, step) && !OfWorker(step)
    ensures InEffect(Apply(j, s, step), x) <==> InEffect(s, x)
  {
  }

  lemma WorkerStepEffect(j: Job, s: State, step: Step, x: OpID)
    requires StatusInv(j, s) && Enabled(j, s, step) && OfWorker(step)
    ensures InEffect(Apply(j, s, step), x) <==> InEffect(s, x) || (step.TakeEffect? && x == step.op)
  {
  }

  lemma AppliedFrom(j: Job, s: State, t: State)
    requires AppliedInv(j, s) && t.applied == s.applied && forall x :: InEffect(t, x) <==> InEffect(s, x)
    ensures AppliedInv(j, t)
  {
  }

  lemma StepApplied(j: Job, s: State, step: Step)
    requires StatusInv(j, s) && PredInv(j, s) && AppliedInv(j, s) && Enabled(j, s, step)
    ensures AppliedInv(j, Apply(j, s, step))
  {
    var t := Apply(j, s, step);
    forall x ensures InEffect(t, x) <==> InEffect(s, x) || (step.TakeEffect? && x == step.op) {
      if OfWorker(step) { WorkerStepEffect(j, s, step, x); } else { LoopStepEffect(j, s, step, x); }
    }
    if step.TakeEffect? {
      Append(j.edges, s.applied, step.op);
    } else {
      AppliedFrom(j, s, t);
    }
  }

  lemma StepFinished(j: Job, s: State, step: Step)
    requires StatusInv(j, s) && PredInv(j, s) && FinishedInv(j, s) && Enabled(j, s, step)
    ensures FinishedInv(j, Apply(j, s, step))
  {
    if step.Complete? { Append(j.edges, s.finished, step.op); }
  }

  lemma StepPool(j: Job, s: State, step: Step)
    requires PoolInv(j, s) && Enabled(j, s, step)
    ensures PoolInv(j, Apply(j, s, step))
  {
    var V, W := s.workers.Keys, Apply(j, s, step).workers.Keys;
    if step.Submit? {
      assert W == V + {step.op};
    } else {
      assert W <= V;
      SubsetSize(W, V);
    }
  }

  lemma StepInv(j: Job, s: State, step: Step)
    requires Inv(j, s) && Enabled(j, s, step)
    ensures Inv(j, Apply(j, s, step))
  {
    StepStatus(j, s, step);
    if OfWorker(step) {
      WorkerStepQueue(j, s, step);
      WorkerStepLoop(j, s, step);
    } else {
      LoopStepQueue(j, s, step);
      LoopStepLoop(j, s, step);
    }
    StepPred(j, s, step);
    StepStarted(j, s, step);
    StepApplied(j, s, step);
    StepFinished(j, s, step);
    StepPool(j, s, step);
  }

  lemma {:induction false} RunInv(j: Job, s: State, steps: seq<Step>, t: State)
    requires Inv(j, s) && Run(j, s, steps, t)
    ensures Inv(j, t)
    decreases |steps|
  {
    if steps != [] {
      StepInv(j, s, steps[0]);
      RunInv(j, Apply(j, s, steps[0]), steps[1..], t);
    }
  }

  lemma ReachableInv(j: Job, t: State)
    requires ValidJob(j) && Reachable(j, t)
    ensures Inv(j, t)
  {
    var steps :| Run(j, Start(j), steps, t);
    StartInv(j);
    RunInv(j, Start(j), steps, t);
  }

  // ----- safety -----

  lemma {:induction false} BegunAncestors(j: Job, s: State, a: OpID, x: OpID, n: nat)
    requires ValidJob(j) && Inv(j, s) && x in j.ids && Walk(j.edges, a, x, n)
    requires s.status[x] != StatusUnknown || x !in s.opsMap
    ensures a in j.ids && Received(s, a)
    decreases n
  {
    if n > 1 {
      var c :| (a, c) in j.edges && Walk(j.edges, c, x, n - 1);
      BegunAncestors(j, s, c, x, n - 1);
    }
  }

  /** In every interleaving: an operation begins at most once, and only after everything that
      precedes it has completed; nothing that comes after a failed operation ever begins; and
      the completed operations are closed under predecessors. */
  lemma SchedulerSafety(j: Job, s: State)
    requires ValidJob(j) && Reachable(j, s)
    ensures s.status.Keys == j.ids && NoDuplicates(s.started)
    ensures forall x :: x in s.started <==> x in j.ids && s.status[x] != StatusUnknown
    ensures forall a, x :: x in j.ids && Precedes(j.edges, a, x) && s.status[x] != StatusUnknown ==>
      a in j.ids && s.status[a] == StatusCompleted
    ensures forall x, d :: x in j.ids && d in j.ids && s.status[x] == StatusFailed && Precedes(j.edges, x, d) ==>
      s.status[d] == StatusUnknown && d !in s.workers
  {
    ReachableInv(j, s);
    forall a, x | x in j.ids && Precedes(j.edges, a, x) && (s.status[x] != StatusUnknown || x !in s.opsMap)
      ensures a in j.ids && s.status[a] == StatusCompleted
    {
      var n: nat :| Walk(j.edges, a, x, n);
      BegunAncestors(j, s, a, x, n);
    }
  }

  /** A successful return means that everything completed, and began, took effect and completed in
      an order that respects the plan. */
  lemma SuccessMeansAllCompleted(j: Job, s: State)
    requires ValidJob(j) && Reachable(j, s) && s.loop == Returned(true)
    ensures s.status.Keys == j.ids && forall x :: x in j.ids ==> s.status[x] == StatusCompleted
    ensures NoDuplicates(s.started) && (forall x :: x in s.started <==> x in j.ids) && PredsFirst(j.edges, s.started)
    ensures NoDuplicates(s.applied) && (forall x :: x in s.applied <==> x in j.ids) && PredsFirst(j.edges, s.applied)
    ensures NoDuplicates(s.finished) && (forall x :: x in s.finished <==> x in j.ids) && PredsFirst(j.edges, s.finished)
  {
    ReachableInv(j, s);
  }

  /** The loop will not submit anything any more. */
  ghost predicate Closing(s: State) {
    s.cancelled && (s.loop == Top(false) || s.loop.Waiting? || s.loop.Returned?)
  }

  lemma ClosingStep(j: Job, s: State, step: Step)
    requires Closing(s) && Enabled(j, s, step)
    ensures Closing(Apply(j, s, step)) && Apply(j, s, step).opsMap == s.opsMap
  {
  }

  lemma UnscheduledNotBegun(j: Job, s: State)
    requires StatusInv(j, s) && StartedInv(j, s)
    ensures forall x :: x in s.opsMap ==> x !in s.started
  {
  }

  /** After a cancellation or a failure, once the loop has finished the batch it is at, nothing is
      submitted any more: what is unscheduled stays so and never begins. */
  lemma {:induction false} ClosingSubmitsNothing(j: Job, s: State, steps: seq<Step>, t: State)
    requires Inv(j, s) && Closing(s) && Run(j, s, steps, t)
    ensures Closing(t) && t.opsMap == s.opsMap && forall x :: x in s.opsMap ==> x !in t.started
    decreases |steps|
  {
    if steps == [] {
      UnscheduledNotBegun(j, s);
    } else {
      StepInv(j, s, steps[0]);
      ClosingStep(j, s, steps[0]);
      ClosingSubmitsNothing(j, Apply(j, s, steps[0]), steps[1..], t);
    }
  }

  // ----- liveness -----

  /** A non-empty set of operations has one that no other member precedes. */
  lemma {:induction false} MinimalElement(E: set<Edge>, S: set<OpID>) returns (m: OpID)
    requires Acyclic(E) && S != {}
    ensures m in S && forall y :: y in S ==> !Precedes(E, y, m)
    decreases |S|
  {
    var x :| x in S;
    var rest := S - {x};
    assert forall y :: y in S ==> y == x || y in rest;
    if rest == {} {
      m := x;
    } else {
      var m' := MinimalElement(E, rest);
      if Precedes(E, x, m') {
        m := x;
        forall y | y in S ensures !Precedes(E, y, x) {
          if Precedes(E, y, x) { PrecedesTrans(E, y, x, m'); }
        }
      } else {
        m := m';
      }
    }
  }

  /** While operations are unscheduled and nothing was cancelled, one of them is executable, or a
      completion is queued, or a worker is in flight. */
  lemma NoDeadlock(j: Job, s: State)
    requires ValidJob(j) && Inv(j, s) && s.opsMap != map[] && !s.cancelled
    ensures Executable(s.opsMap) != {} || s.queue != [] || s.workers != map[]
  {
    assert s.opsMap.Keys != {};
    var m := MinimalElement(j.edges, s.opsMap.Keys);
    if s.opsMap[m] == {} {
      assert m in Executable(s.opsMap);
    } else {
      var p :| p in s.opsMap[m];
      EdgePrecedes(j.edges, p, m);
      assert p !in s.opsMap;
      assert p in j.ids && !Received(s, p);
    }
  }

  ghost function InPhase(s: State, w: Worker): set<OpID> {
    set x | x in s.workers && s.workers[x] == w
  }

  ghost function LoopRank(s: State): nat {
    match s.loop
    case Returned(_) => 0
    case Waiting => 1
    case Drain(_) => if s.queue != [] then 2 else 5
    case Top(first) => if first then 6 else 3
    case Batch(_) => 4
  }

  /** The loop polls: nothing to receive, something still unscheduled. */
  ghost predicate Idles(s: State, step: Step) {
    step.CheckTop? && s.loop == Top(false) && s.opsMap != map[] && !s.cancelled && s.queue == []
  }

  /** Every step but polling moves a well-founded measure down, so between polls an execution
      takes finitely many steps; and the loop polls only while a worker is in flight. */
  lemma StepsTerminate(j: Job, s: State, step: Step)
    requires ValidJob(j) && Inv(j, s) && Enabled(j, s, step)
    ensures Idles(s, step) ==> s.workers != map[]
    ensures !Idles(s, step) ==>
      var t := Apply(j, s, step);
      (!s.cancelled, s.opsMap.Keys, InPhase(s, Submitted), InPhase(s, Executing), InPhase(s, Effective), s.workers.Keys,
       |s.queue|, LoopRank(s)
        decreases to
       !t.cancelled, t.opsMap.Keys, InPhase(t, Submitted), InPhase(t, Executing), InPhase(t, Effective), t.workers.Keys,
       |t.queue|, LoopRank(t))
  {
    if Idles(s, step) {
      NoDeadlock(j, s);
    } else {
      var t := Apply(j, s, step);
      match step
      case Submit(op) => assert op in s.opsMap.Keys && t.opsMap.Keys == s.opsMap.Keys - {op};
      case Begin(op) => assert op in InPhase(s, Submitted) && InPhase(t, Submitted) == InPhase(s, Submitted) - {op};
      case TakeEffect(op) => Runs(s, t, op);
      case Complete(op) => Runs(s, t, op);
      case Fail(op) => Runs(s, t, op);
      case Push(op) => Ends(s, t, op);
      case Raise(op) => Ends(s, t, op);
      case _ => assert t.opsMap.Keys == s.opsMap.Keys && forall w :: InPhase(t, w) == InPhase(s, w);
    }
  }

  lemma Runs(s: State, t: State, op: OpID)
    requires op in s.workers && s.workers[op] in {Executing, Effective}
    requires op in t.workers && t.workers == s.workers[op := t.workers[op]]
    requires t.workers[op] in {Succeeded, Erred} || (s.workers[op] == Executing && t.workers[op] == Effective)
    ensures InPhase(t, Submitted) == InPhase(s, Submitted)
    ensures s.workers[op] == Executing ==> InPhase(t, Executing) < InPhase(s, Executing)
    ensures s.workers[op] == Effective ==>
      InPhase(t, Executing) == InPhase(s, Executing) && InPhase(t, Effective) < InPhase(s, Effective)
  {
    var w := s.workers[op];
    assert op in InPhase(s, w) && op !in InPhase(t, w);
  }

  lemma Ends(s: State, t: State, op: OpID)
    requires op in s.workers && s.workers[op] in {Succeeded, Erred} && t.workers == s.workers - {op}
    ensures InPhase(t, Submitted) == InPhase(s, Submitted) && InPhase(t, Executing) == InPhase(s, Executing)
    ensures InPhase(t, Effective) == InPhase(s, Effective) && t.workers.Keys < s.workers.Keys
  {
  }

  /** Nothing has failed and nothing was cancelled. */
  ghost predicate Healthy(s: State) {
    !s.cancelled && forall x :: x in s.status ==> s.status[x] != StatusFailed
  }

  /** How a worker goes on when it does not fail. */
  ghost function WorkerStep(op: OpID, w: Worker): Step {
    match w
    case Submitted => Begin(op)
    case Executing => TakeEffect(op)
    case Effective => Complete(op)
    case Succeeded => Push(op)
    case Erred => Raise(op)
  }

  /** Some step other than polling, failing or cancelling is always possible until the return. */
  lemma NextStep(j: Job, s: State) returns (step: Step)
    requires ValidJob(j) && Inv(j, s) && !s.loop.Returned?
    ensures Enabled(j, s, step) && !Idles(s, step) && !step.Fail? && !step.ExternalCancel?
  {
    if op :| op in s.workers {
      step := WorkerStep(op, s.workers[op]);
    } else {
      assert s.workers == map[];
      match s.loop
      case Top(_) => step := CheckTop; StepsTerminate(j, s, step);
      case Drain(_) => step := if s.queue != [] then Receive else EndDrain;
      case Batch(todo) =>
        if op :| op in todo { step := Submit(op); } else { step := EndBatch; }
      case Waiting => step := PoolDone;
    }
  }

  /** Only a failure or a cancellation makes an execution unhealthy. */
  lemma StaysHealthy(j: Job, s: State, step: Step)
    requires StatusInv(j, s) && Enabled(j, s, step) && !step.Fail? && !step.ExternalCancel?
    ensures Healthy(s) ==> Healthy(Apply(j, s, step))
  {
  }

  lemma FirstOfRun(j: Job, s: State, step: Step, rest: seq<Step>, t: State)
    requires Enabled(j, s, step) && Run(j, Apply(j, s, step), rest, t)
    ensures Run(j, s, [step] + rest, t)
  {
    assert ([step] + rest)[1..] == rest;
  }

  /** The executor is never stuck: from every reachable state it can run to its return, and to a
      successful one if nothing has failed or been cancelled so far. */
  lemma CanAlwaysFinish(j: Job, s: State) returns (steps: seq<Step>, t: State)
    requires ValidJob(j) && Inv(j, s)
    ensures Run(j, s, steps, t) && t.loop.Returned?
    ensures Healthy(s) ==> t.loop.succeeded
    decreases !s.cancelled, s.opsMap.Keys, InPhase(s, Submitted), InPhase(s, Executing), InPhase(s, Effective),
      s.workers.Keys, |s.queue|, LoopRank(s)
  {
    if s.loop.Returned? {
      return [], s;
    }
    var step := NextStep(j, s);
    StepsTerminate(j, s, step);
    StepInv(j, s, step);
    StaysHealthy(j, s, step);
    var rest;
    rest, t := CanAlwaysFinish(j, Apply(j, s, step));
    steps := [step] + rest;
    FirstOfRun(j, s, step, rest, t);
  }

  // ----- and it can always fail -----

  lemma StaysFailed(j: Job, s: State, step: Step, op: OpID)
    requires StatusInv(j, s) && Enabled(j, s, step) && op in s.status && s.status[op] == StatusFailed
    ensures op in Apply(j, s, step).status && Apply(j, s, step).status[op] == StatusFailed
  {
  }

  lemma {:induction false} RunStaysFailed(j: Job, s: State, steps: seq<Step>, t: State, op: OpID)
    requires Inv(j, s) && Run(j, s, steps, t) && op in s.status && s.status[op] == StatusFailed
    ensures op in t.status && t.status[op] == StatusFailed
    decreases |steps|
  {
    if steps != [] {
      StepInv(j, s, steps[0]);
      StaysFailed(j, s, steps[0], op);
      RunStaysFailed(j, Apply(j, s, steps[0]), steps[1..], t, op);
    }
  }

  lemma FailedReturn(j: Job, t: State, op: OpID)
    requires StatusInv(j, t) && LoopInv(t) && t.loop.Returned?
    requires t.cancelled || (op in t.status && t.status[op] == StatusFailed)
    ensures t.loop == Returned(false)
  {
  }

  lemma FailOne(j: Job, s: State, op: OpID) returns (u: State)
    requires Inv(j, s) && op in s.workers && s.workers[op] == Executing
    ensures Enabled(j, s, Fail(op)) && u == Apply(j, s, Fail(op))
    ensures Inv(j, u) && op in u.status && u.status[op] == StatusFailed
  {
    u := Apply(j, s, Fail(op));
    StepInv(j, s, Fail(op));
  }

  lemma FailedFinish(j: Job, u: State, op: OpID) returns (steps: seq<Step>, t: State)
    requires ValidJob(j) && Inv(j, u) && op in u.status && u.status[op] == StatusFailed
    ensures Run(j, u, steps, t) && t.loop == Returned(false) && op in t.status && t.status[op] == StatusFailed
  {
    steps, t := CanAlwaysFinish(j, u);
    RunStaysFailed(j, u, steps, t, op);
    RunInv(j, u, steps, t);
    FailedReturn(j, t, op);
  }

  /** Whatever runs can fail, and then execution returns an error. */
  lemma CanFail(j: Job, s: State, op: OpID) returns (steps: seq<Step>, t: State)
    requires ValidJob(j) && Inv(j, s) && op in s.workers && s.workers[op] == Executing
    ensures Run(j, s, steps, t) && t.loop == Returned(false) && op in t.status && t.status[op] == StatusFailed
  {
    var u := FailOne(j, s, op);
    var rest;
    rest, t := FailedFinish(j, u, op);
    steps := [Fail(op)] + rest;
    FirstOfRun(j, s, Fail(op), rest, t);
  }

  lemma {:induction false} RunStaysCancelled(j: Job, s: State, steps: seq<Step>, t: State)
    requires Run(j, s, steps, t) && s.cancelled
    ensures t.cancelled
    decreases |steps|
  {
    if steps != [] { RunStaysCancelled(j, Apply(j, s, steps[0]), steps[1..], t); }
  }

  lemma CancelledFinish(j: Job, u: State) returns (steps: seq<Step>, t: State)
    requires ValidJob(j) && Inv(j, u) && u.cancelled
    ensures Run(j, u, steps, t) && t.loop == Returned(false)
  {
    steps, t := CanAlwaysFinish(j, u);
    RunStaysCancelled(j, u, steps, t);
    RunInv(j, u, steps, t);
  }

  /** Execution can be cancelled at any moment until its return, and then returns an error. */
  lemma CanBeCancelled(j: Job, s: State) returns (steps: seq<Step>, t: State)
    requires ValidJob(j) && Inv(j, s) && !s.loop.Returned? && !s.cancelled
    ensures Run(j, s, [ExternalCancel] + steps, t) && t.loop == Returned(false)
  {
    StepInv(j, s, ExternalCancel);
    steps, t := CancelledFinish(j, Apply(j, s, ExternalCancel));
    FirstOfRun(j, s, ExternalCancel, steps, t);
  }
}
