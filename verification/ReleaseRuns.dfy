/** What executing a plan does to the release history, in every order the plan allows
    (pkg/plan/plan_build.go, pkg/plan/plan_execute.go, pkg/release/history.go). */
module ReleaseRuns {
  import opened Operations
  import opened ReleaseInfo
  import opened PlanRequest
  import opened History

  /** The history after the first `n` of the operations `l` have taken effect, one at a time under
      the history's lock; `None` if one of them was impossible. */
  ghost function HistoryAfter(h: seq<Release>, ops: map<OpID, Operation>, l: seq<OpID>, n: nat): Option<seq<Release>>
    requires n <= |l|
  {
    if n == 0 then Some(h) else
    match HistoryAfter(h, ops, l, n - 1)
    case None => None
    case Some(g) => if l[n - 1] in ops then Effect(g, ops[l[n - 1]]) else Some(g)
  }

  ghost predicate Creates(i: ReleaseInfo) {
    InitReleaseOp(i).Some? && InitReleaseOp(i).value.typ == TypeCreateRelease
  }

  /** The infos are about this history: one new revision at most, newer than all others. */
  ghost predicate Fits(rel: seq<ReleaseInfo>, h: seq<Release>) {
    && Increasing(h) && DistinctRevisions(rel)
    && (forall i :: 0 <= i < |rel| && Creates(rel[i]) ==> forall k :: 0 <= k < |h| ==>
      h[k].version < rel[i].rel.version)
    && (forall i :: 0 <= i < |rel| && !Creates(rel[i]) ==> Lookup(h, rel[i].rel.version).Some?)
    && (forall i, k :: 0 <= i < k < |rel| ==> !(Creates(rel[i]) && Creates(rel[k])))
  }

  /** The status of a revision, given which of its operations have taken effect. */
  ghost function InfoStatus(i: ReleaseInfo, done: set<OpID>, was: Option<ReleaseStatus>): Option<ReleaseStatus> {
    if FinalReleaseOp(i).ID() in done then StatusGiven(FinalReleaseOp(i))
    else if InitReleaseOp(i).Some? && InitReleaseOp(i).value.ID() in done then StatusGiven(InitReleaseOp(i).value)
    else was
  }

  /** `h` is what becomes of `h0` when exactly the operations in `done` have taken effect. */
  ghost predicate StateFor(rel: seq<ReleaseInfo>, h0: seq<Release>, done: set<OpID>, h: seq<Release>) {
    && Increasing(h)
    && (forall i :: 0 <= i < |rel| ==>
      Lookup(h, rel[i].rel.version) == InfoStatus(rel[i], done, Lookup(h0, rel[i].rel.version)))
    && (forall v :: (forall i :: 0 <= i < |rel| ==> rel[i].rel.version != v) ==> Lookup(h, v) == Lookup(h0, v))
  }

  ghost predicate IsOpOf(i: ReleaseInfo, op: Operation) {
    op == FinalReleaseOp(i) || InitReleaseOp(i) == Some(op)
  }

  lemma OpOfRevision(i: ReleaseInfo, op: Operation)
    requires IsOpOf(i, op)
    ensures IsReleaseOp(op) && RevisionOf(op) == i.rel.version && op.ID().config == RevisionKey(i.rel.version)
    ensures op.category == CategoryRelease
    ensures op.typ == TypeCreateRelease ==> Creates(i)
    ensures InitReleaseOp(i).Some? ==> InitReleaseOp(i).value.ID() != FinalReleaseOp(i).ID()
  {
  }

  ghost predicate AllBelow(h: seq<Release>, v: int) {
    forall k :: 0 <= k < |h| ==> h[k].version < v
  }

  /** A revision that is to be created is newer than whatever the history has become. */
  lemma NewestStays(rel: seq<ReleaseInfo>, h0: seq<Release>, done: set<OpID>, h: seq<Release>, i: nat)
    requires Fits(rel, h0) && StateFor(rel, h0, done, h) && i < |rel| && Creates(rel[i])
    requires Lookup(h, rel[i].rel.version).None?
    ensures AllBelow(h, rel[i].rel.version)
  {
    forall k | 0 <= k < |h| ensures h[k].version < rel[i].rel.version {
      var v := h[k].version;
      IndexUnique(h, k);
      if j :| 0 <= j < |rel| && rel[j].rel.version == v {
        assert j != i && !Creates(rel[j]);
      }
      var m := IndexOf(h0, v);
      assert h0[m].version == v;
    }
  }

  /** An operation whose turn has come is possible. */
  lemma EffectPossible(rel: seq<ReleaseInfo>, h0: seq<Release>, done: set<OpID>, h: seq<Release>, i: nat, op: Operation)
    requires Fits(rel, h0) && StateFor(rel, h0, done, h) && i < |rel| && IsOpOf(rel[i], op) && op.ID() !in done
    requires FinalReleaseOp(rel[i]).ID() !in done
    requires op == FinalReleaseOp(rel[i]) && InitReleaseOp(rel[i]).Some? ==> InitReleaseOp(rel[i]).value.ID() in done
    ensures Effect(h, op).Some? && Increasing(Effect(h, op).value)
  {
    OpOfRevision(rel[i], op);
    if op.typ == TypeCreateRelease {
      assert Lookup(h0, rel[i].rel.version).None?;
      NewestStays(rel, h0, done, h, i);
    }
    EffectIncreasing(h, op);
  }

  lemma OtherInfoSame(i: ReleaseInfo, done: set<OpID>, x: OpID, was: Option<ReleaseStatus>)
    requires x.config != RevisionKey(i.rel.version)
    ensures InfoStatus(i, done + {x}, was) == InfoStatus(i, done, was)
  {
  }

  /** One more operation of a revision, in its turn. */
  lemma StepState(rel: seq<ReleaseInfo>, h0: seq<Release>, done: set<OpID>, h: seq<Release>, i: nat, op: Operation)
    requires Fits(rel, h0) && StateFor(rel, h0, done, h) && i < |rel| && IsOpOf(rel[i], op) && op.ID() !in done
    requires FinalReleaseOp(rel[i]).ID() !in done
    requires op == FinalReleaseOp(rel[i]) && InitReleaseOp(rel[i]).Some? ==> InitReleaseOp(rel[i]).value.ID() in done
    ensures Effect(h, op).Some? && StateFor(rel, h0, done + {op.ID()}, Effect(h, op).value)
  {
    EffectPossible(rel, h0, done, h, i, op);
    OpOfRevision(rel[i], op);
    var g := Effect(h, op).value;
    forall v ensures Lookup(g, v) == if v == rel[i].rel.version then StatusGiven(op) else Lookup(h, v) {
      EffectLookup(h, op, v);
    }
    forall k | 0 <= k < |rel|
      ensures Lookup(g, rel[k].rel.version) == InfoStatus(rel[k], done + {op.ID()}, Lookup(h0, rel[k].rel.version))
    {
      if k != i {
        assert rel[k].rel.version != rel[i].rel.version;
        OtherInfoSame(rel[k], done, op.ID(), Lookup(h0, rel[k].rel.version));
      }
    }
  }

  lemma NothingDone(rel: seq<ReleaseInfo>, h0: seq<Release>)
    requires Increasing(h0)
    ensures StateFor(rel, h0, {}, h0)
  {
  }

  // ----- a whole order -----

  /** The release operations of a plan are those of the infos. */
  ghost predicate ReleaseOpsOf(ops: map<OpID, Operation>, rel: seq<ReleaseInfo>) {
    forall id :: id in ops ==>
      ops[id].ID() == id && (IsReleaseOp(ops[id]) ==> exists i :: 0 <= i < |rel| && IsOpOf(rel[i], ops[id]))
  }

  /** The final operation of a revision comes after its initial one. */
  ghost predicate InitFirst(rel: seq<ReleaseInfo>, l: seq<OpID>) {
    forall i, n :: 0 <= i < |rel| && 0 <= n < |l| && l[n] == FinalReleaseOp(rel[i]).ID() ==>
      InitReleaseOp(rel[i]).Some? ==> InitReleaseOp(rel[i]).value.ID() in l[..n]
  }

  ghost function Done(l: seq<OpID>, n: nat): set<OpID>
    requires n <= |l|
  {
    set x | x in l[..n]
  }

  lemma DoneNext(l: seq<OpID>, n: nat)
    requires n < |l| && NoDuplicates(l)
    ensures Done(l, n + 1) == Done(l, n) + {l[n]} && l[n] !in Done(l, n)
  {
    assert l[..n + 1] == l[..n] + [l[n]];
  }

  /** The final operation is not done when the initial one's turn comes. */
  lemma FinalNotYet(rel: seq<ReleaseInfo>, l: seq<OpID>, n: nat, i: nat)
    requires n < |l| && NoDuplicates(l) && InitFirst(rel, l) && i < |rel| && InitReleaseOp(rel[i]).Some?
      && l[n] == InitReleaseOp(rel[i]).value.ID()
    ensures FinalReleaseOp(rel[i]).ID() !in Done(l, n)
  {
  }

  lemma IrrelevantStep(rel: seq<ReleaseInfo>, h0: seq<Release>, done: set<OpID>, h: seq<Release>, x: OpID)
    requires StateFor(rel, h0, done, h)
    requires forall i :: 0 <= i < |rel| ==>
      x != FinalReleaseOp(rel[i]).ID() && (InitReleaseOp(rel[i]).Some? ==> x != InitReleaseOp(rel[i]).value.ID())
    ensures StateFor(rel, h0, done + {x}, h)
  {
  }

  lemma NotARevision(rel: seq<ReleaseInfo>, ops: map<OpID, Operation>, id: OpID)
    requires ReleaseOpsOf(ops, rel) && id in ops && !IsReleaseOp(ops[id])
    requires forall i, op :: 0 <= i < |rel| && IsOpOf(rel[i], op) ==> op.ID() in ops && ops[op.ID()] == op
    ensures forall i :: 0 <= i < |rel| ==>
      id != FinalReleaseOp(rel[i]).ID() && (InitReleaseOp(rel[i]).Some? ==> id != InitReleaseOp(rel[i]).value.ID())
  {
    forall i | 0 <= i < |rel|
      ensures id != FinalReleaseOp(rel[i]).ID()
        && (InitReleaseOp(rel[i]).Some? ==> id != InitReleaseOp(rel[i]).value.ID())
    {
      assert IsOpOf(rel[i], FinalReleaseOp(rel[i]));
      if InitReleaseOp(rel[i]).Some? { assert IsOpOf(rel[i], InitReleaseOp(rel[i]).value); }
    }
  }

  /** The plan has all operations of the infos. */
  ghost predicate HasReleaseOps(ops: map<OpID, Operation>, rel: seq<ReleaseInfo>) {
    forall i, op :: 0 <= i < |rel| && IsOpOf(rel[i], op) ==> op.ID() in ops && ops[op.ID()] == op
  }

  lemma RunStep(rel: seq<ReleaseInfo>, h0: seq<Release>, ops: map<OpID, Operation>, l: seq<OpID>, n: nat,
                h: seq<Release>)
    requires Fits(rel, h0) && ReleaseOpsOf(ops, rel) && HasReleaseOps(ops, rel) && NoDuplicates(l) && InitFirst(rel, l)
    requires n < |l| && l[n] in ops && HistoryAfter(h0, ops, l, n) == Some(h) && StateFor(rel, h0, Done(l, n), h)
    ensures HistoryAfter(h0, ops, l, n + 1).Some?
      && StateFor(rel, h0, Done(l, n + 1), HistoryAfter(h0, ops, l, n + 1).value)
  {
    var op := ops[l[n]];
    DoneNext(l, n);
    if IsReleaseOp(op) {
      var i :| 0 <= i < |rel| && IsOpOf(rel[i], op);
      if op != FinalReleaseOp(rel[i]) { FinalNotYet(rel, l, n, i); }
      StepState(rel, h0, Done(l, n), h, i, op);
    } else {
      NotARevision(rel, ops, l[n]);
      IrrelevantStep(rel, h0, Done(l, n), h, l[n]);
    }
  }

  /** In every order that puts initial operations first, every operation is possible, and each
      revision has the status that these operations give it. */
  lemma {:induction false} RunState(rel: seq<ReleaseInfo>, h0: seq<Release>, ops: map<OpID, Operation>, l: seq<OpID>,
                                    n: nat)
    requires Fits(rel, h0) && ReleaseOpsOf(ops, rel) && HasReleaseOps(ops, rel) && NoDuplicates(l) && InitFirst(rel, l)
    requires n <= |l| && forall x :: x in l ==> x in ops
    ensures HistoryAfter(h0, ops, l, n).Some? && StateFor(rel, h0, Done(l, n), HistoryAfter(h0, ops, l, n).value)
    decreases n
  {
    if n == 0 {
      NothingDone(rel, h0);
    } else {
      RunState(rel, h0, ops, l, n - 1);
      assert l[n - 1] in l;
      var g := HistoryAfter(h0, ops, l, n - 1).value;
      RunStep(rel, h0, ops, l, n - 1, g);
    }
  }

  /** Which operations have taken effect determines the history. */
  lemma StateDetermined(rel: seq<ReleaseInfo>, h0: seq<Release>, done: set<OpID>, h: seq<Release>, g: seq<Release>)
    requires StateFor(rel, h0, done, h) && StateFor(rel, h0, done, g)
    ensures h == g
  {
    forall v ensures Lookup(h, v) == Lookup(g, v) {
      if i :| 0 <= i < |rel| && rel[i].rel.version == v {
        assert Lookup(h, rel[i].rel.version) == Lookup(g, rel[i].rel.version);
      }
    }
    LookupsDetermine(h, g);
  }

  /** Release operations commute: two orders in which the same operations have taken effect, each
      with initial operations first, leave the same history. */
  lemma OrdersCommute(rel: seq<ReleaseInfo>, h0: seq<Release>, ops: map<OpID, Operation>, l: seq<OpID>, m: seq<OpID>)
    requires Fits(rel, h0) && ReleaseOpsOf(ops, rel) && HasReleaseOps(ops, rel)
    requires NoDuplicates(l) && InitFirst(rel, l) && forall x :: x in l ==> x in ops
    requires NoDuplicates(m) && InitFirst(rel, m) && forall x :: x in m ==> x in ops
    requires Done(l, |l|) == Done(m, |m|)
    ensures HistoryAfter(h0, ops, l, |l|) == HistoryAfter(h0, ops, m, |m|)
  {
    RunState(rel, h0, ops, l, |l|);
    RunState(rel, h0, ops, m, |m|);
    StateDetermined(rel, h0, Done(l, |l|), HistoryAfter(h0, ops, l, |l|).value, HistoryAfter(h0, ops, m, |m|).value);
  }
}
