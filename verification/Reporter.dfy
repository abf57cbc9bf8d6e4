/** The progress reporter (pkg/plan/legacy_progress_reporter.go, pkg/plan/legacy_progress_report.go):
    a table of the operations of the current stage, and frozen reports of earlier stages. */
module Reporter {
  import opened Operations
  import opened Precedence
  import opened PlanGraph
  import opened ResourceInfo

  datatype ReportedStatus = ReportPending | ReportProgressing | ReportCompleted | ReportFailed

  datatype OperationRef = OperationRef(resource: string, typ: OpType, iteration: nat)

  /** A row of the table; `preds` are the rows it waits for. */
  datatype Entry = Entry(ref: OperationRef, status: ReportedStatus, preds: set<nat>)

  datatype ReportedOp = ReportedOp(ref: OperationRef, status: ReportedStatus, waitingFor: set<OperationRef>)

  type StageReport = seq<ReportedOp>

  type Report = seq<StageReport>

  function MapStatus(s: Status): ReportedStatus {
    match s
    case StatusUnknown => ReportPending
    case StatusPending => ReportProgressing
    case StatusCompleted => ReportCompleted
    case StatusFailed => ReportFailed
  }

  predicate Reported(op: Operation) {
    op.category == CategoryResource || op.category == CategoryTrack
  }

  /** Every reported operation is about a resource. */
  ghost predicate Reportable(ops: map<OpID, Operation>) {
    forall id :: id in ops && Reported(ops[id]) ==> ops[id].config.ResourceConfig?
  }

  function RefTo(op: Operation): OperationRef
    requires op.config.ResourceConfig?
  {
    OperationRef(op.config.resource, op.typ, op.iteration)
  }

  // ----- reports -----

  /** Rows that a row waits for and that are not completed. */
  function WaitingFor(ops: seq<Entry>, e: Entry): set<OperationRef> {
    set p | p in e.preds && p < |ops| && ops[p].status != ReportCompleted :: ops[p].ref
  }

  function CurrentStage(ops: seq<Entry>): StageReport {
    seq(|ops|, i requires 0 <= i < |ops| => ReportedOp(ops[i].ref, ops[i].status, WaitingFor(ops, ops[i])))
  }

  /** A stage that is over waits for nothing. */
  function FrozenStage(ops: seq<Entry>): StageReport {
    seq(|ops|, i requires 0 <= i < |ops| => ReportedOp(ops[i].ref, ops[i].status, {}))
  }

  method BuildStageReport(ops: seq<Entry>) returns (r: StageReport)
    ensures r == FrozenStage(ops)
  {
    r := [];
    for i := 0 to |ops|
      invariant r == FrozenStage(ops)[..i]
    {
      r := r + [ReportedOp(ops[i].ref, ops[i].status, {})];
    }
  }

  /** Frozen stages as they are, then the current one. */
  method BuildProgressReport(frozen: seq<StageReport>, ops: seq<Entry>) returns (r: Report)
    ensures r == frozen + [CurrentStage(ops)]
  {
    var current: StageReport := [];
    for i := 0 to |ops|
      invariant current == CurrentStage(ops)[..i]
    {
      current := current + [ReportedOp(ops[i].ref, ops[i].status, WaitingFor(ops, ops[i]))];
    }
    assert current == CurrentStage(ops);
    r := frozen + [current];
  }

  // ----- the table of a plan -----

  ghost function PredRows(edges: set<Edge>, index: map<OpID, nat>, id: OpID): set<nat> {
    set e | e in edges && e.1 == id && e.0 in index :: index[e.0]
  }

  ghost predicate Owned(index: map<OpID, nat>, k: nat) {
    exists id :: id in index && index[id] == k
  }

  /** Every reported operation has its own row, and every other row is completed. */
  ghost predicate Indexed(g: Graph, rows: seq<Entry>, index: map<OpID, nat>) {
    && (forall id :: id in index <==> id in g.ops && Reported(g.ops[id]))
    && (forall id :: id in index ==> index[id] < |rows|)
    && (forall a, b :: a in index && b in index && a != b ==> index[a] != index[b])
    && (forall k :: 0 <= k < |rows| && !Owned(index, k) ==> rows[k].status == ReportCompleted && rows[k].preds == {})
  }

  /** The rows are those of the plan, each with its predecessors' rows. */
  ghost predicate Describes(g: Graph, rows: seq<Entry>, index: map<OpID, nat>) {
    && Reportable(g.ops) && Indexed(g, rows, index)
    && (forall id :: id in index ==>
      rows[index[id]].ref == RefTo(g.ops[id]) && rows[index[id]].preds == PredRows(g.edges, index, id))
  }

  /** The rows of the first `n` listed operations, in order. */
  ghost predicate Listed(ops: map<OpID, Operation>, ids: seq<OpID>, n: nat, rows: seq<Entry>, index: map<OpID, nat>)
    requires n <= |ids| && Reportable(ops)
  {
    && (forall id :: id in index <==> id in ids[..n] && id in ops && Reported(ops[id]))
    && (forall id :: id in index ==> index[id] < |rows| && rows[index[id]] == Entry(RefTo(ops[id]), ReportPending, {}))
    && (forall a, b :: a in index && b in index && a != b ==> index[a] != index[b])
    && (forall k :: 0 <= k < |rows| ==> Owned(index, k))
  }

  lemma RowAdded(ops: map<OpID, Operation>, ids: seq<OpID>, n: nat, rows: seq<Entry>, index: map<OpID, nat>)
    requires n < |ids| && Reportable(ops) && Listed(ops, ids, n, rows, index) && NoDuplicates(ids) && ids[n] in ops
    ensures !Reported(ops[ids[n]]) ==> Listed(ops, ids, n + 1, rows, index)
    ensures Reported(ops[ids[n]]) ==>
      Listed(ops, ids, n + 1, rows + [Entry(RefTo(ops[ids[n]]), ReportPending, {})], index[ids[n] := |rows|])
  {
    assert ids[..n + 1] == ids[..n] + [ids[n]];
    assert ids[n] !in ids[..n];
    if Reported(ops[ids[n]]) {
      var index' := index[ids[n] := |rows|];
      forall k | 0 <= k < |rows| + 1 ensures Owned(index', k) {
        if k < |rows| {
          assert Owned(index, k);
          var id :| id in index && index[id] == k;
          assert index'[id] == k;
        } else {
          assert index'[ids[n]] == k;
        }
      }
    }
  }

  /** Some reported operation is about the resource. */
  ghost predicate Touches(ops: map<OpID, Operation>, index: map<OpID, nat>, resource: string) {
    exists id :: id in index && id in ops && ops[id].config == ResourceConfig(resource)
  }

  lemma TouchesOneMore(ops: map<OpID, Operation>, index: map<OpID, nat>, x: OpID, k: nat, r: string)
    requires x in ops && ops[x].config.ResourceConfig?
    ensures Touches(ops, index[x := k], r) <==> Touches(ops, index, r) || r == ops[x].config.resource
  {
    if Touches(ops, index, r) {
      var id :| id in index && id in ops && ops[id].config == ResourceConfig(r);
      assert id in index[x := k];
    }
    if r == ops[x].config.resource { assert x in index[x := k]; }
  }

  /** The rows of the reported operations, and the resources that they touch. */
  method ListRows(ops: map<OpID, Operation>, ids: seq<OpID>)
    returns (rows: seq<Entry>, index: map<OpID, nat>, seen: set<string>)
    requires Reportable(ops) && NoDuplicates(ids) && forall id :: id in ids ==> id in ops
    ensures Listed(ops, ids, |ids|, rows, index)
    ensures forall r :: r in seen <==> Touches(ops, index, r)
  {
    rows, index, seen := [], map[], {};
    for n := 0 to |ids|
      invariant Listed(ops, ids, n, rows, index)
      invariant forall r :: r in seen <==> Touches(ops, index, r)
    {
      assert ids[n] in ids;
      RowAdded(ops, ids, n, rows, index);
      var op := ops[ids[n]];
      if Reported(op) {
        forall r ensures Touches(ops, index[ids[n] := |rows|], r) <==> r in seen + {op.config.resource} {
          TouchesOneMore(ops, index, ids[n], |rows|, r);
        }
        index := index[ids[n] := |rows|];
        rows := rows + [Entry(RefTo(op), ReportPending, {})];
        seen := seen + {op.config.resource};
      }
    }
  }

  /** How a live resource that no operation touches is shown. */
  function UntouchedRow(resource: string): Entry {
    Entry(OperationRef(resource, TypeNoop, 0), ReportCompleted, {})
  }

  ghost predicate LiveAmong(infos: seq<InstallableInfo>, n: nat, resource: string)
    requires n <= |infos|
  {
    exists i :: 0 <= i < n && infos[i].live.Some? && infos[i].res.id == resource
  }

  /** One row for every live resource among the first `n` infos that is not in `seen`, and no other. */
  ghost predicate UntouchedTable(rows: seq<Entry>, infos: seq<InstallableInfo>, n: nat, seen: set<string>)
    requires n <= |infos|
  {
    && (forall k :: 0 <= k < |rows| ==> rows[k] == UntouchedRow(rows[k].ref.resource))
    && (forall k :: 0 <= k < |rows| ==> rows[k].ref.resource !in seen && LiveAmong(infos, n, rows[k].ref.resource))
    && (forall k, m :: 0 <= k < m < |rows| ==> rows[k].ref.resource != rows[m].ref.resource)
    && (forall r :: LiveAmong(infos, n, r) && r !in seen ==> HasRow(rows, r))
  }

  ghost predicate HasRow(rows: seq<Entry>, resource: string) {
    exists k :: 0 <= k < |rows| && rows[k].ref.resource == resource
  }

  lemma OneMoreLive(infos: seq<InstallableInfo>, n: nat, r: string)
    requires n < |infos|
    ensures LiveAmong(infos, n + 1, r) <==> LiveAmong(infos, n, r) || (infos[n].live.Some? && infos[n].res.id == r)
  {
  }

  lemma UntouchedRowAdded(rows: seq<Entry>, infos: seq<InstallableInfo>, n: nat, seen: set<string>)
    requires n < |infos| && UntouchedTable(rows, infos, n, seen)
    ensures var r := infos[n].res.id;
      var more := if infos[n].live.Some? && r !in seen && !HasRow(rows, r) then [UntouchedRow(r)] else [];
      UntouchedTable(rows + more, infos, n + 1, seen)
  {
    var x := infos[n].res.id;
    var t := rows + if infos[n].live.Some? && x !in seen && !HasRow(rows, x) then [UntouchedRow(x)] else [];
    forall r
      ensures LiveAmong(infos, n + 1, r) <==> LiveAmong(infos, n, r) || (infos[n].live.Some? && infos[n].res.id == r)
    {
      OneMoreLive(infos, n, r);
    }
    forall r | LiveAmong(infos, n + 1, r) && r !in seen ensures HasRow(t, r) {
      if HasRow(rows, r) {
        var k :| 0 <= k < |rows| && rows[k].ref.resource == r;
        assert t[k] == rows[k];
      } else {
        assert t[|rows|] == UntouchedRow(r);
      }
    }
  }

  method UntouchedRows(infos: seq<InstallableInfo>, seen: set<string>) returns (rows: seq<Entry>)
    ensures UntouchedTable(rows, infos, |infos|, seen)
  {
    rows := [];
    var shown := seen;
    for n := 0 to |infos|
      invariant UntouchedTable(rows, infos, n, seen)
      invariant forall r :: r in shown <==> r in seen || HasRow(rows, r)
    {
      UntouchedRowAdded(rows, infos, n, seen);
      if infos[n].live.None? || infos[n].res.id in shown {
        assert rows + [] == rows;
        continue;
      }
      ShownGrows(rows, infos[n].res.id);
      shown := shown + {infos[n].res.id};
      rows := rows + [UntouchedRow(infos[n].res.id)];
    }
  }

  lemma ShownGrows(rows: seq<Entry>, x: string)
    ensures forall r :: HasRow(rows + [UntouchedRow(x)], r) <==> HasRow(rows, r) || r == x
  {
    var t := rows + [UntouchedRow(x)];
    forall r ensures HasRow(t, r) <==> HasRow(rows, r) || r == x {
      if HasRow(rows, r) {
        var k :| 0 <= k < |rows| && rows[k].ref.resource == r;
        assert t[k] == rows[k];
      }
      assert t[|rows|].ref.resource == x;
    }
  }

  /** The rows that stand for no operation are one for every live resource that no operation
      touches, shown as completed. */
  ghost predicate ShowsUntouched(ops: map<OpID, Operation>, rows: seq<Entry>, index: map<OpID, nat>,
                                 infos: seq<InstallableInfo>) {
    && (forall k :: 0 <= k < |rows| && !Owned(index, k) ==>
          var r := rows[k].ref.resource;
          rows[k] == UntouchedRow(r) && LiveAmong(infos, |infos|, r) && !Touches(ops, index, r))
    && (forall k, m :: 0 <= k < m < |rows| && !Owned(index, k) && !Owned(index, m) ==> rows[k].ref != rows[m].ref)
    && (forall r :: LiveAmong(infos, |infos|, r) && !Touches(ops, index, r) ==>
          exists k :: 0 <= k < |rows| && !Owned(index, k) && rows[k] == UntouchedRow(r))
  }

  /** The rows with the predecessors of the first `n` listed operations filled in. */
  ghost predicate RowsLinked(g: Graph, ids: seq<OpID>, n: nat, was: seq<Entry>, rows: seq<Entry>, index: map<OpID, nat>)
    requires n <= |ids| && forall id :: id in index ==> index[id] < |was|
  {
    && |rows| == |was|
    && (forall id :: id in index ==>
          var row := was[index[id]];
          rows[index[id]] == if id in ids[..n] then row.(preds := PredRows(g.edges, index, id)) else row)
    && (forall k :: 0 <= k < |rows| && !Owned(index, k) ==> rows[k] == was[k])
  }

  lemma RowLinked(g: Graph, ids: seq<OpID>, n: nat, was: seq<Entry>, rows: seq<Entry>, index: map<OpID, nat>)
    requires n < |ids| && NoDuplicates(ids) && forall id :: id in index ==> index[id] < |was|
    requires forall a, b :: a in index && b in index && a != b ==> index[a] != index[b]
    requires RowsLinked(g, ids, n, was, rows, index)
    ensures ids[n] !in index ==> RowsLinked(g, ids, n + 1, was, rows, index)
    ensures ids[n] in index ==>
      RowsLinked(g, ids, n + 1, was,
             rows[index[ids[n]] := rows[index[ids[n]]].(preds := PredRows(g.edges, index, ids[n]))], index)
  {
    assert ids[..n + 1] == ids[..n] + [ids[n]];
    assert ids[n] !in ids[..n];
  }

  method LinkRows(p: Plan, ids: seq<OpID>, was: seq<Entry>, index: map<OpID, nat>) returns (rows: seq<Entry>)
    requires NoDuplicates(ids) && forall id :: id in index ==> index[id] < |was|
    requires forall a, b :: a in index && b in index && a != b ==> index[a] != index[b]
    ensures RowsLinked(p.G(), ids, |ids|, was, rows, index)
  {
    rows := was;
    for n := 0 to |ids|
      invariant RowsLinked(p.G(), ids, n, was, rows, index)
    {
      RowLinked(p.G(), ids, n, was, rows, index);
      if ids[n] in index {
        var preds := set e | e in p.edges && e.1 == ids[n] && e.0 in index :: index[e.0];
        rows := rows[index[ids[n]] := rows[index[ids[n]]].(preds := preds)];
      }
    }
  }

  // ----- the object -----

  /** What a reporter shows: frozen stages and the rows of the current one. */
  datatype Table = Table(frozen: seq<StageReport>, rows: seq<Entry>)

  /** What a call can do: change rows, or freeze them and start new ones. */
  ghost predicate Call(a: Table, b: Table) {
    || (b.frozen == a.frozen && (|a.rows| == |b.rows| || a.rows == []))
    || b.frozen == a.frozen + [FrozenStage(a.rows)]
  }

  class LegacyProgressReporter {
    var frozen: seq<StageReport>
    var ops: seq<Entry>
    var opIndex: map<OpID, nat>
    var sent: seq<Report>

    ghost predicate Valid() reads this {
      forall id :: id in opIndex ==> opIndex[id] < |ops|
    }

    ghost function T(): Table reads this {
      Table(frozen, ops)
    }

    constructor ()
      ensures Valid() && frozen == [] && ops == [] && sent == [] && opIndex == map[]
    {
      frozen, ops, opIndex, sent := [], [], map[], [];
    }

    /** Sets the status of one row and sends a report; an unknown operation is ignored. */
    method ReportStatus(id: OpID, status: ReportedStatus)
      requires Valid()
      modifies this
      ensures Valid() && Call(old(T()), T()) && frozen == old(frozen) && opIndex == old(opIndex)
      ensures id in opIndex ==> ops == old(ops)[opIndex[id] := old(ops)[opIndex[id]].(status := status)]
      ensures id in opIndex ==> sent == old(sent) + [frozen + [CurrentStage(ops)]]
      ensures id !in opIndex ==> ops == old(ops) && sent == old(sent)
    {
      if id !in opIndex { return; }
      ops := ops[opIndex[id] := ops[opIndex[id]].(status := status)];
      var report := BuildProgressReport(frozen, ops);
      sent := sent + [report];
    }

    /** Freezes the current stage, if there is one, and starts the stage of a plan. */
    method StartStage(p: Plan, untouched: seq<InstallableInfo>)
      requires Reportable(p.ops)
      modifies this
      ensures Valid() && Call(old(T()), T()) && Describes(p.G(), ops, opIndex)
      ensures forall id :: id in opIndex ==> ops[opIndex[id]].status == ReportPending
      ensures ShowsUntouched(p.ops, ops, opIndex, untouched)
      ensures frozen == old(frozen) + if |old(ops)| > 0 then [FrozenStage(old(ops))] else []
      ensures sent == old(sent) + [frozen + [CurrentStage(ops)]]
    {
      if |ops| > 0 {
        var stage := BuildStageReport(ops);
        frozen := frozen + [stage];
      }
      ops, opIndex := StageRows(p, untouched);
      var report := BuildProgressReport(frozen, ops);
      sent := sent + [report];
    }
  }

  method StageRows(p: Plan, untouched: seq<InstallableInfo>) returns (rows: seq<Entry>, index: map<OpID, nat>)
    requires Reportable(p.ops)
    ensures Describes(p.G(), rows, index)
    ensures forall id :: id in index ==> rows[index[id]].status == ReportPending
    ensures ShowsUntouched(p.ops, rows, index, untouched)
  {
    var ids := p.OperationIDs();
    var seen;
    rows, index, seen := ListRows(p.ops, ids);
    ghost var listed := rows;
    assert ids[..|ids|] == ids;
    var more := UntouchedRows(untouched, seen);
    rows := rows + more;
    ghost var all := rows;
    rows := LinkRows(p, ids, rows, index);
    UnownedRows(p.G(), ids, listed, more, all, rows, index);
    RowsDescribe(p.G(), ids, listed, more, all, rows, index);
    RowsShowUntouched(p.ops, untouched, seen, listed, more, rows, index);
  }

  /** The rows that stand for no operation come last and are not changed by linking. */
  lemma UnownedRows(g: Graph, ids: seq<OpID>, listed: seq<Entry>, more: seq<Entry>, all: seq<Entry>, rows: seq<Entry>,
                    index: map<OpID, nat>)
    requires Reportable(g.ops) && Listed(g.ops, ids, |ids|, listed, index)
    requires all == listed + more && RowsLinked(g, ids, |ids|, all, rows, index)
    ensures |rows| == |listed| + |more|
    ensures forall k :: 0 <= k < |rows| ==> (Owned(index, k) <==> k < |listed|)
    ensures forall k :: 0 <= k < |more| ==> rows[|listed| + k] == more[k]
  {
    forall k | 0 <= k < |more| ensures rows[|listed| + k] == more[k] {
      assert !Owned(index, |listed| + k);
    }
  }

  lemma RowsShowUntouched(ops: map<OpID, Operation>, infos: seq<InstallableInfo>, seen: set<string>,
                          listed: seq<Entry>, more: seq<Entry>, rows: seq<Entry>, index: map<OpID, nat>)
    requires forall r :: r in seen <==> Touches(ops, index, r)
    requires UntouchedTable(more, infos, |infos|, seen) && |rows| == |listed| + |more|
    requires forall k :: 0 <= k < |rows| ==> (Owned(index, k) <==> k < |listed|)
    requires forall k :: 0 <= k < |more| ==> rows[|listed| + k] == more[k]
    ensures ShowsUntouched(ops, rows, index, infos)
  {
    forall k | 0 <= k < |rows| && !Owned(index, k) ensures rows[k] == more[k - |listed|] {
      assert rows[|listed| + (k - |listed|)] == more[k - |listed|];
    }
    forall r | LiveAmong(infos, |infos|, r) && !Touches(ops, index, r)
      ensures exists k :: 0 <= k < |rows| && !Owned(index, k) && rows[k] == UntouchedRow(r)
    {
      assert HasRow(more, r);
      var k :| 0 <= k < |more| && more[k].ref.resource == r;
      assert rows[|listed| + k] == UntouchedRow(r);
    }
  }

  lemma RowsDescribe(g: Graph, ids: seq<OpID>, listed: seq<Entry>, more: seq<Entry>, all: seq<Entry>, rows: seq<Entry>,
                     index: map<OpID, nat>)
    requires Reportable(g.ops) && Listed(g.ops, ids, |ids|, listed, index) && forall id :: id in ids <==> id in g.ops
    requires forall k :: 0 <= k < |more| ==> more[k] == UntouchedRow(more[k].ref.resource)
    requires all == listed + more && RowsLinked(g, ids, |ids|, all, rows, index)
    ensures Describes(g, rows, index)
    ensures forall id :: id in index ==> rows[index[id]].status == ReportPending
  {
    assert ids[..|ids|] == ids;
    forall k | 0 <= k < |rows| && !Owned(index, k) ensures rows[k].status == ReportCompleted && rows[k].preds == {} {
      assert k >= |listed|;
      assert rows[k] == more[k - |listed|];
    }
  }
}
