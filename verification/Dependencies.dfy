/** Dependencies between resources (pkg/plan/plan_build.go): which operation a dependency waits
    for, and the edges that make it wait. */
module Dependencies {
  import opened Operations
  import opened Precedence
  import opened PlanGraph
  import opened ResourceInfo
  import opened PlanRequest

  // ----- where dependency edges lead -----

  /** Everything to be deployed or deleted has its operation. */
  ghost predicate TargetsIn(ids: set<OpID>, inst: seq<InstallableInfo>, del: seq<DeletableInfo>) {
    && (forall i :: i in inst && i.mustInstall != InstallNone ==> DeployOp(i).ID() in ids)
    && (forall i :: i in del && i.mustDelete ==> DeleteID(i) in ids)
  }

  /** A resource operation of the request: what a dependency can hold back. */
  ghost predicate Dependent(inst: seq<InstallableInfo>, del: seq<DeletableInfo>, id: OpID) {
    || (exists i :: i in inst && i.mustInstall != InstallNone && id == DeployOp(i).ID())
    || (exists i :: i in del && i.mustDelete && id == DeleteID(i))
  }

  /** The edges lead from resource or tracking operations in the plan to dependents. */
  ghost predicate DependencyShaped(ids: set<OpID>, inst: seq<InstallableInfo>, del: seq<DeletableInfo>,
                                   edges: set<Edge>) {
    forall x, y :: (x, y) in edges ==> x in ids && x.config.ResourceKey? && Dependent(inst, del, y)
  }

  /** Exactly the absence tracking of matching deleted resources of the stage is found. */
  lemma {:induction false} DeletedMatchesExactly(ids: set<OpID>, del: seq<DeletableInfo>, dep: Dependency, s: Stage,
                                                 n: nat, x: OpID)
    requires n <= |del|
    ensures x in DeletedMatches(ids, del, dep, s, n) <==>
      x in ids && exists k :: 0 <= k < n && DeletedMatch(del[k], dep, s) && x == AbsenceID(del[k])
  {
    if n > 0 { DeletedMatchesExactly(ids, del, dep, s, n - 1, x); }
  }

  lemma AbsenceOpsIn(ids: set<OpID>, del: seq<DeletableInfo>, inst: seq<InstallableInfo>, dep: Dependency, s: Stage)
    ensures forall x :: x in AbsenceOps(ids, del, inst, dep, s) ==> x in ids && x.config.ResourceKey?
  {
    forall x | x in DeletedMatches(ids, del, dep, s, |del|) ensures x in ids && x.config.ResourceKey? {
      DeletedMatchesExactly(ids, del, dep, s, |del|, x);
    }
  }

  lemma DeployTargetIn(ids: set<OpID>, del: seq<DeletableInfo>, inst: seq<InstallableInfo>, dep: Dependency, s: Stage)
    requires TargetsIn(ids, inst, del)
    ensures DeployTarget(ids, del, inst, dep, s).Some? ==>
      DeployTarget(ids, del, inst, dep, s).value in ids
        && DeployTarget(ids, del, inst, dep, s).value.config.ResourceKey?
  {
    AbsenceOpsIn(ids, del, inst, dep, s);
    LowestMatchIsLowest(inst, DeployedOne, dep, s, |inst|);
  }

  lemma DeployEdgeShaped(ids: set<OpID>, del: seq<DeletableInfo>, inst: seq<InstallableInfo>, i: InstallableInfo,
                         d: Dependency)
    requires TargetsIn(ids, inst, del) && i in inst && i.mustInstall != InstallNone
    ensures DependencyShaped(ids, inst, del, DeployEdge(ids, del, inst, i, d))
  {
    DeployTargetIn(ids, del, inst, d, i.stage);
    assert Dependent(inst, del, DeployOp(i).ID());
  }

  lemma ShapedUnion(ids: set<OpID>, inst: seq<InstallableInfo>, del: seq<DeletableInfo>, E: set<Edge>, F: set<Edge>)
    requires DependencyShaped(ids, inst, del, E) && DependencyShaped(ids, inst, del, F)
    ensures DependencyShaped(ids, inst, del, E + F)
  {
  }

  lemma {:induction false} InfoEdgesShaped(ids: set<OpID>, del: seq<DeletableInfo>, inst: seq<InstallableInfo>,
                                           i: InstallableInfo, deps: seq<Dependency>, m: nat)
    requires TargetsIn(ids, inst, del) && i in inst && i.mustInstall != InstallNone && m <= |deps|
    ensures DependencyShaped(ids, inst, del, InfoEdges(ids, del, inst, i, deps, m))
  {
    if m > 0 {
      InfoEdgesShaped(ids, del, inst, i, deps, m - 1);
      DeployEdgeShaped(ids, del, inst, i, deps[m - 1]);
      ShapedUnion(ids, inst, del, InfoEdges(ids, del, inst, i, deps, m - 1),
                  DeployEdge(ids, del, inst, i, deps[m - 1]));
    }
  }

  lemma {:induction false} DeployDepEdgesShaped(ids: set<OpID>, del: seq<DeletableInfo>, inst: seq<InstallableInfo>,
                                                n: nat)
    requires TargetsIn(ids, inst, del) && n <= |inst|
    ensures DependencyShaped(ids, inst, del, DeployDepEdges(ids, del, inst, n))
  {
    if n > 0 {
      DeployDepEdgesShaped(ids, del, inst, n - 1);
      var i := inst[n - 1];
      if i.mustInstall != InstallNone { InfoEdgesShaped(ids, del, inst, i, Deps(i), |Deps(i)|); }
    }
  }

  lemma {:induction false} DeletedEdgesShaped(ids: set<OpID>, del: seq<DeletableInfo>, inst: seq<InstallableInfo>,
                                              i: DeletableInfo, m: nat)
    requires i in del && i.mustDelete && m <= |i.deps|
    ensures DependencyShaped(ids, inst, del, DeletedEdges(ids, del, inst, i, m))
  {
    if m > 0 {
      DeletedEdgesShaped(ids, del, inst, i, m - 1);
      AbsenceOpsIn(ids, del, inst, i.deps[m - 1], i.stage);
    }
  }

  lemma {:induction false} DeleteDepEdgesShaped(ids: set<OpID>, del: seq<DeletableInfo>, inst: seq<InstallableInfo>,
                                                n: nat)
    requires n <= |del|
    ensures DependencyShaped(ids, inst, del, DeleteDepEdges(ids, del, inst, n))
  {
    if n > 0 {
      DeleteDepEdgesShaped(ids, del, inst, n - 1);
      if del[n - 1].mustDelete { DeletedEdgesShaped(ids, del, inst, del[n - 1], |del[n - 1].deps|); }
    }
  }

  lemma ShapedWithin(ids: set<OpID>, inst: seq<InstallableInfo>, del: seq<DeletableInfo>, edges: set<Edge>)
    requires TargetsIn(ids, inst, del) && DependencyShaped(ids, inst, del, edges)
    ensures Within(edges, ids)
  {
  }

  /** Every dependency of every deployed resource has its edge. */
  lemma {:induction false} InfoEdgeIn(ids: set<OpID>, del: seq<DeletableInfo>, inst: seq<InstallableInfo>,
                                      i: InstallableInfo, deps: seq<Dependency>, m: nat, k: nat)
    requires i.mustInstall != InstallNone && k < m <= |deps|
    ensures DeployEdge(ids, del, inst, i, deps[k]) <= InfoEdges(ids, del, inst, i, deps, m)
    decreases m
  {
    if k < m - 1 { InfoEdgeIn(ids, del, inst, i, deps, m - 1, k); }
  }

  lemma {:induction false} EdgesOfIn(ids: set<OpID>, del: seq<DeletableInfo>, inst: seq<InstallableInfo>, n: nat,
                                     i: nat)
    requires i < n <= |inst|
    ensures EdgesOf(ids, del, inst, inst[i]) <= DeployDepEdges(ids, del, inst, n)
    decreases n
  {
    if i < n - 1 { EdgesOfIn(ids, del, inst, n - 1, i); }
  }

  /** Every dependency of every deleted resource has its edges. */
  lemma {:induction false} DeletedEdgeIn(ids: set<OpID>, del: seq<DeletableInfo>, inst: seq<InstallableInfo>,
                                         i: DeletableInfo, m: nat, k: nat, t: OpID)
    requires k < m <= |i.deps| && t in AbsenceOps(ids, del, inst, i.deps[k], i.stage)
    ensures (t, DeleteID(i)) in DeletedEdges(ids, del, inst, i, m)
    decreases m
  {
    if k < m - 1 {
      DeletedEdgeIn(ids, del, inst, i, m - 1, k, t);
    } else {
      var found := AbsenceOps(ids, del, inst, i.deps[k], i.stage);
      assert (t, DeleteID(i)) in set x | x in found :: (x, DeleteID(i));
    }
  }

  lemma {:induction false} DeletedEdgesIn(ids: set<OpID>, del: seq<DeletableInfo>, inst: seq<InstallableInfo>, n: nat,
                                          i: nat)
    requires i < n <= |del| && del[i].mustDelete
    ensures DeletedEdges(ids, del, inst, del[i], |del[i].deps|) <= DeleteDepEdges(ids, del, inst, n)
    decreases n
  {
    if i < n - 1 { DeletedEdgesIn(ids, del, inst, n - 1, i); }
  }

  // ----- where dependency edges come from -----

  lemma {:induction false} InfoEdgeOrigin(ids: set<OpID>, del: seq<DeletableInfo>, inst: seq<InstallableInfo>,
                                          i: InstallableInfo,
                                          deps: seq<Dependency>, m: nat, e: Edge)
    requires i.mustInstall != InstallNone && m <= |deps| && e in InfoEdges(ids, del, inst, i, deps, m)
    ensures exists k :: 0 <= k < m && e in DeployEdge(ids, del, inst, i, deps[k])
    decreases m
  {
    if e in InfoEdges(ids, del, inst, i, deps, m - 1) { InfoEdgeOrigin(ids, del, inst, i, deps, m - 1, e); }
  }

  lemma {:induction false} DeployDepEdgeOrigin(ids: set<OpID>, del: seq<DeletableInfo>, inst: seq<InstallableInfo>,
                                               n: nat, e: Edge)
      returns (i: nat, d: Dependency)
    requires n <= |inst| && e in DeployDepEdges(ids, del, inst, n)
    ensures i < n && inst[i].mustInstall != InstallNone && d in Deps(inst[i])
      && e in DeployEdge(ids, del, inst, inst[i], d)
    decreases n
  {
    if e in DeployDepEdges(ids, del, inst, n - 1) {
      i, d := DeployDepEdgeOrigin(ids, del, inst, n - 1, e);
    } else {
      i := n - 1;
      var deps := Deps(inst[i]);
      InfoEdgeOrigin(ids, del, inst, inst[i], deps, |deps|, e);
      var k :| 0 <= k < |deps| && e in DeployEdge(ids, del, inst, inst[i], deps[k]);
      d := deps[k];
    }
  }

  lemma {:induction false} DeletedEdgeOrigin(ids: set<OpID>, del: seq<DeletableInfo>, inst: seq<InstallableInfo>,
                                             i: DeletableInfo,
                                             m: nat, e: Edge)
    requires m <= |i.deps| && e in DeletedEdges(ids, del, inst, i, m)
    ensures e.1 == DeleteID(i) && exists k :: 0 <= k < m && e.0 in AbsenceOps(ids, del, inst, i.deps[k], i.stage)
    decreases m
  {
    if e in DeletedEdges(ids, del, inst, i, m - 1) { DeletedEdgeOrigin(ids, del, inst, i, m - 1, e); }
  }

  lemma {:induction false} DeleteDepEdgeOrigin(ids: set<OpID>, del: seq<DeletableInfo>, inst: seq<InstallableInfo>,
                                               n: nat, e: Edge)
      returns (i: nat, d: Dependency)
    requires n <= |del| && e in DeleteDepEdges(ids, del, inst, n)
    ensures i < n && del[i].mustDelete && d in del[i].deps && e.1 == DeleteID(del[i])
    ensures e.0 in AbsenceOps(ids, del, inst, d, del[i].stage)
    decreases n
  {
    if e in DeleteDepEdges(ids, del, inst, n - 1) {
      i, d := DeleteDepEdgeOrigin(ids, del, inst, n - 1, e);
    } else {
      i := n - 1;
      DeletedEdgeOrigin(ids, del, inst, del[i], |del[i].deps|, e);
      var k :| 0 <= k < |del[i].deps| && e.0 in AbsenceOps(ids, del, inst, del[i].deps[k], del[i].stage);
      d := del[i].deps[k];
    }
  }

  /** What an absence dependency waits for: deleted resources, or a cleaned-up one. */
  lemma AbsenceOpOrigin(ids: set<OpID>, del: seq<DeletableInfo>, inst: seq<InstallableInfo>, d: Dependency, s: Stage,
                        x: OpID)
    requires x in AbsenceOps(ids, del, inst, d, s)
    ensures x in ids
    ensures (exists k :: 0 <= k < |del| && DeletedMatch(del[k], d, s) && x == AbsenceID(del[k]))
         || (exists k :: 0 <= k < |inst| && Eligible(CleanedUpOne, d, s, inst[k]) && x == CleanupTrackOp(inst[k]).ID())
  {
    DeletedMatchesExactly(ids, del, d, s, |del|, x);
    LowestMatchIsLowest(inst, CleanedUpOne, d, s, |inst|);
  }

  // ----- finding the operation to wait for -----

  /** The first eligible info with the lowest iteration. */
  method FindMatch(inst: seq<InstallableInfo>, w: Wanted, dep: Dependency, s: Stage)
    returns (m: Option<InstallableInfo>)
    ensures m == LowestMatch(inst, w, dep, s, |inst|)
  {
    m := None;
    for n := 0 to |inst|
      invariant m == LowestMatch(inst, w, dep, s, n)
    {
      var c := inst[n];
      if !Eligible(w, dep, s, c) || (m.Some? && c.iteration >= m.value.iteration) { continue; }
      m := Some(c);
    }
  }

  method FindTrackAbsenceOpInStage(p: Plan, del: seq<DeletableInfo>, inst: seq<InstallableInfo>, dep: Dependency,
                                   s: Stage)
    returns (found: seq<OpID>)
    ensures found == AbsenceOps(p.ops.Keys, del, inst, dep, s)
  {
    found := [];
    for n := 0 to |del|
      invariant found == DeletedMatches(p.ops.Keys, del, dep, s, n)
    {
      var c := del[n];
      var id := AbsenceID(c);
      if !DeletedMatch(c, dep, s) { continue; }
      if id in p.ops { found := found + [id]; }
    }
    if found == [] {
      var m := FindMatch(inst, CleanedUpOne, dep, s);
      if m.Some? && CleanupTrackOp(m.value).ID() in p.ops { found := [CleanupTrackOp(m.value).ID()]; }
    }
  }

  method FindDeployTarget(p: Plan, del: seq<DeletableInfo>, inst: seq<InstallableInfo>, dep: Dependency, s: Stage)
    returns (t: Option<OpID>)
    ensures t == DeployTarget(p.ops.Keys, del, inst, dep, s)
  {
    t := None;
    match dep.state
    case Present =>
      var m := FindMatch(inst, DeployedOne, dep, s);
      if m.Some? { t := Some(DeployOp(m.value).ID()); }
    case Ready =>
      var m := FindMatch(inst, TrackedOne, dep, s);
      if m.Some? && ReadinessOp(m.value).ID() in p.ops { t := Some(ReadinessOp(m.value).ID()); }
    case Absent =>
      var found := FindTrackAbsenceOpInStage(p, del, inst, dep, s);
      if found != [] { t := Some(found[0]); }
  }

  // ----- connecting -----

  lemma EdgeSetConcat(a: seq<Edge>, b: seq<Edge>)
    ensures EdgeSet(a + b) == EdgeSet(a) + EdgeSet(b)
  {
  }

  method InfoEdgeList(p: Plan, del: seq<DeletableInfo>, inst: seq<InstallableInfo>, i: InstallableInfo)
    returns (list: seq<Edge>)
    ensures EdgeSet(list) == EdgesOf(p.ops.Keys, del, inst, i)
  {
    list := [];
    if i.mustInstall == InstallNone { return; }
    var deps := Deps(i);
    for k := 0 to |deps|
      invariant EdgeSet(list) == InfoEdges(p.ops.Keys, del, inst, i, deps, k)
    {
      var t := FindDeployTarget(p, del, inst, deps[k], i.stage);
      if t.Some? {
        EdgeSetConcat(list, [(t.value, DeployOp(i).ID())]);
        list := list + [(t.value, DeployOp(i).ID())];
      }
    }
  }

  method DeployEdgeList(p: Plan, del: seq<DeletableInfo>, inst: seq<InstallableInfo>) returns (list: seq<Edge>)
    ensures EdgeSet(list) == DeployDepEdges(p.ops.Keys, del, inst, |inst|)
  {
    list := [];
    for n := 0 to |inst|
      invariant EdgeSet(list) == DeployDepEdges(p.ops.Keys, del, inst, n)
    {
      var more := InfoEdgeList(p, del, inst, inst[n]);
      EdgeSetConcat(list, more);
      list := list + more;
    }
  }

  /** Makes every resource wait for what it depends upon. Every lookup succeeds, so the only
      reason to fail is a cycle. */
  method ConnectInternalDeployDependencies(p: Plan, inst: seq<InstallableInfo>, del: seq<DeletableInfo>)
    returns (r: Outcome)
    requires p.Valid() && TargetsIn(p.ops.Keys, inst, del)
    modifies p`edges
    ensures p.Valid()
    ensures r.Ok? <==> Acyclic(old(p.edges) + DeployDepEdges(p.ops.Keys, del, inst, |inst|))
    ensures r.Ok? ==> p.edges == old(p.edges) + DeployDepEdges(p.ops.Keys, del, inst, |inst|)
  {
    var list := DeployEdgeList(p, del, inst);
    DeployDepEdgesShaped(p.ops.Keys, del, inst, |inst|);
    ShapedWithin(p.ops.Keys, inst, del, EdgeSet(list));
    r := p.ConnectEach(list);
  }

  method JoinTo(from: seq<OpID>, to: OpID) returns (list: seq<Edge>)
    ensures EdgeSet(list) == set t | t in from :: (t, to)
  {
    list := [];
    for n := 0 to |from|
      invariant EdgeSet(list) == set t | t in from[..n] :: (t, to)
    {
      assert from[..n + 1] == from[..n] + [from[n]];
      EdgeSetConcat(list, [(from[n], to)]);
      list := list + [(from[n], to)];
    }
    assert from[..|from|] == from;
  }

  method DeletedEdgeList(p: Plan, del: seq<DeletableInfo>, inst: seq<InstallableInfo>, i: DeletableInfo)
    returns (list: seq<Edge>)
    ensures EdgeSet(list) == DeletedEdges(p.ops.Keys, del, inst, i, |i.deps|)
  {
    list := [];
    for k := 0 to |i.deps|
      invariant EdgeSet(list) == DeletedEdges(p.ops.Keys, del, inst, i, k)
    {
      var found := FindTrackAbsenceOpInStage(p, del, inst, i.deps[k], i.stage);
      var more := JoinTo(found, DeleteID(i));
      EdgeSetConcat(list, more);
      list := list + more;
    }
  }

  method DeleteEdgeList(p: Plan, del: seq<DeletableInfo>, inst: seq<InstallableInfo>) returns (list: seq<Edge>)
    ensures EdgeSet(list) == DeleteDepEdges(p.ops.Keys, del, inst, |del|)
  {
    list := [];
    for n := 0 to |del|
      invariant EdgeSet(list) == DeleteDepEdges(p.ops.Keys, del, inst, n)
    {
      if del[n].mustDelete {
        var more := DeletedEdgeList(p, del, inst, del[n]);
        EdgeSetConcat(list, more);
        list := list + more;
      }
    }
  }

  /** Makes every deletion wait for the absence of what it depends upon. */
  method ConnectInternalDeleteDependencies(p: Plan, del: seq<DeletableInfo>, inst: seq<InstallableInfo>)
    returns (r: Outcome)
    requires p.Valid() && TargetsIn(p.ops.Keys, inst, del)
    modifies p`edges
    ensures p.Valid()
    ensures r.Ok? <==> Acyclic(old(p.edges) + DeleteDepEdges(p.ops.Keys, del, inst, |del|))
    ensures r.Ok? ==> p.edges == old(p.edges) + DeleteDepEdges(p.ops.Keys, del, inst, |del|)
  {
    var list := DeleteEdgeList(p, del, inst);
    DeleteDepEdgesShaped(p.ops.Keys, del, inst, |del|);
    ShapedWithin(p.ops.Keys, inst, del, EdgeSet(list));
    r := p.ConnectEach(list);
  }
}
