/** When the operations of a plan collide (pkg/plan/plan.go, pkg/plan/plan_build.go), said of the
    infos: by resource, iteration and what is to be done with it. */
module Collisions {
  import opened Operations
  import opened PlanGraph
  import opened Chains
  import opened ResourceInfo
  import opened ReleaseInfo
  import opened PlanRequest
  import opened PlanBuild
  import opened Builder
  import opened PlanProperties

  // ----- what is in a graph when a step comes -----

  lemma {:induction false} StepsThere(g: Graph, c: Chain, n: nat, id: OpID)
    requires n <= |c|
    ensures id in AfterSteps(g, c, n).ops <==> id in g.ops || exists i :: 0 <= i < n && c[i].op.ID() == id
    decreases n
  {
    if n > 0 { StepsThere(g, c, n - 1, id); }
  }

  ghost predicate InChains(cs: seq<Chain>, k: nat, id: OpID)
    requires k <= |cs|
  {
    exists m, i :: 0 <= m < k && 0 <= i < |cs[m]| && cs[m][i].op.ID() == id
  }

  lemma {:induction false} ChainsThere(g: Graph, cs: seq<Chain>, k: nat, id: OpID)
    requires k <= |cs|
    ensures id in AfterChains(g, cs, k).ops <==> id in g.ops || InChains(cs, k, id)
    decreases k
  {
    if k > 0 {
      ChainsThere(g, cs, k - 1, id);
      StepsThere(AfterChains(g, cs, k - 1), cs[k - 1], |cs[k - 1]|, id);
    }
  }

  /** The step comes with the ID of an earlier step or of something in the graph. */
  ghost predicate Collides(g: Graph, cs: seq<Chain>, k: nat, i: nat)
    requires k < |cs| && i < |cs[k]|
  {
    var id := cs[k][i].op.ID();
    && !cs[k][i].skipOnDuplicate
    && (id in g.ops || InChains(cs, k, id) || exists j :: 0 <= j < i && cs[k][j].op.ID() == id)
  }

  ghost predicate StepFresh(g: Graph, c: Chain, i: nat)
    requires i < |c|
  {
    c[i].op.ID() in AfterSteps(g, c, i).ops ==> c[i].skipOnDuplicate
  }

  lemma {:induction false} StepsFreshIff(g: Graph, c: Chain, n: nat)
    requires n <= |c|
    ensures StepsFresh(g, c, n) <==> forall i :: 0 <= i < n ==> StepFresh(g, c, i)
    decreases n
  {
    if n > 0 {
      StepsFreshIff(g, c, n - 1);
      assert StepsFresh(g, c, n) <==> StepsFresh(g, c, n - 1) && StepFresh(g, c, n - 1);
    }
  }

  lemma {:induction false} ChainsFreshIff(g: Graph, cs: seq<Chain>, k: nat)
    requires k <= |cs|
    ensures ChainsFresh(g, cs, k) <==> forall m :: 0 <= m < k ==> Fresh(AfterChains(g, cs, m), cs[m])
    decreases k
  {
    if k > 0 { ChainsFreshIff(g, cs, k - 1); }
  }

  lemma FreshIffNoStepCollides(g: Graph, cs: seq<Chain>, k: nat)
    requires k < |cs|
    ensures Fresh(AfterChains(g, cs, k), cs[k]) <==> forall i :: 0 <= i < |cs[k]| ==> !Collides(g, cs, k, i)
  {
    var f, c := AfterChains(g, cs, k), cs[k];
    StepsFreshIff(f, c, |c|);
    forall i | 0 <= i < |c| ensures StepFresh(f, c, i) <==> !Collides(g, cs, k, i) {
      StepsThere(f, c, i, c[i].op.ID());
      ChainsThere(g, cs, k, c[i].op.ID());
    }
  }

  /** Chains are added without a collision iff no step collides. */
  lemma AllFreshIff(g: Graph, cs: seq<Chain>)
    ensures AllFresh(g, cs) <==> forall k, i :: 0 <= k < |cs| && 0 <= i < |cs[k]| ==> !Collides(g, cs, k, i)
  {
    ChainsFreshIff(g, cs, |cs|);
    forall k | 0 <= k < |cs|
      ensures Fresh(AfterChains(g, cs, k), cs[k]) <==> forall i :: 0 <= i < |cs[k]| ==> !Collides(g, cs, k, i)
    {
      FreshIffNoStepCollides(g, cs, k);
    }
  }

  // ----- what collides, said of the infos -----

  /** Two infos of one resource and iteration of which the same is asked. */
  ghost predicate Clash(a: InstallableInfo, b: InstallableInfo) {
    && a.res.id == b.res.id && a.iteration == b.iteration
    && (|| (a.mustInstall != InstallNone && a.mustInstall == b.mustInstall)
        || (a.mustTrackReadiness && b.mustTrackReadiness)
        || (a.mustDeleteOnSuccess && b.mustDeleteOnSuccess))
  }

  /** The resource is to be deleted, and to be cleaned up after its first installation. */
  ghost predicate DeletedTwice(d: DeletableInfo, i: InstallableInfo) {
    d.mustDelete && i.mustDeleteOnSuccess && i.iteration == 0 && d.id == i.res.id
  }

  ghost predicate DistinctOps(q: Request) {
    && (forall k, m :: 0 <= k < m < |q.del| && q.del[k].mustDelete && q.del[m].mustDelete ==>
      q.del[k].id != q.del[m].id)
    && (forall k, m :: 0 <= k < m < |q.inst| ==> !Clash(q.inst[k], q.inst[m]))
    && (forall k, m :: 0 <= k < |q.del| && 0 <= m < |q.inst| ==> !DeletedTwice(q.del[k], q.inst[m]))
  }

  /** Each step of an install chain is a shared tracking of presence, or one of the operations. */
  lemma InstallStepCases(i: InstallableInfo, n: nat)
    requires n < |InstallChain(i)|
    ensures var st := InstallChain(i)[n];
      if st.skipOnDuplicate then st.op.typ == TypeTrackPresence
      else st.op.typ != TypeTrackPresence && st.op.ID() == ResourceOpID(st.op.typ, i.iteration, i.res.id)
  {
  }

  /** A step with the ID of a step of another info. */
  lemma SameStepClashes(a: InstallableInfo, n: nat, b: InstallableInfo, m: nat)
    requires n < |InstallChain(a)| && m < |InstallChain(b)|
    requires !InstallChain(b)[m].skipOnDuplicate && InstallChain(a)[n].op.ID() == InstallChain(b)[m].op.ID()
    ensures Clash(a, b)
  {
    InstallStepCases(a, n);
    InstallStepCases(b, m);
    InstallChainOps(a, n);
    InstallChainOps(b, m);
  }

  /** Infos that clash have a step each with the same ID. */
  lemma ClashHasSteps(a: InstallableInfo, b: InstallableInfo) returns (n: nat, m: nat)
    requires Clash(a, b)
    ensures n < |InstallChain(a)| && m < |InstallChain(b)|
    ensures !InstallChain(b)[m].skipOnDuplicate && InstallChain(a)[n].op.ID() == InstallChain(b)[m].op.ID()
  {
    InstallSteps(a);
    InstallSteps(b);
    if a.mustInstall != InstallNone && a.mustInstall == b.mustInstall {
      n :| 0 <= n < |InstallChain(a)| && InstallChain(a)[n] == ChainStep(DeployOp(a), Some(DeployRef(a)), false);
      m :| 0 <= m < |InstallChain(b)| && InstallChain(b)[m] == ChainStep(DeployOp(b), Some(DeployRef(b)), false);
    } else if a.mustTrackReadiness && b.mustTrackReadiness {
      n :| 0 <= n < |InstallChain(a)| && InstallChain(a)[n] == ChainStep(ReadinessOp(a), Some(DeployRef(a)), false);
      m :| 0 <= m < |InstallChain(b)| && InstallChain(b)[m] == ChainStep(ReadinessOp(b), Some(DeployRef(b)), false);
    } else {
      n :| 0 <= n < |InstallChain(a)| && InstallChain(a)[n] == ChainStep(CleanupOp(a), CleanupRef(a), false);
      m :| 0 <= m < |InstallChain(b)| && InstallChain(b)[m] == ChainStep(CleanupOp(b), CleanupRef(b), false);
    }
  }

  /** The operations of one info do not collide with each other. */
  lemma OwnStepsDiffer(i: InstallableInfo, n: nat, m: nat)
    requires n < m < |InstallChain(i)| && !InstallChain(i)[m].skipOnDuplicate
    ensures InstallChain(i)[n].op.typ != InstallChain(i)[m].op.typ
  {
    ChainPositions(i);
    if n < |ExternalSteps(i)| {
      InstallStepCases(i, n);
      InstallStepCases(i, m);
    }
  }

  // ----- deletions -----

  lemma DeleteStepID(d: DeletableInfo, n: nat)
    requires n < |DeleteChain(d)|
    ensures d.mustDelete && !DeleteChain(d)[n].skipOnDuplicate
    ensures DeleteChain(d)[n].op.ID() == ResourceOpID(if n == 0 then TypeDelete else TypeTrackAbsence, 0, d.id)
  {
  }

  lemma DeletionsFreshIff(q: Request, cs: seq<Chain>)
    requires cs == DeleteChains(q.del)
    ensures AllFresh(Released(q), cs) <==>
      forall k, m :: 0 <= k < m < |q.del| && q.del[k].mustDelete && q.del[m].mustDelete ==> q.del[k].id != q.del[m].id
  {
    AllFreshIff(Released(q), cs);
    if AllFresh(Released(q), cs) {
      forall k, m | 0 <= k < m < |q.del| && q.del[k].mustDelete && q.del[m].mustDelete
        ensures q.del[k].id != q.del[m].id
      {
        if q.del[k].id == q.del[m].id { SecondDeletionCollides(q, cs, k, m); }
      }
    } else {
      var m, i :| 0 <= m < |cs| && 0 <= i < |cs[m]| && Collides(Released(q), cs, m, i);
      DeletionCollides(q, cs, m, i);
    }
  }

  lemma SecondDeletionCollides(q: Request, cs: seq<Chain>, k: nat, m: nat)
    requires cs == DeleteChains(q.del) && k < m < |cs|
    requires q.del[k].mustDelete && q.del[m].mustDelete && q.del[k].id == q.del[m].id
    ensures |cs[m]| > 0 && Collides(Released(q), cs, m, 0)
  {
    assert cs[k][0].op.ID() == cs[m][0].op.ID();
  }

  lemma DeletionCollides(q: Request, cs: seq<Chain>, m: nat, i: nat)
    requires cs == DeleteChains(q.del) && m < |cs| && i < |cs[m]| && Collides(Released(q), cs, m, i)
    ensures exists k :: 0 <= k < m && q.del[k].mustDelete && q.del[m].mustDelete && q.del[k].id == q.del[m].id
  {
    var id := cs[m][i].op.ID();
    DeleteStepID(q.del[m], i);
    ReleasedHasNoResource(q, id);
    assert forall j :: 0 <= j < i ==> cs[m][j].op.ID() != id;
    var k, j :| 0 <= k < m && 0 <= j < |cs[k]| && cs[k][j].op.ID() == id;
    DeleteStepID(q.del[k], j);
  }

  // ----- installations -----

  /** An operation that a deletion asks for. */
  ghost predicate IsDeletionOp(d: DeletableInfo, id: OpID) {
    && d.mustDelete
    && (id == ResourceOpID(TypeDelete, 0, d.id)
      || (d.mustTrackAbsence && id == ResourceOpID(TypeTrackAbsence, 0, d.id)))
  }

  lemma DeletionOps(d: DeletableInfo, id: OpID)
    ensures IsDeletionOp(d, id) <==> exists n :: 0 <= n < |DeleteChain(d)| && DeleteChain(d)[n].op.ID() == id
  {
    if IsDeletionOp(d, id) {
      var n := if id.typ == TypeDelete then 0 else 1;
      assert DeleteChain(d)[n].op.ID() == id;
    }
  }

  lemma DeletedThere(q: Request, id: OpID)
    requires id.config.ResourceKey?
    ensures id in Deleted(q).ops <==> exists k :: 0 <= k < |q.del| && IsDeletionOp(q.del[k], id)
  {
    var cs: seq<Chain> := DeleteChains(q.del);
    ReleasedHasNoResource(q, id);
    ChainsThere(Released(q), cs, |cs|, id);
    InDeleteChains(q.del, cs, id);
  }

  lemma InDeleteChains(del: seq<DeletableInfo>, cs: seq<Chain>, id: OpID)
    requires cs == DeleteChains(del)
    ensures InChains(cs, |cs|, id) <==> exists k :: 0 <= k < |del| && IsDeletionOp(del[k], id)
  {
    if InChains(cs, |cs|, id) {
      var k, n :| 0 <= k < |cs| && 0 <= n < |cs[k]| && cs[k][n].op.ID() == id;
      DeletionOps(del[k], id);
    }
    if k :| 0 <= k < |del| && IsDeletionOp(del[k], id) {
      DeletionOps(del[k], id);
      var n :| 0 <= n < |DeleteChain(del[k])| && DeleteChain(del[k])[n].op.ID() == id;
      assert cs[k][n].op.ID() == id;
    }
  }

  lemma DeletionOpClashes(d: DeletableInfo, i: InstallableInfo, n: nat)
    requires n < |InstallChain(i)| && !InstallChain(i)[n].skipOnDuplicate && IsDeletionOp(d, InstallChain(i)[n].op.ID())
    ensures DeletedTwice(d, i)
  {
    InstallStepCases(i, n);
    InstallChainOps(i, n);
  }

  lemma InstallCollides(q: Request, cs: seq<Chain>, m: nat, i: nat)
    requires cs == InstallChains(q.inst) && m < |cs| && i < |cs[m]| && Collides(Deleted(q), cs, m, i)
    ensures (exists k :: 0 <= k < m && Clash(q.inst[k], q.inst[m]))
      || (exists k :: 0 <= k < |q.del| && DeletedTwice(q.del[k], q.inst[m]))
  {
    var id := cs[m][i].op.ID();
    InstallStepCases(q.inst[m], i);
    if id in Deleted(q).ops {
      DeletedThere(q, id);
      var k :| 0 <= k < |q.del| && IsDeletionOp(q.del[k], id);
      DeletionOpClashes(q.del[k], q.inst[m], i);
    } else {
      OwnOrEarlier(q.inst, cs, m, i);
    }
  }

  lemma OwnOrEarlier(inst: seq<InstallableInfo>, cs: seq<Chain>, m: nat, i: nat)
    requires cs == InstallChains(inst) && m < |cs| && i < |cs[m]| && !cs[m][i].skipOnDuplicate
    requires InChains(cs, m, cs[m][i].op.ID()) || exists j :: 0 <= j < i && cs[m][j].op.ID() == cs[m][i].op.ID()
    ensures exists k :: 0 <= k < m && Clash(inst[k], inst[m])
  {
    forall j | 0 <= j < i ensures cs[m][j].op.typ != cs[m][i].op.typ { OwnStepsDiffer(inst[m], j, i); }
    var k, j :| 0 <= k < m && 0 <= j < |cs[k]| && cs[k][j].op.ID() == cs[m][i].op.ID();
    SameStepClashes(inst[k], j, inst[m], i);
  }

  lemma ClashCollides(q: Request, cs: seq<Chain>, k: nat, m: nat)
    requires cs == InstallChains(q.inst) && k < m < |cs| && Clash(q.inst[k], q.inst[m])
    ensures exists i :: 0 <= i < |cs[m]| && Collides(Deleted(q), cs, m, i)
  {
    var n, i := ClashHasSteps(q.inst[k], q.inst[m]);
    assert InChains(cs, m, cs[m][i].op.ID()) by { assert cs[k][n].op.ID() == cs[m][i].op.ID(); }
    assert Collides(Deleted(q), cs, m, i);
  }

  lemma DeletedTwiceCollides(q: Request, cs: seq<Chain>, k: nat, m: nat)
    requires cs == InstallChains(q.inst) && k < |q.del| && m < |cs| && DeletedTwice(q.del[k], q.inst[m])
    ensures exists i :: 0 <= i < |cs[m]| && Collides(Deleted(q), cs, m, i)
  {
    InstallSteps(q.inst[m]);
    var i :| 0 <= i < |cs[m]| && cs[m][i] == ChainStep(CleanupOp(q.inst[m]), CleanupRef(q.inst[m]), false);
    DeletedThere(q, cs[m][i].op.ID());
    assert IsDeletionOp(q.del[k], cs[m][i].op.ID());
    assert Collides(Deleted(q), cs, m, i);
  }

  lemma InstallsFreshIff(q: Request, cs: seq<Chain>)
    requires cs == InstallChains(q.inst)
    ensures AllFresh(Deleted(q), cs) <==>
      && (forall k, m :: 0 <= k < m < |q.inst| ==> !Clash(q.inst[k], q.inst[m]))
      && (forall k, m :: 0 <= k < |q.del| && 0 <= m < |q.inst| ==> !DeletedTwice(q.del[k], q.inst[m]))
  {
    AllFreshIff(Deleted(q), cs);
    if AllFresh(Deleted(q), cs) {
      forall k, m | 0 <= k < m < |q.inst| ensures !Clash(q.inst[k], q.inst[m]) {
        if Clash(q.inst[k], q.inst[m]) { ClashCollides(q, cs, k, m); }
      }
      forall k, m | 0 <= k < |q.del| && 0 <= m < |q.inst| ensures !DeletedTwice(q.del[k], q.inst[m]) {
        if DeletedTwice(q.del[k], q.inst[m]) { DeletedTwiceCollides(q, cs, k, m); }
      }
    } else {
      var m, i :| 0 <= m < |cs| && 0 <= i < |cs[m]| && Collides(Deleted(q), cs, m, i);
      InstallCollides(q, cs, m, i);
    }
  }

  /** A plan has no colliding operations iff no resource is deleted twice, and no two infos of one
      resource and iteration ask for the same. Dependencies do not matter. */
  lemma NoCollisionsIff(q: Request)
    requires CoversWeights(q.order, q.inst) && DistinctRevisions(q.rel)
    ensures NoCollisions(q) <==> DistinctOps(q)
  {
    FrameFits(q);
    NoCollisionsMeans(q);
    DeletionsFreshIff(q, DeleteChains(q.del));
    InstallsFreshIff(q, InstallChains(q.inst));
  }
}
