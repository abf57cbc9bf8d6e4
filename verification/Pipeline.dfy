/** From the answers of the cluster to the infos a plan is built from (pkg/plan/resource_info.go):
    what is decided for a resource, and what the passes over all resources make of it. */
module Pipeline {
  import opened Operations
  import opened ResourceInfo

  /** A resource in one of its stages, its live object, and what was decided for it. */
  datatype Case = Case(res: Resource, live: Option<LiveMeta>, decision: Decision, prevFailed: bool, stage: Stage)

  /** The case that follows from what the cluster answers. */
  function Decide(res: Resource, live: Option<LiveMeta>, dryApply: DryApply, diff: Diff, prevFailed: bool,
                  stage: Stage): Case {
    Case(res, live, ResourceInstallType(res, live.Some?, dryApply, diff, ResolvePolicies(res, live)), prevFailed, stage)
  }

  /** The case follows from some answers of the cluster. */
  ghost predicate Observed(c: Case) {
    exists dryApply, diff :: c == Decide(c.res, c.live, dryApply, diff, c.prevFailed, c.stage)
  }

  /** The decision is no error, and the clean-up it asks for has a stage. */
  predicate Decidable(c: Case) {
    && c.decision.Decided? && DeployStage(c.stage)
    && (c.stage == PrePreInstall ==>
      !MustDeleteOnSuccess(c.res, c.live, c.decision.installType, c.decision.skippedByPolicy))
  }

  function InfoFor(c: Case): InstallableInfo
    requires Decidable(c)
  {
    BuildInfo(c.res, c.live, c.decision, c.prevFailed, c.stage)
  }

  ghost predicate DecidedFrom(cs: seq<Case>, s: seq<InstallableInfo>) {
    |s| == |cs| && forall i {:trigger cs[i]} :: 0 <= i < |cs| ==>
      Observed(cs[i]) && Decidable(cs[i]) && s[i] == InfoFor(cs[i])
  }

  // ----- what a case asks for -----

  ghost predicate Installed(c: Case) {
    c.decision.Decided? && c.decision.installType != InstallNone
  }

  ghost predicate Skipped(c: Case) {
    c.decision.Decided? && c.decision.skippedByPolicy
  }

  /** Neither the resource nor its live object forbids deleting it. */
  ghost predicate DeletionAllowed(c: Case) {
    && SkipDelete !in c.res.policies
    && (c.live.Some? ==> c.live.value.policiesValid && SkipDelete !in c.live.value.policies)
  }

  /** The resource is cleaned up once it has succeeded. */
  ghost predicate CleanedUp(c: Case) {
    !Skipped(c) && c.res.deleteOnSucceeded && DeletionAllowed(c) && (Installed(c) || c.live.Some?)
  }

  /** Readiness is tracked for the sake of the resource itself: of what is installed, and of what is
      there unchanged after a failed release or before a clean-up. */
  ghost predicate Watched(c: Case) {
    && !Skipped(c) && !c.res.isCRD && !c.res.trackNonBlocking
    && (Installed(c) || (c.live.Some? && (c.prevFailed || CleanedUp(c))))
  }

  /** Some case of the stage has a manual dependency on the resource being ready. */
  ghost predicate Awaited(cs: seq<Case>, c: Case) {
    exists k, d :: 0 <= k < |cs| && d in cs[k].res.manualDeps && d.state == Ready && cs[k].stage == c.stage
      && c.res.id in d.matches
  }

  ghost predicate Tracked(cs: seq<Case>, c: Case) {
    Watched(c) || (!c.res.isCRD && (Installed(c) || c.live.Some?) && Awaited(cs, c))
  }

  /** The resource is deleted should it fail to become ready. */
  ghost predicate RemovedOnFailure(c: Case) {
    c.res.deleteOnFailed && DeletionAllowed(c) && Installed(c) && Watched(c)
  }

  // ----- what an earlier case of the same resource changes -----

  ghost predicate FirstCase(os: seq<Case>, k: nat)
    requires k < |os|
  {
    forall j :: 0 <= j < k ==> os[j].res.id != os[k].res.id
  }

  ghost function Iteration(os: seq<Case>, k: nat): nat
    requires k < |os|
  {
    if FirstCase(os, k) then 0 else 1
  }

  /** The first case of the resource is cleaned up, so that the later one finds nothing there. */
  ghost predicate GoneBefore(os: seq<Case>, k: nat)
    requires k < |os|
  {
    exists j :: 0 <= j < k && os[j].res.id == os[k].res.id && FirstCase(os, j) && CleanedUp(os[j])
  }

  ghost function InstallOf(os: seq<Case>, k: nat): InstallType
    requires k < |os|
  {
    if !Installed(os[k]) then InstallNone
    else if GoneBefore(os, k) && SkipCreate !in os[k].res.policies then InstallCreate
    else os[k].decision.installType
  }

  // ----- what the passes make of the cases -----

  /** `os` is `cs` in the order of stages, each case once. */
  ghost predicate InPlanOrder(cs: seq<Case>, os: seq<Case>, p: seq<nat>) {
    && |p| == |cs| == |os|
    && (forall k :: 0 <= k < |p| ==> p[k] < |cs| && os[k] == cs[p[k]])
    && (forall i, k :: 0 <= i < k < |p| ==> p[i] != p[k])
    && (forall v :: 0 <= v < |cs| ==> v in p)
    && (forall i, k :: 0 <= i < k < |os| ==> StageIndex(os[i].stage) <= StageIndex(os[k].stage))
  }

  /** The info asks for exactly what the case at place `k` asks for. */
  ghost predicate Realizes(os: seq<Case>, k: nat, i: InstallableInfo)
    requires k < |os|
  {
    && i.res == os[k].res && i.live == os[k].live && i.stage == os[k].stage
    && i.iteration == Iteration(os, k) && i.mustInstall == InstallOf(os, k)
    && (i.mustTrackReadiness <==> Tracked(os, os[k]))
    && (i.mustDeleteOnSuccess <==> CleanedUp(os[k])) && (i.mustDeleteOnFailed <==> RemovedOnFailure(os[k]))
    && (CleanedUp(os[k]) ==> i.deleteStage.Some? && StageIndex(i.deleteStage.value) == StageIndex(i.stage) + 1)
  }

  ghost predicate AllRealized(os: seq<Case>, t: seq<InstallableInfo>) {
    |t| == |os| && forall k :: 0 <= k < |os| ==> Realizes(os, k, t[k]) && Sound(t[k])
  }

  lemma CaseSound(c: Case)
    requires Observed(c) && Decidable(c)
    ensures Sound(InfoFor(c))
  {
    var dryApply, diff :| c == Decide(c.res, c.live, dryApply, diff, c.prevFailed, c.stage);
    DecisionSound(c.res, c.live, dryApply, diff, c.prevFailed, c.stage);
  }

  lemma CasesSound(cs: seq<Case>, s: seq<InstallableInfo>)
    requires DecidedFrom(cs, s)
    ensures forall i :: 0 <= i < |s| ==> Sound(s[i])
  {
    forall i | 0 <= i < |s| ensures Sound(s[i]) { CaseSound(cs[i]); }
  }

  /** What an info says before the passes. */
  lemma InfoMeans(c: Case)
    requires Decidable(c)
    ensures var i := InfoFor(c);
      && i.res == c.res && i.live == c.live && i.stage == c.stage && i.iteration == 0
      && i.mustInstall == c.decision.installType && (i.mustTrackReadiness <==> Watched(c))
      && (i.mustDeleteOnSuccess <==> CleanedUp(c)) && (i.mustDeleteOnFailed <==> RemovedOnFailure(c))
      && (CleanedUp(c) ==> i.deleteStage.Some? && StageIndex(i.deleteStage.value) == StageIndex(i.stage) + 1)
  {
  }

  lemma AwaitedMeans(cs: seq<Case>, s: seq<InstallableInfo>, v: nat)
    requires DecidedFrom(cs, s) && v < |cs|
    ensures AwaitedReady(s, s[v]) <==> Awaited(cs, cs[v])
  {
    forall k | 0 <= k < |cs| ensures s[k].res == cs[k].res && s[k].stage == cs[k].stage { InfoMeans(cs[k]); }
    if AwaitedReady(s, s[v]) {
      var k, d :| 0 <= k < |s| && d in s[k].res.manualDeps && d.state == Ready && s[k].stage == s[v].stage
        && s[v].res.id in d.matches;
      assert d in cs[k].res.manualDeps;
    }
    if Awaited(cs, cs[v]) {
      var k, d :| 0 <= k < |cs| && d in cs[k].res.manualDeps && d.state == Ready && cs[k].stage == cs[v].stage
        && cs[v].res.id in d.matches;
      assert d in s[k].res.manualDeps;
    }
  }

  /** Forcing turns tracking on exactly for what is awaited. */
  lemma ForcedMeans(cs: seq<Case>, s: seq<InstallableInfo>, v: nat)
    requires DecidedFrom(cs, s) && v < |cs|
    ensures AllForced(s)[v] == s[v].(mustTrackReadiness := AllForced(s)[v].mustTrackReadiness)
    ensures AllForced(s)[v].mustTrackReadiness <==> Tracked(cs, cs[v])
  {
    InfoMeans(cs[v]);
    AwaitedMeans(cs, s, v);
  }

  lemma TrackedInOrder(cs: seq<Case>, os: seq<Case>, p: seq<nat>, c: Case)
    requires InPlanOrder(cs, os, p)
    ensures Tracked(os, c) <==> Tracked(cs, c)
  {
    if Awaited(cs, c) {
      var v, d :| 0 <= v < |cs| && d in cs[v].res.manualDeps && d.state == Ready && cs[v].stage == c.stage
        && c.res.id in d.matches;
      var k := PositionOf(p, v);
      assert d in os[k].res.manualDeps;
    }
    if Awaited(os, c) {
      var k, d :| 0 <= k < |os| && d in os[k].res.manualDeps && d.state == Ready && os[k].stage == c.stage
        && c.res.id in d.matches;
      assert d in cs[p[k]].res.manualDeps;
    }
  }

  /** Sorted, but not yet iterated. */
  lemma SortedMeans(cs: seq<Case>, s: seq<InstallableInfo>, sorted: seq<InstallableInfo>, os: seq<Case>, p: seq<nat>,
                    k: nat)
    requires DecidedFrom(cs, s) && StageOrderOf(AllForced(s), sorted, p) && InPlanOrder(cs, os, p) && k < |os|
    ensures var i := sorted[k];
      && i.res == os[k].res && i.live == os[k].live && i.stage == os[k].stage && i.iteration == 0
      && Decidable(os[k]) && i.mustInstall == os[k].decision.installType
      && (i.mustTrackReadiness <==> Tracked(os, os[k]))
      && (i.mustDeleteOnSuccess <==> CleanedUp(os[k])) && (i.mustDeleteOnFailed <==> RemovedOnFailure(os[k]))
      && (CleanedUp(os[k]) ==> i.deleteStage.Some? && StageIndex(i.deleteStage.value) == StageIndex(i.stage) + 1)
  {
    InfoMeans(cs[p[k]]);
    ForcedMeans(cs, s, p[k]);
    TrackedInOrder(cs, os, p, os[k]);
  }

  lemma {:induction false} FirstOf(os: seq<Case>, k: nat) returns (j: nat)
    requires k < |os|
    ensures j <= k && os[j].res.id == os[k].res.id && FirstCase(os, j)
    decreases k
  {
    j := k;
    if i :| 0 <= i < k && os[i].res.id == os[k].res.id { j := FirstOf(os, i); }
  }

  lemma FirstIsEarliest(os: seq<Case>, sorted: seq<InstallableInfo>, k: nat)
    requires |sorted| == |os| && (forall i :: 0 <= i < |os| ==> sorted[i].res == os[i].res) && k < |os|
    ensures FirstCase(os, k) <==> Earliest(sorted, k)
  {
  }

  lemma OneFirst(os: seq<Case>, k: nat, j: nat)
    requires j < k < |os| && os[j].res.id == os[k].res.id && FirstCase(os, j)
    ensures !FirstCase(os, k) && (GoneBefore(os, k) <==> CleanedUp(os[j]))
  {
    if GoneBefore(os, k) {
      var m :| 0 <= m < k && os[m].res.id == os[k].res.id && FirstCase(os, m) && CleanedUp(os[m]);
      assert m == j;
    }
  }

  lemma IteratedMeans(cs: seq<Case>, s: seq<InstallableInfo>, sorted: seq<InstallableInfo>, t: seq<InstallableInfo>,
                      os: seq<Case>, p: seq<nat>, k: nat)
    requires DecidedFrom(cs, s) && StageOrderOf(AllForced(s), sorted, p) && InPlanOrder(cs, os, p)
    requires IteratedFrom(sorted, t) && k < |os|
    ensures Realizes(os, k, t[k])
  {
    forall i | 0 <= i < |os| ensures sorted[i].res == os[i].res { SortedMeans(cs, s, sorted, os, p, i); }
    SortedMeans(cs, s, sorted, os, p, k);
    var j := FirstOf(os, k);
    FirstIsEarliest(os, sorted, j);
    EarliestStays(sorted, t, j);
    if j < k {
      SortedMeans(cs, s, sorted, os, p, j);
      OneFirst(os, k, j);
      LaterIsRemade(sorted, t, j, k);
    } else {
      assert !GoneBefore(os, k);
    }
  }

  /** The passes make of every decided case one info that asks for exactly what the case asks for. */
  lemma PassesRealize(cs: seq<Case>, s: seq<InstallableInfo>, t: seq<InstallableInfo>)
      returns (os: seq<Case>, p: seq<nat>)
    requires DecidedFrom(cs, s) && FinishedFrom(s, t)
    ensures InPlanOrder(cs, os, p) && AllRealized(os, t)
  {
    var sorted: seq<InstallableInfo>;
    sorted, p :| StageOrderOf(AllForced(s), sorted, p) && IteratedFrom(sorted, t);
    CasesSound(cs, s);
    SoundThroughout(s, sorted, t, p);
    os := seq(|p|, k requires 0 <= k < |p| => cs[p[k]]);
    forall k | 0 <= k < |p| ensures os[k].stage == sorted[k].stage {
      InfoMeans(cs[p[k]]);
      ForcedMeans(cs, s, p[k]);
    }
    assert InPlanOrder(cs, os, p);
    forall k | 0 <= k < |os| ensures Realizes(os, k, t[k]) { IteratedMeans(cs, s, sorted, t, os, p, k); }
  }

  lemma SoundThroughout(s: seq<InstallableInfo>, sorted: seq<InstallableInfo>, t: seq<InstallableInfo>, p: seq<nat>)
    requires (forall i :: 0 <= i < |s| ==> Sound(s[i])) && StageOrderOf(AllForced(s), sorted, p)
    requires IteratedFrom(sorted, t)
    ensures forall k :: 0 <= k < |t| ==> Sound(t[k])
  {
    forall i | 0 <= i < |s| ensures Sound(AllForced(s)[i]) { ForcedSound(s, i); }
    ReorderedSound(AllForced(s), sorted, p, t);
  }
}
