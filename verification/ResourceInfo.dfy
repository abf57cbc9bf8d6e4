/** The decisions made for every resource before a plan is built (pkg/plan/resource_info.go).
    Cluster answers (the live object, the dry-run apply, the diff) are inputs. */
module ResourceInfo {
  import opened Operations

  datatype Policy = SkipCreate | SkipUpdate | SkipRecreate | SkipDelete

  datatype ResourceState = Absent | Present | Ready

  /** A dependency on whatever resources of the release have an ID in `matches`. */
  datatype Dependency = Dependency(matches: set<string>, state: ResourceState)

  datatype InstallType = InstallNone | InstallCreate | InstallRecreate | InstallUpdate | InstallApply

  /** A resource of the chart, with what its annotations and its kind ask for. */
  datatype Resource = Resource(
    id: string,
    isCRD: bool,
    weight: Option<int>,
    policies: set<Policy>,
    recreate: bool,
    recreateOnImmutable: bool,
    deleteOnSucceeded: bool,
    deleteOnFailed: bool,
    trackNonBlocking: bool,
    externalDeps: seq<string>,
    autoDeps: seq<Dependency>,
    manualDeps: seq<Dependency>)

  /** The live object's policies, and whether its policy annotations are valid at all. */
  datatype LiveMeta = LiveMeta(policiesValid: bool, policies: set<Policy>)

  datatype InstallableInfo = InstallableInfo(
    res: Resource,
    live: Option<LiveMeta>,
    mustInstall: InstallType,
    mustDeleteOnSuccess: bool,
    mustDeleteOnFailed: bool,
    mustTrackReadiness: bool,
    stage: Stage,
    deleteStage: Option<Stage>,
    iteration: nat)

  datatype DryApply = Applied | ImmutableErr | OtherErr
  datatype Diff = Same | Differs | CompareErr

  datatype Decision = Decided(installType: InstallType, skippedByPolicy: bool) | ImmutableChange | DiffFailed

  /** Policies that decide the install type: the local ones, or a live skip-delete. */
  function ResolvePolicies(res: Resource, live: Option<LiveMeta>): set<Policy> {
    if res.policies != {} || live.None? then res.policies else live.value.policies * {SkipDelete}
  }

  function ResourceInstallType(res: Resource, exists_: bool, dryApply: DryApply, diff: Diff,
                               policies: set<Policy>): Decision {
    if !exists_ then
      if SkipCreate in policies then Decided(InstallNone, true) else Decided(InstallCreate, false)
    else
      var immutable := dryApply == ImmutableErr;
      if SkipRecreate in policies && (res.recreate || (immutable && (res.recreateOnImmutable || !res.recreate))) then
        Decided(InstallNone, true)
      else if immutable && !res.recreate && !res.recreateOnImmutable then
        ImmutableChange
      else if res.recreate || (immutable && res.recreateOnImmutable) then
        Decided(InstallRecreate, false)
      else if dryApply != Applied then
        if SkipCreate in policies
          || SkipUpdate in policies then Decided(InstallNone, true) else Decided(InstallApply, false)
      else
        match diff
        case CompareErr => DiffFailed
        case Differs => if SkipUpdate in policies then Decided(InstallNone, true) else Decided(InstallUpdate, false)
        case Same => Decided(InstallNone, false)
  }

  predicate LiveForbidsDelete(live: Option<LiveMeta>) {
    live.Some? && (!live.value.policiesValid || SkipDelete in live.value.policies)
  }

  predicate MustDeleteOnSuccess(res: Resource, live: Option<LiveMeta>, installType: InstallType,
                                skippedByPolicy: bool) {
    && !skippedByPolicy && res.deleteOnSucceeded && SkipDelete !in res.policies
    && !LiveForbidsDelete(live)
    && (installType == InstallNone ==> live.Some?)
  }

  predicate MustTrackReadiness(res: Resource, installType: InstallType, exists_: bool, prevFailed: bool,
                               deleteOnSuccess: bool, skippedByPolicy: bool) {
    && !skippedByPolicy && !res.isCRD && !res.trackNonBlocking
    && (installType == InstallNone ==> exists_ && (prevFailed || deleteOnSuccess))
  }

  predicate MustDeleteOnFailed(res: Resource, live: Option<LiveMeta>, installType: InstallType,
                               trackReadiness: bool, skippedByPolicy: bool) {
    && !skippedByPolicy && res.deleteOnFailed && SkipDelete !in res.policies
    && installType != InstallNone && trackReadiness && !LiveForbidsDelete(live)
  }

  /** Stages in which resources are deployed. */
  predicate DeployStage(s: Stage) {
    s in {PrePreInstall, PreInstall, Install, PostInstall, PostPostInstall}
  }

  /** The clean-up stage of a deploy stage; the pre-pre-install stage has none. */
  function StageDeleteOnSuccess(mustDelete: bool, s: Stage): Option<Stage>
    requires mustDelete ==> DeployStage(s) && s != PrePreInstall
  {
    if !mustDelete then None else
    match s
    case PreInstall => Some(PreUninstall)
    case Install => Some(Uninstall)
    case PostInstall => Some(PostUninstall)
    case _ => Some(PostPostUninstall)
  }

  /** The info of a resource in one of its stages, once its install type is decided. */
  function BuildInfo(res: Resource, live: Option<LiveMeta>, d: Decision, prevFailed: bool,
                     stage: Stage): InstallableInfo
    requires d.Decided? && DeployStage(stage)
    requires stage == PrePreInstall ==> !MustDeleteOnSuccess(res, live, d.installType, d.skippedByPolicy)
  {
    var onSuccess := MustDeleteOnSuccess(res, live, d.installType, d.skippedByPolicy);
    var track := MustTrackReadiness(res, d.installType, live.Some?, prevFailed, onSuccess, d.skippedByPolicy);
    InstallableInfo(res, live, d.installType, onSuccess,
                    MustDeleteOnFailed(res, live, d.installType, track, d.skippedByPolicy),
                    track, stage, StageDeleteOnSuccess(onSuccess, stage), 0)
  }

  /** What every later step keeps of an info: policies are obeyed and its fields fit together. */
  ghost predicate Sound(i: InstallableInfo) {
    && PoliciesObeyed(i)
    && DeployStage(i.stage)
    && (i.deleteStage.Some? <==> i.mustDeleteOnSuccess)
    && (i.mustDeleteOnSuccess ==> i.stage != PrePreInstall && i.deleteStage == StageDeleteOnSuccess(true, i.stage))
    && (i.mustDeleteOnFailed ==> i.mustTrackReadiness && i.mustInstall != InstallNone)
  }

  ghost predicate PoliciesObeyed(i: InstallableInfo) {
    && (i.mustInstall == InstallCreate ==> SkipCreate !in i.res.policies)
    && (i.mustInstall == InstallUpdate ==> SkipUpdate !in i.res.policies)
    && (i.mustInstall == InstallRecreate ==> SkipRecreate !in i.res.policies)
    && (i.mustInstall == InstallApply ==> SkipCreate !in i.res.policies && SkipUpdate !in i.res.policies)
    && (i.mustDeleteOnSuccess || i.mustDeleteOnFailed ==> SkipDelete !in i.res.policies && !LiveForbidsDelete(i.live))
  }

  lemma DecisionSound(res: Resource, live: Option<LiveMeta>, dryApply: DryApply, diff: Diff, prevFailed: bool,
                      stage: Stage)
    requires DeployStage(stage)
    requires ResourceInstallType(res, live.Some?, dryApply, diff, ResolvePolicies(res, live)).Decided?
    requires
      var d := ResourceInstallType(res, live.Some?, dryApply, diff, ResolvePolicies(res, live));
      stage == PrePreInstall ==> !MustDeleteOnSuccess(res, live, d.installType, d.skippedByPolicy)
    ensures
      var d := ResourceInstallType(res, live.Some?, dryApply, diff, ResolvePolicies(res, live));
      Sound(BuildInfo(res, live, d, prevFailed, stage))
  {
  }

  /** When each way of installing is chosen, and when none can be. */
  lemma InstallTypeExactly(res: Resource, exists_: bool, dryApply: DryApply, diff: Diff, p: set<Policy>)
    ensures var d := ResourceInstallType(res, exists_, dryApply, diff, p);
      var immutable := dryApply == ImmutableErr;
      var recreate := exists_ && (res.recreate || (immutable && res.recreateOnImmutable));
      var refused := exists_ && immutable && !recreate;
      && (d == Decided(InstallCreate, false) <==> !exists_ && SkipCreate !in p)
      && (d == Decided(InstallRecreate, false) <==> recreate && SkipRecreate !in p)
      && (d == ImmutableChange <==> refused && SkipRecreate !in p)
      && (d == Decided(InstallApply, false) <==>
        exists_ && !recreate && dryApply == OtherErr && SkipCreate !in p && SkipUpdate !in p)
      && (d == Decided(InstallUpdate, false) <==>
        exists_ && !recreate && dryApply == Applied && diff == Differs && SkipUpdate !in p)
      && (d == Decided(InstallNone, false) <==> exists_ && !recreate && dryApply == Applied && diff == Same)
      && (d == DiffFailed <==> exists_ && !recreate && dryApply == Applied && diff == CompareErr)
  {
  }

  /** Policies of the live object never decide how a resource is installed. */
  lemma OnlyLocalPoliciesDecide(res: Resource, live: Option<LiveMeta>, dryApply: DryApply, diff: Diff)
    ensures ResourceInstallType(res, live.Some?, dryApply, diff, ResolvePolicies(res, live)) ==
      ResourceInstallType(res, live.Some?, dryApply, diff, res.policies)
  {
  }

  // ----- forced readiness tracking -----

  /** Some info in the stage of `t` has a manual dependency on `t` being ready. */
  ghost predicate AwaitedReady(s: seq<InstallableInfo>, t: InstallableInfo) {
    exists k, d :: 0 <= k < |s| && d in s[k].res.manualDeps && d.state == Ready && s[k].stage == t.stage
      && t.res.id in d.matches
  }

  ghost predicate MustBeTracked(s: seq<InstallableInfo>, t: InstallableInfo) {
    !t.res.isCRD && (t.mustInstall != InstallNone || t.live.Some?) && AwaitedReady(s, t)
  }

  /** Everything that a ready dependency can wait for is tracked. */
  ghost predicate ReadyTargetsTracked(s: seq<InstallableInfo>) {
    forall i :: 0 <= i < |s| && MustBeTracked(s, s[i]) ==> s[i].mustTrackReadiness
  }

  ghost function Forced(s: seq<InstallableInfo>, t: InstallableInfo): InstallableInfo {
    if MustBeTracked(s, t) then t.(mustTrackReadiness := true) else t
  }

  datatype ReadyMatcher = ReadyMatcher(matches: set<string>, stage: Stage)

  ghost predicate MatcherOf(info: InstallableInfo, d: Dependency, m: ReadyMatcher) {
    d.state == Ready && m == ReadyMatcher(d.matches, info.stage)
  }

  method CollectReadyMatchers(infos: seq<InstallableInfo>) returns (ms: seq<ReadyMatcher>)
    ensures forall t :: AwaitedReady(infos, t) <==> exists m :: m in ms && m.stage == t.stage && t.res.id in m.matches
  {
    ms := [];
    for k := 0 to |infos|
      invariant forall m :: m in ms <==>
        exists i, d :: 0 <= i < k && d in infos[i].res.manualDeps && MatcherOf(infos[i], d, m)
    {
      var deps := infos[k].res.manualDeps;
      for n := 0 to |deps|
        invariant forall m :: m in ms <==>
          || (exists i, d :: 0 <= i < k && d in infos[i].res.manualDeps && MatcherOf(infos[i], d, m))
          || (exists d :: d in deps[..n] && MatcherOf(infos[k], d, m))
      {
        assert deps[..n + 1] == deps[..n] + [deps[n]];
        if deps[n].state == Ready {
          assert MatcherOf(infos[k], deps[n], ReadyMatcher(deps[n].matches, infos[k].stage));
          ms := ms + [ReadyMatcher(deps[n].matches, infos[k].stage)];
        }
      }
    }
    forall t ensures AwaitedReady(infos, t) <==> exists m :: m in ms && m.stage == t.stage && t.res.id in m.matches {
      if AwaitedReady(infos, t) {
        var k, d :| 0 <= k < |infos| && d in infos[k].res.manualDeps && d.state == Ready && infos[k].stage == t.stage
          && t.res.id in d.matches;
        assert ReadyMatcher(d.matches, infos[k].stage) in ms;
      }
    }
  }

  predicate SomeMatches(ms: seq<ReadyMatcher>, info: InstallableInfo) {
    exists m | m in ms :: m.stage == info.stage && info.res.id in m.matches
  }

  function ForceOne(ms: seq<ReadyMatcher>, info: InstallableInfo): InstallableInfo {
    if !info.res.isCRD && (info.mustInstall != InstallNone || info.live.Some?) && SomeMatches(ms, info)
    then info.(mustTrackReadiness := true) else info
  }

  /** Turns readiness tracking on, in place, for everything a manual ready dependency waits for. */
  method ForceReadinessTracking(infos: array<InstallableInfo>)
    modifies infos
    ensures forall i :: 0 <= i < infos.Length ==> infos[i] == Forced(old(infos[..]), old(infos[i]))
  {
    ghost var was := infos[..];
    var ms := CollectReadyMatchers(infos[..]);
    assert forall x :: ForceOne(ms, x) == Forced(was, x);
    if |ms| > 0 {
      ForceEach(infos, ms);
    }
  }

  method ForceEach(infos: array<InstallableInfo>, ms: seq<ReadyMatcher>)
    modifies infos
    ensures forall i :: 0 <= i < infos.Length ==> infos[i] == ForceOne(ms, old(infos[i]))
  {
    for i := 0 to infos.Length
      invariant forall k :: 0 <= k < i ==> infos[k] == ForceOne(ms, old(infos[k]))
      invariant forall k :: i <= k < infos.Length ==> infos[k] == old(infos[k])
    {
      infos[i] := ForceOne(ms, infos[i]);
    }
  }

  /** Two lists of infos that differ only in tracking, iteration and kind of installation. */
  ghost predicate SameShape(a: InstallableInfo, b: InstallableInfo) {
    && a.res == b.res && a.live == b.live && a.stage == b.stage && a.deleteStage == b.deleteStage
    && a.mustDeleteOnSuccess == b.mustDeleteOnSuccess && a.mustDeleteOnFailed == b.mustDeleteOnFailed
    && (a.mustInstall == InstallNone <==> b.mustInstall == InstallNone)
    && (a.mustTrackReadiness ==> b.mustTrackReadiness)
  }

  /** Every info of `t` is one of `s`, but for changes that keep its shape. */
  ghost predicate ShapedFrom(s: seq<InstallableInfo>, t: seq<InstallableInfo>, p: seq<nat>) {
    |p| == |t| && forall k :: 0 <= k < |t| ==> p[k] < |s| && SameShape(s[p[k]], t[k])
  }

  /** The order in which infos come does not matter to what is awaited. */
  lemma AwaitedStable(s: seq<InstallableInfo>, t: seq<InstallableInfo>, p: seq<nat>, x: InstallableInfo,
                      y: InstallableInfo)
    requires ShapedFrom(s, t, p) && SameShape(x, y) && MustBeTracked(t, y)
    ensures MustBeTracked(s, x)
  {
    var k, d :| 0 <= k < |t| && d in t[k].res.manualDeps && d.state == Ready && t[k].stage == y.stage
      && y.res.id in d.matches;
    var i := p[k];
    assert SameShape(s[i], t[k]);
    assert d in s[i].res.manualDeps && s[i].stage == x.stage && x.res.id in d.matches;
  }

  ghost function AllForced(s: seq<InstallableInfo>): seq<InstallableInfo> {
    seq(|s|, i requires 0 <= i < |s| => Forced(s, s[i]))
  }

  lemma ForcedShape(s: seq<InstallableInfo>, i: nat)
    requires i < |s|
    ensures SameShape(s[i], AllForced(s)[i])
    ensures MustBeTracked(s, s[i]) ==> AllForced(s)[i].mustTrackReadiness
  {
  }

  lemma ShapeTrans(a: InstallableInfo, b: InstallableInfo, c: InstallableInfo)
    requires SameShape(a, b) && SameShape(b, c)
    ensures SameShape(a, c)
  {
  }

  /** Forced tracking holds of any list made from the forced infos by reordering, and by changes
      that keep an info's shape. */
  lemma ForcedTargetsStayTracked(s: seq<InstallableInfo>, t: seq<InstallableInfo>, p: seq<nat>)
    requires ShapedFrom(AllForced(s), t, p)
    ensures ReadyTargetsTracked(t)
  {
    forall k | 0 <= k < |t| ensures SameShape(s[p[k]], t[k]) {
      ForcedShape(s, p[k]);
      ShapeTrans(s[p[k]], AllForced(s)[p[k]], t[k]);
    }
    forall k | 0 <= k < |t| && MustBeTracked(t, t[k]) ensures t[k].mustTrackReadiness {
      AwaitedStable(s, t, p, s[p[k]], t[k]);
      ForcedShape(s, p[k]);
      assert SameShape(AllForced(s)[p[k]], t[k]);
    }
  }

  // ----- iterations -----

  /** An earlier info has the ID of info `i`. */
  ghost predicate Seen(s: seq<InstallableInfo>, i: nat)
    requires i < |s|
  {
    exists j :: 0 <= j < i && s[j].res.id == s[i].res.id
  }

  /** Index of the first info with the ID of info `i`. */
  ghost function First(s: seq<InstallableInfo>, i: nat): (j: nat)
    requires i < |s|
    ensures j <= i && s[j].res.id == s[i].res.id && !Seen(s, j)
    ensures Seen(s, i) <==> j < i
    decreases i
  {
    if Seen(s, i) then var k :| 0 <= k < i && s[k].res.id == s[i].res.id; First(s, k) else i
  }

  /** What becomes of info `i`: later infos of a resource get iteration 1, and are created anew
      when the first one is cleaned up after its success. */
  ghost function IteratedInfo(s: seq<InstallableInfo>, i: nat): InstallableInfo
    requires i < |s|
  {
    if !Seen(s, i) then s[i]
    else s[i].(iteration := 1,
               mustInstall := if s[i].mustInstall != InstallNone && s[First(s, i)].mustDeleteOnSuccess
                 && SkipCreate !in s[i].res.policies
                              then InstallCreate else s[i].mustInstall)
  }

  ghost function Numbered(s: seq<InstallableInfo>, i: nat): InstallableInfo
    requires i < |s|
  {
    if Seen(s, i) then s[i].(iteration := 1) else s[i]
  }

  lemma FirstUnique(s: seq<InstallableInfo>, i: nat, j: nat)
    requires i < |s| && j < |s| && s[i].res.id == s[j].res.id && !Seen(s, j)
    ensures First(s, i) == j
  {
  }

  method AssignIterations(infos: array<InstallableInfo>)
    requires forall i :: 0 <= i < infos.Length ==> infos[i].iteration == 0
    modifies infos
    ensures forall i :: 0 <= i < infos.Length ==> infos[i] == Numbered(old(infos[..]), i)
  {
    ghost var was := infos[..];
    for i := 0 to infos.Length
      invariant forall k :: 0 <= k < i ==> infos[k] == Numbered(was, k)
      invariant forall k :: i <= k < infos.Length ==> infos[k] == was[k]
    {
      var j := 0;
      while j < i && infos[j].res.id != infos[i].res.id
        invariant 0 <= j <= i && forall k :: 0 <= k < j ==> was[k].res.id != was[i].res.id
      {
        j := j + 1;
      }
      if j < i {
        assert !Seen(was, j);
        infos[i] := infos[i].(iteration := infos[j].iteration + 1);
      }
    }
  }

  /** The previous iteration of a resource; it is always found. */
  method PreviousIteration(infos: seq<InstallableInfo>, i: nat, ghost was: seq<InstallableInfo>) returns (p: nat)
    requires i < |infos| == |was| && infos[i].iteration == 1
    requires forall k :: 0 <= k < |was| ==>
      infos[k].res == was[k].res && infos[k].iteration == if Seen(was, k) then 1 else 0
    ensures p == First(was, i)
  {
    p := 0;
    while !(infos[p].res.id == infos[i].res.id && infos[p].iteration == infos[i].iteration - 1)
      invariant p <= First(was, i)
      decreases i - p
    {
      assert p != First(was, i);
      p := p + 1;
    }
    FirstUnique(was, i, p);
  }

  function Rewrite(info: InstallableInfo, prev: InstallableInfo): InstallableInfo {
    if prev.mustDeleteOnSuccess && SkipCreate !in info.res.policies then info.(mustInstall := InstallCreate) else info
  }

  ghost predicate IteratedFrom(s: seq<InstallableInfo>, t: seq<InstallableInfo>) {
    && |t| == |s| && (forall i :: 0 <= i < |s| ==> s[i].iteration == 0)
    && forall i :: 0 <= i < |s| ==> t[i] == IteratedInfo(s, i)
  }

  /** The first `n` infos are final, the others only numbered. */
  ghost predicate Partway(infos: seq<InstallableInfo>, was: seq<InstallableInfo>, n: nat) {
    && |infos| == |was| && (forall k :: 0 <= k < |was| ==> was[k].iteration == 0)
    && forall k :: 0 <= k < |was| ==> infos[k] == if k < n then IteratedInfo(was, k) else Numbered(was, k)
  }

  /** Adjusts how info `i` is installed to what its previous iteration leaves behind. */
  method RewriteOne(infos: seq<InstallableInfo>, i: nat, ghost was: seq<InstallableInfo>) returns (r: InstallableInfo)
    requires i < |infos| && Partway(infos, was, i)
    ensures r == IteratedInfo(was, i) && Partway(infos[i := r], was, i + 1)
  {
    r := infos[i];
    if r.iteration > 0 && r.mustInstall != InstallNone {
      var p := PreviousIteration(infos, i, was);
      r := Rewrite(r, infos[p]);
    }
  }

  /** Gives repeated resources their iteration and adjusts how they are installed, in place. */
  method IterateInfos(infos: array<InstallableInfo>)
    requires forall i :: 0 <= i < infos.Length ==> infos[i].iteration == 0
    modifies infos
    ensures IteratedFrom(old(infos[..]), infos[..])
  {
    ghost var was := infos[..];
    AssignIterations(infos);
    assert Partway(infos[..], was, 0);
    for i := 0 to infos.Length
      invariant Partway(infos[..], was, i)
    {
      var cur := infos[..];
      var r := RewriteOne(cur, i, was);
      infos[i] := r;
      assert infos[..] == cur[i := r];
    }
  }

  ghost predicate UniqueIterations(s: seq<InstallableInfo>) {
    forall i, k :: 0 <= i < k < |s| ==> s[i].res.id != s[k].res.id || s[i].iteration != s[k].iteration
  }

  /** No resource comes a third time. */
  ghost predicate AtMostTwice(s: seq<InstallableInfo>) {
    forall i, j, k :: 0 <= i < j < k < |s| ==> !(s[i].res.id == s[j].res.id == s[k].res.id)
  }

  /** Iterations tell the infos of a resource apart iff no resource comes a third time. */
  lemma UniqueIffAtMostTwice(s: seq<InstallableInfo>, t: seq<InstallableInfo>)
    requires IteratedFrom(s, t)
    ensures UniqueIterations(t) <==> AtMostTwice(s)
  {
    if AtMostTwice(s) {
      forall i, k | 0 <= i < k < |t| && t[i].res.id == t[k].res.id ensures t[i].iteration != t[k].iteration {
        assert Seen(s, k);
        ghost var f := First(s, i);
        assert f == i;
      }
    } else {
      var i, j, k :| 0 <= i < j < k < |s| && s[i].res.id == s[j].res.id == s[k].res.id;
      assert Seen(s, j) && Seen(s, k);
      assert t[j].res.id == t[k].res.id && t[j].iteration == t[k].iteration;
    }
  }

  /** Iterating keeps every info sound, so no policy is broken by it, and keeps its shape. */
  lemma IteratedSound(s: seq<InstallableInfo>, t: seq<InstallableInfo>)
    requires IteratedFrom(s, t) && forall i :: 0 <= i < |s| ==> Sound(s[i])
    ensures forall i :: 0 <= i < |t| ==> Sound(t[i]) && SameShape(s[i], t[i])
  {
  }

  /** No info before `i` is of the same resource. */
  ghost predicate Earliest(s: seq<InstallableInfo>, i: nat)
    requires i < |s|
  {
    forall j :: 0 <= j < i ==> s[j].res.id != s[i].res.id
  }

  /** The earliest info of a resource stays as it is. */
  lemma EarliestStays(s: seq<InstallableInfo>, t: seq<InstallableInfo>, i: nat)
    requires IteratedFrom(s, t) && i < |s| && Earliest(s, i)
    ensures t[i] == s[i] && t[i].iteration == 0
  {
  }

  /** A later one is iteration 1 and keeps all else that was decided, except that what is installed
      is created anew when the earliest one is cleaned up and creating is not forbidden. */
  lemma LaterIsRemade(s: seq<InstallableInfo>, t: seq<InstallableInfo>, i: nat, k: nat)
    requires IteratedFrom(s, t) && i < k < |s| && s[i].res.id == s[k].res.id && Earliest(s, i)
    ensures t[k].iteration == 1 && t[k] == s[k].(iteration := 1, mustInstall := t[k].mustInstall)
    ensures t[i].mustDeleteOnSuccess && s[k].mustInstall != InstallNone && SkipCreate !in s[k].res.policies ==>
      t[k].mustInstall == InstallCreate
    ensures !(t[i].mustDeleteOnSuccess && s[k].mustInstall != InstallNone && SkipCreate !in s[k].res.policies) ==>
      t[k].mustInstall == s[k].mustInstall
  {
    assert Seen(s, k) && !Seen(s, i);
    FirstUnique(s, k, i);
  }

  // ----- all decision passes together -----

  ghost predicate StagesAscend(s: seq<InstallableInfo>) {
    forall i, k :: 0 <= i < k < |s| ==> StageIndex(s[i].stage) <= StageIndex(s[k].stage)
  }

  /** `t` lists `s` in the order `p`, which takes every index once. */
  ghost predicate Reordered(s: seq<InstallableInfo>, t: seq<InstallableInfo>, p: seq<nat>) {
    && |p| == |s| == |t|
    && (forall i :: 0 <= i < |p| ==> p[i] < |s| && t[i] == s[p[i]])
    && (forall i, k :: 0 <= i < k < |p| ==> p[i] != p[k])
    && (forall v :: 0 <= v < |s| ==> v in p)
  }

  /** `t` is `s` ordered by stage; how infos of one stage are ordered is left open. */
  ghost predicate StageOrderOf(s: seq<InstallableInfo>, t: seq<InstallableInfo>, p: seq<nat>) {
    Reordered(s, t, p) && StagesAscend(t)
  }

  lemma PositionOf(p: seq<nat>, v: nat) returns (i: nat)
    requires v in p
    ensures i < |p| && p[i] == v
  {
    i :| 0 <= i < |p| && p[i] == v;
  }

  /** An order with one more index in it still takes every index once. */
  lemma InsertedIndex(p: seq<nat>, k: nat)
    requires k <= |p| && forall i :: 0 <= i < |p| ==> p[i] < |p|
    requires forall i, j :: 0 <= i < j < |p| ==> p[i] != p[j]
    requires forall v :: 0 <= v < |p| ==> v in p
    ensures var p' := p[..k] + [|p|] + p[k..];
      (forall i, j :: 0 <= i < j < |p'| ==> p'[i] != p'[j]) && forall v :: 0 <= v < |p'| ==> v in p'
  {
    var p' := p[..k] + [|p|] + p[k..];
    assert forall i :: 0 <= i < |p'| ==> p'[i] == if i < k then p[i] else if i == k then |p| else p[i - 1];
    forall v | 0 <= v < |p'| ensures v in p' {
      if v < |p| {
        var i := PositionOf(p, v);
        assert p'[if i < k then i else i + 1] == v;
      } else {
        assert p'[k] == v;
      }
    }
  }

  lemma InsertionReorders(s: seq<InstallableInfo>, x: InstallableInfo, t: seq<InstallableInfo>, p: seq<nat>, k: nat)
    requires Reordered(s, t, p) && k <= |t|
    ensures Reordered(s + [x], t[..k] + [x] + t[k..], p[..k] + [|s|] + p[k..])
  {
    InsertedIndex(p, k);
  }

  lemma InsertionAscends(t: seq<InstallableInfo>, x: InstallableInfo, k: nat)
    requires StagesAscend(t) && k <= |t|
    requires forall i :: 0 <= i < k ==> StageIndex(t[i].stage) <= StageIndex(x.stage)
    requires forall i :: k <= i < |t| ==> StageIndex(x.stage) < StageIndex(t[i].stage)
    ensures StagesAscend(t[..k] + [x] + t[k..])
  {
  }

  /** Where a new last info goes: behind those of its stage and of earlier stages. */
  lemma InsertionOrders(s: seq<InstallableInfo>, x: InstallableInfo, t: seq<InstallableInfo>, p: seq<nat>, k: nat)
    requires StageOrderOf(s, t, p) && k <= |t|
    requires forall i :: 0 <= i < k ==> StageIndex(t[i].stage) <= StageIndex(x.stage)
    requires forall i :: k <= i < |t| ==> StageIndex(x.stage) < StageIndex(t[i].stage)
    ensures StageOrderOf(s + [x], t[..k] + [x] + t[k..], p[..k] + [|s|] + p[k..])
  {
    InsertionReorders(s, x, t, p, k);
    InsertionAscends(t, x, k);
  }

  method InsertByStage(t: seq<InstallableInfo>, x: InstallableInfo, ghost s: seq<InstallableInfo>, ghost p: seq<nat>)
    returns (r: seq<InstallableInfo>, ghost q: seq<nat>)
    requires StageOrderOf(s, t, p)
    ensures StageOrderOf(s + [x], r, q)
  {
    var k := |t|;
    while k > 0 && StageIndex(x.stage) < StageIndex(t[k - 1].stage)
      invariant 0 <= k <= |t| && forall i :: k <= i < |t| ==> StageIndex(x.stage) < StageIndex(t[i].stage)
    {
      k := k - 1;
    }
    InsertionOrders(s, x, t, p, k);
    r, q := t[..k] + [x] + t[k..], p[..k] + [|s|] + p[k..];
  }

  /** Sorting by stage. */
  method SortByStage(infos: seq<InstallableInfo>) returns (sorted: seq<InstallableInfo>, ghost p: seq<nat>)
    ensures StageOrderOf(infos, sorted, p)
  {
    sorted, p := [], [];
    for n := 0 to |infos|
      invariant StageOrderOf(infos[..n], sorted, p)
    {
      assert infos[..n + 1] == infos[..n] + [infos[n]];
      sorted, p := InsertByStage(sorted, infos[n], infos[..n], p);
    }
    assert infos[..|infos|] == infos;
  }

  method SortInPlace(infos: array<InstallableInfo>) returns (ghost p: seq<nat>)
    modifies infos
    ensures StageOrderOf(old(infos[..]), infos[..], p)
  {
    var sorted;
    sorted, p := SortByStage(infos[..]);
    for i := 0 to infos.Length
      invariant infos[..i] == sorted[..i]
    {
      infos[i] := sorted[i];
    }
    assert infos[..] == sorted;
  }

  /** `t` is what the passes make of the decided infos `s`. */
  ghost predicate FinishedFrom(s: seq<InstallableInfo>, t: seq<InstallableInfo>) {
    exists sorted, p :: StageOrderOf(AllForced(s), sorted, p) && IteratedFrom(sorted, t)
  }

  /** The passes over all infos before a plan is built, in place: force tracking, order by stage,
      iterate. */
  method FinishInfos(infos: array<InstallableInfo>)
    requires forall i :: 0 <= i < infos.Length ==> infos[i].iteration == 0
    modifies infos
    ensures FinishedFrom(old(infos[..]), infos[..])
  {
    ghost var s := infos[..];
    ForceReadinessTracking(infos);
    assert infos[..] == AllForced(s);
    ghost var p := SortInPlace(infos);
    ghost var sorted := infos[..];
    forall i | 0 <= i < |sorted| ensures sorted[i].iteration == 0 {
      assert sorted[i] == AllForced(s)[p[i]];
    }
    IterateInfos(infos);
    assert StageOrderOf(AllForced(s), sorted, p) && IteratedFrom(sorted, infos[..]);
  }

  // ----- what the passes keep -----

  /** No three infos are of one resource, in whatever order they are looked at. */
  lemma AnyThree(s: seq<InstallableInfo>, i: nat, j: nat, k: nat)
    requires AtMostTwice(s) && i < |s| && j < |s| && k < |s| && i != j && j != k && i != k
    ensures !(s[i].res.id == s[j].res.id == s[k].res.id)
  {
    var a, b, c := if i < j then i else j, if i < j then j else i, k;
    if c < a {
      assert !(s[c].res.id == s[a].res.id == s[b].res.id);
    } else if c < b {
      assert !(s[a].res.id == s[c].res.id == s[b].res.id);
    } else {
      assert !(s[a].res.id == s[b].res.id == s[c].res.id);
    }
  }

  /** Reordering, and changes that keep the resource of an info, do not change how often a
      resource comes. */
  lemma AtMostTwiceReordered(s: seq<InstallableInfo>, t: seq<InstallableInfo>, p: seq<nat>)
    requires |p| == |s| == |t| && forall i :: 0 <= i < |p| ==> p[i] < |s| && t[i].res == s[p[i]].res
    requires forall i, k :: 0 <= i < k < |p| ==> p[i] != p[k]
    requires forall v :: 0 <= v < |s| ==> v in p
    ensures AtMostTwice(s) <==> AtMostTwice(t)
  {
    if AtMostTwice(s) {
      forall i, j, k | 0 <= i < j < k < |t| ensures !(t[i].res.id == t[j].res.id == t[k].res.id) {
        AnyThree(s, p[i], p[j], p[k]);
      }
    }
    if AtMostTwice(t) {
      forall i, j, k | 0 <= i < j < k < |s| ensures !(s[i].res.id == s[j].res.id == s[k].res.id) {
        var a := PositionOf(p, i);
        var b := PositionOf(p, j);
        var c := PositionOf(p, k);
        AnyThree(t, a, b, c);
      }
    }
  }

  lemma ForcedSound(s: seq<InstallableInfo>, i: nat)
    requires i < |s| && Sound(s[i])
    ensures Sound(AllForced(s)[i]) && AllForced(s)[i].res == s[i].res
  {
  }

  lemma ReorderedSound(f: seq<InstallableInfo>, sorted: seq<InstallableInfo>, p: seq<nat>, t: seq<InstallableInfo>)
    requires forall i :: 0 <= i < |f| ==> Sound(f[i])
    requires Reordered(f, sorted, p) && IteratedFrom(sorted, t)
    ensures ShapedFrom(f, t, p) && forall i :: 0 <= i < |t| ==> Sound(t[i])
  {
    IteratedSound(sorted, t);
  }

  /** What the passes promise of sound infos: they are the decided ones, forced and reordered, each
      once, with their resources and stages; they stay sound and in stage order, the earliest of a
      resource being iteration 0; everything a ready dependency waits for is tracked; and iterations
      tell the infos of a resource apart iff no resource was decided three times. */
  lemma PassesKeepPromises(s: seq<InstallableInfo>, t: seq<InstallableInfo>) returns (p: seq<nat>)
    requires FinishedFrom(s, t) && forall i :: 0 <= i < |s| ==> Sound(s[i])
    ensures |t| == |s| && ShapedFrom(AllForced(s), t, p) && forall v :: 0 <= v < |s| ==> v in p
    ensures forall i :: 0 <= i < |t| ==> Sound(t[i])
    ensures ReadyTargetsTracked(t) && StagesAscend(t) && EarliestIsZero(t)
    ensures forall i, k :: 0 <= i < k < |p| ==> p[i] != p[k]
    ensures UniqueIterations(t) <==> AtMostTwice(s)
  {
    var f := AllForced(s);
    var sorted;
    sorted, p :| StageOrderOf(f, sorted, p) && IteratedFrom(sorted, t);
    forall i | 0 <= i < |s| ensures Sound(f[i]) && f[i].res == s[i].res { ForcedSound(s, i); }
    ReorderedSound(f, sorted, p, t);
    ForcedTargetsStayTracked(s, t, p);
    UniqueIffDecidedTwice(s, f, sorted, p, t);
    LaterAreNotZero(sorted, t);
  }

  /** Of the infos of a resource only the first one listed has iteration 0. */
  ghost predicate EarliestIsZero(t: seq<InstallableInfo>) {
    forall i, k :: 0 <= i < k < |t| && t[i].res.id == t[k].res.id ==> t[k].iteration != 0
  }

  lemma LaterAreNotZero(s: seq<InstallableInfo>, t: seq<InstallableInfo>)
    requires IteratedFrom(s, t)
    ensures EarliestIsZero(t)
  {
    forall i, k | 0 <= i < k < |t| && t[i].res.id == t[k].res.id ensures t[k].iteration != 0 {
      assert s[i].res.id == s[k].res.id;
      assert Seen(s, k);
    }
  }

  lemma UniqueIffDecidedTwice(s: seq<InstallableInfo>, f: seq<InstallableInfo>, sorted: seq<InstallableInfo>,
                              p: seq<nat>, t: seq<InstallableInfo>)
    requires |f| == |s| && forall i :: 0 <= i < |s| ==> f[i].res == s[i].res
    requires StageOrderOf(f, sorted, p) && IteratedFrom(sorted, t)
    ensures StagesAscend(t) && (UniqueIterations(t) <==> AtMostTwice(s))
  {
    IteratedStages(sorted, t);
    UniqueIffAtMostTwice(sorted, t);
    AtMostTwiceReordered(s, sorted, p);
  }

  lemma IteratedStages(s: seq<InstallableInfo>, t: seq<InstallableInfo>)
    requires IteratedFrom(s, t)
    ensures StagesAscend(s) <==> StagesAscend(t)
  {
    assert forall i :: 0 <= i < |s| ==> t[i].stage == s[i].stage;
  }
}
