/** What happens to each revision of the release in a plan (pkg/plan/release_info.go). */
module ReleaseInfo {
  import opened Operations

  datatype DeployType = DeployInitial | DeployInstall | DeployUpgrade | DeployRollback | DeployUninstall

  datatype ReleaseType =
    | ReleaseInstall | ReleaseUpgrade | ReleaseRollback | ReleaseSupersede | ReleaseUninstall | ReleaseDelete

  datatype ReleaseInfo = ReleaseInfo(rel: Release, must: ReleaseType, mustFailOnFailedDeploy: bool)

  function NewReleaseType(d: DeployType): ReleaseType
    requires d != DeployUninstall
  {
    match d
    case DeployUpgrade => ReleaseUpgrade
    case DeployRollback => ReleaseRollback
    case _ => ReleaseInstall
  }

  /** The deployed revisions among the first `n`, to be superseded. */
  function Supersedes(prev: seq<Release>, n: nat): seq<ReleaseInfo>
    requires n <= |prev|
  {
    if n == 0 then []
    else
      Supersedes(prev, n - 1) +
      if prev[n - 1].status == Deployed then [ReleaseInfo(prev[n - 1], ReleaseSupersede, false)] else []
  }

  function Removals(prev: seq<Release>): seq<ReleaseInfo> {
    seq(|prev|, i requires 0 <= i < |prev| =>
      if i == |prev| - 1 then ReleaseInfo(prev[i], ReleaseUninstall, true)
      else ReleaseInfo(prev[i], ReleaseDelete, false))
  }

  function InfosFor(d: DeployType, prev: seq<Release>, newRel: Release): seq<ReleaseInfo> {
    if d == DeployUninstall then Removals(prev)
    else [ReleaseInfo(newRel, NewReleaseType(d), true)] + Supersedes(prev, |prev|)
  }

  method BuildReleaseInfos(d: DeployType, prev: seq<Release>, newRel: Release) returns (infos: seq<ReleaseInfo>)
    ensures infos == InfosFor(d, prev, newRel)
  {
    infos := [];
    if d != DeployUninstall {
      infos := [ReleaseInfo(newRel, NewReleaseType(d), true)];
      for i := 0 to |prev|
        invariant infos == [ReleaseInfo(newRel, NewReleaseType(d), true)] + Supersedes(prev, i)
      {
        if prev[i].status == Deployed { infos := infos + [ReleaseInfo(prev[i], ReleaseSupersede, false)]; }
      }
    } else {
      for i := 0 to |prev|
        invariant infos == Removals(prev)[..i]
      {
        if i == |prev| - 1 {
          infos := infos + [ReleaseInfo(prev[i], ReleaseUninstall, true)];
        } else {
          infos := infos + [ReleaseInfo(prev[i], ReleaseDelete, false)];
        }
      }
    }
  }

  lemma {:induction false} SupersedesMembers(prev: seq<Release>, n: nat)
    requires n <= |prev|
    ensures forall x :: x in Supersedes(prev, n) <==>
      exists i :: 0 <= i < n && prev[i].status == Deployed && x == ReleaseInfo(prev[i], ReleaseSupersede, false)
  {
    if n > 0 { SupersedesMembers(prev, n - 1); }
  }

  ghost predicate Increasing(h: seq<Release>) {
    forall i, k :: 0 <= i < k < |h| ==> h[i].version < h[k].version
  }

  /** No revision occurs in two infos. */
  ghost predicate DistinctRevisions(infos: seq<ReleaseInfo>) {
    forall i, k :: 0 <= i < k < |infos| ==> infos[i].rel.version != infos[k].rel.version
  }

  lemma {:induction false} SupersedesDistinct(prev: seq<Release>, n: nat)
    requires n <= |prev| && Increasing(prev)
    ensures DistinctRevisions(Supersedes(prev, n))
    ensures forall i :: 0 <= i < |Supersedes(prev, n)| ==>
      exists k :: 0 <= k < n && Supersedes(prev, n)[i].rel == prev[k]
  {
    if n > 0 { SupersedesDistinct(prev, n - 1); }
  }

  /** Revisions are dealt with once each, whatever is deployed over an increasing history. */
  lemma InfosDistinct(d: DeployType, prev: seq<Release>, newRel: Release)
    requires Increasing(prev)
    requires d != DeployUninstall ==> forall i :: 0 <= i < |prev| ==> prev[i].version < newRel.version
    ensures DistinctRevisions(InfosFor(d, prev, newRel))
  {
    SupersedesDistinct(prev, |prev|);
  }
}
