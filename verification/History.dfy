/** The release history (pkg/release/history.go): the revisions of one release, in memory and in
    storage, and what release operations do to them. */
module History {
  import opened Operations
  import opened ReleaseInfo
  import opened PlanRequest

  /** Index of the first release with a revision, or the length if there is none. */
  function IndexOf(h: seq<Release>, revision: int): (k: nat)
    ensures k <= |h|
    ensures k < |h| ==> h[k].version == revision
    ensures forall i :: 0 <= i < k ==> h[i].version != revision
  {
    if h == [] || h[0].version == revision then 0 else 1 + IndexOf(h[1..], revision)
  }

  ghost predicate Distinct(h: seq<Release>) {
    forall i, k :: 0 <= i < k < |h| ==> h[i].version != h[k].version
  }

  /** The status of a revision, if it is in the history. */
  ghost function Lookup(h: seq<Release>, revision: int): Option<ReleaseStatus> {
    var k := IndexOf(h, revision);
    if k < |h| then Some(h[k].status) else None
  }

  // ----- release operations -----

  ghost predicate IsReleaseOp(op: Operation) {
    || (op.typ in {TypeCreateRelease, TypeUpdateRelease} && op.config.ReleaseConfig?)
    || (op.typ == TypeDeleteRelease && op.config.RevisionConfig?)
  }

  ghost function RevisionOf(op: Operation): int
    requires IsReleaseOp(op)
  {
    if op.config.ReleaseConfig? then op.config.rel.version else op.config.revision
  }

  /** The status that an operation gives its revision; `None` if it deletes it. */
  ghost function StatusGiven(op: Operation): Option<ReleaseStatus>
    requires IsReleaseOp(op)
  {
    if op.config.ReleaseConfig? then Some(op.config.rel.status) else None
  }

  /** The history after an operation; `None` if the operation is impossible. */
  ghost function Effect(h: seq<Release>, op: Operation): Option<seq<Release>> {
    if !IsReleaseOp(op) then Some(h) else
    var k := IndexOf(h, RevisionOf(op));
    match op.typ
    case TypeCreateRelease => if k == |h| then Some(h + [op.config.rel]) else None
    case TypeUpdateRelease => if k < |h| then Some(h[k := op.config.rel]) else None
    case _ => if k < |h| then Some(h[..k] + h[k + 1..]) else None
  }

  lemma IndexUnique(h: seq<Release>, k: nat)
    requires Distinct(h) && k < |h|
    ensures IndexOf(h, h[k].version) == k && Lookup(h, h[k].version) == Some(h[k].status)
  {
  }

  /** A member of the history is what its revision looks up. */
  lemma LookupMember(h: seq<Release>, revision: int, s: ReleaseStatus)
    requires Distinct(h)
    ensures Lookup(h, revision) == Some(s) <==> Release(revision, s) in h
  {
    if Release(revision, s) in h {
      var k :| 0 <= k < |h| && h[k] == Release(revision, s);
      IndexUnique(h, k);
    }
  }

  lemma SameLookup(h: seq<Release>, g: seq<Release>, revision: int)
    requires Distinct(h) && Distinct(g)
    requires forall s :: Release(revision, s) in h <==> Release(revision, s) in g
    ensures Lookup(h, revision) == Lookup(g, revision)
  {
    forall s ensures Lookup(h, revision) == Some(s) <==> Lookup(g, revision) == Some(s) {
      LookupMember(h, revision, s);
      LookupMember(g, revision, s);
    }
    if Lookup(h, revision).Some? { assert Lookup(g, revision) == Some(Lookup(h, revision).value); }
    if Lookup(g, revision).Some? { assert Lookup(h, revision) == Some(Lookup(g, revision).value); }
  }

  /** An operation changes its own revision and no other. */
  lemma EffectLookup(h: seq<Release>, op: Operation, revision: int)
    requires Distinct(h) && IsReleaseOp(op) && Effect(h, op).Some?
    ensures Distinct(Effect(h, op).value)
    ensures Lookup(Effect(h, op).value, revision) ==
      if revision == RevisionOf(op) then StatusGiven(op) else Lookup(h, revision)
  {
    var g, k := Effect(h, op).value, IndexOf(h, RevisionOf(op));
    if op.typ == TypeDeleteRelease {
      assert forall i :: 0 <= i < |g| ==> g[i] == if i < k then h[i] else h[i + 1];
      assert forall i :: 0 <= i < |g| ==> g[i].version != RevisionOf(op);
    } else {
      var n := if op.typ == TypeCreateRelease then |h| else k;
      assert g[n] == op.config.rel;
      IndexUnique(g, n);
    }
    if revision != RevisionOf(op) { OthersKept(h, op, g, k, revision); }
  }

  lemma OthersKept(h: seq<Release>, op: Operation, g: seq<Release>, k: nat, revision: int)
    requires Distinct(h) && Distinct(g) && IsReleaseOp(op) && k == IndexOf(h, RevisionOf(op))
      && revision != RevisionOf(op)
    requires Effect(h, op) == Some(g)
    ensures Lookup(g, revision) == Lookup(h, revision)
  {
    forall s ensures Release(revision, s) in h <==> Release(revision, s) in g {
      if Release(revision, s) in h {
        var i :| 0 <= i < |h| && h[i] == Release(revision, s);
        assert op.typ != TypeDeleteRelease ==> g[i] == h[i];
        if op.typ == TypeDeleteRelease { assert g[if i < k then i else i - 1] == h[i]; }
      }
    }
    SameLookup(h, g, revision);
  }

  /** Revisions stay increasing if what is created is newer than everything there is. */
  lemma EffectIncreasing(h: seq<Release>, op: Operation)
    requires Increasing(h) && Effect(h, op).Some?
    requires IsReleaseOp(op) && op.typ == TypeCreateRelease ==> forall i :: 0 <= i < |h| ==>
      h[i].version < RevisionOf(op)
    ensures Increasing(Effect(h, op).value)
  {
  }

  // ----- a history is determined by its lookups -----

  lemma FirstFound(h: seq<Release>)
    ensures h != [] ==> Lookup(h, h[0].version) == Some(h[0].status)
  {
  }

  /** Without its first release an increasing history finds the same for all other revisions. */
  lemma TailLookup(h: seq<Release>, v: int)
    requires h != [] && Increasing(h)
    ensures Increasing(h[1..])
    ensures Lookup(h[1..], v) == if v == h[0].version then None else Lookup(h, v)
  {
    var t := h[1..];
    assert forall i :: 0 <= i < |t| ==> t[i] == h[i + 1];
  }

  /** The revision that comes first is the lowest one that is found. */
  lemma FirstIsLowest(h: seq<Release>, v: int)
    requires h != [] && Increasing(h) && Lookup(h, v).Some?
    ensures h[0].version <= v
  {
  }

  /** Two histories in which every revision has the same status are the same. */
  lemma {:induction false} LookupsDetermine(h: seq<Release>, g: seq<Release>)
    requires Increasing(h) && Increasing(g) && forall v :: Lookup(h, v) == Lookup(g, v)
    ensures h == g
    decreases |h|
  {
    FirstFound(h);
    FirstFound(g);
    if h != [] && g != [] {
      FirstIsLowest(h, g[0].version);
      FirstIsLowest(g, h[0].version);
      forall v ensures Lookup(h[1..], v) == Lookup(g[1..], v) {
        TailLookup(h, v);
        TailLookup(g, v);
      }
      TailLookup(h, 0);
      TailLookup(g, 0);
      LookupsDetermine(h[1..], g[1..]);
      assert h == [h[0]] + h[1..] && g == [g[0]] + g[1..];
    }
  }

  // ----- the object -----

  /** The list and the storage hold the same releases. */
  ghost predicate Agrees(h: seq<Release>, storage: map<int, Release>) {
    && Distinct(h)
    && (forall r :: r in h ==> r.version in storage && storage[r.version] == r)
    && (forall v :: v in storage ==> storage[v].version == v && storage[v] in h)
  }

  lemma AgreesOnRevisions(h: seq<Release>, storage: map<int, Release>, v: int)
    requires Agrees(h, storage)
    ensures v in storage <==> IndexOf(h, v) < |h|
  {
    if v in storage {
      var k :| 0 <= k < |h| && h[k] == storage[v];
    }
    if IndexOf(h, v) < |h| { assert h[IndexOf(h, v)] in h; }
  }

  lemma CreateAgrees(h: seq<Release>, storage: map<int, Release>, rel: Release)
    requires Agrees(h, storage) && rel.version !in storage
    ensures Agrees(h + [rel], storage[rel.version := rel])
  {
    AgreesOnRevisions(h, storage, rel.version);
  }

  lemma UpdateAgrees(h: seq<Release>, storage: map<int, Release>, rel: Release, k: nat)
    requires Agrees(h, storage) && k < |h| && h[k].version == rel.version
    ensures Agrees(h[k := rel], storage[rel.version := rel])
  {
    var g, st := h[k := rel], storage[rel.version := rel];
    forall r | r in g ensures r.version in st && st[r.version] == r {
      var i :| 0 <= i < |g| && g[i] == r;
      if i != k { assert h[i] in h; }
    }
    forall v | v in st ensures st[v].version == v && st[v] in g {
      if v == rel.version {
        assert g[k] == rel;
      } else {
        var i :| 0 <= i < |h| && h[i] == storage[v];
        assert g[i] == h[i];
      }
    }
  }

  /** Without its release `k` a history has all the others, and no two of a revision. */
  lemma WithoutOne(h: seq<Release>, k: nat, r: Release)
    requires Distinct(h) && k < |h|
    ensures r in h[..k] + h[k + 1..] <==> r in h && r != h[k]
    ensures r in h && r != h[k] ==> r.version != h[k].version
  {
    var g := h[..k] + h[k + 1..];
    if r in g {
      var i :| 0 <= i < |g| && g[i] == r;
      assert r == h[if i < k then i else i + 1];
    }
    if r in h && r != h[k] {
      var i :| 0 <= i < |h| && h[i] == r;
      assert g[if i < k then i else i - 1] == r;
    }
  }

  lemma DeleteDistinct(h: seq<Release>, k: nat)
    requires Distinct(h) && k < |h|
    ensures Distinct(h[..k] + h[k + 1..])
  {
    var g := h[..k] + h[k + 1..];
    assert forall i :: 0 <= i < |g| ==> g[i] == h[if i < k then i else i + 1];
  }

  lemma DeleteAgrees(h: seq<Release>, storage: map<int, Release>, k: nat)
    requires Agrees(h, storage) && k < |h|
    ensures Agrees(h[..k] + h[k + 1..], storage - {h[k].version})
  {
    var g, st := h[..k] + h[k + 1..], storage - {h[k].version};
    DeleteDistinct(h, k);
    forall r | r in g ensures r.version in st && st[r.version] == r { WithoutOne(h, k, r); }
    forall v | v in st ensures st[v].version == v && st[v] in g { WithoutOne(h, k, st[v]); }
  }

  class History {
    var releases: seq<Release>
    var storage: map<int, Release>

    ghost predicate Valid() reads this {
      Agrees(releases, storage)
    }

    constructor ()
      ensures Valid() && releases == []
    {
      releases, storage := [], map[];
    }

    /** Stores a new revision and appends it. Fails iff storage is down or has the revision. */
    method CreateRelease(rel: Release, storageDown: bool) returns (ok: bool)
      requires Valid()
      modifies this
      ensures Valid()
      ensures ok <==> !storageDown && Effect(old(releases), ReleaseOp(TypeCreateRelease, ReleaseConfig(rel))).Some?
      ensures ok ==> Effect(old(releases), ReleaseOp(TypeCreateRelease, ReleaseConfig(rel))) == Some(releases)
      ensures !ok ==> releases == old(releases)
    {
      AgreesOnRevisions(releases, storage, rel.version);
      if storageDown || rel.version in storage { return false; }
      CreateAgrees(releases, storage, rel);
      storage := storage[rel.version := rel];
      releases := releases + [rel];
      return true;
    }

    /** Replaces a revision in place. Fails iff storage is down or does not have the revision. */
    method UpdateRelease(rel: Release, storageDown: bool) returns (ok: bool)
      requires Valid()
      modifies this
      ensures Valid()
      ensures ok <==> !storageDown && Effect(old(releases), ReleaseOp(TypeUpdateRelease, ReleaseConfig(rel))).Some?
      ensures ok ==> Effect(old(releases), ReleaseOp(TypeUpdateRelease, ReleaseConfig(rel))) == Some(releases)
      ensures !ok ==> releases == old(releases)
    {
      AgreesOnRevisions(releases, storage, rel.version);
      if storageDown || rel.version !in storage { return false; }
      var k := IndexOf(releases, rel.version);
      UpdateAgrees(releases, storage, rel, k);
      storage := storage[rel.version := rel];
      releases := releases[k := rel];
      return true;
    }

    /** Removes a revision. Fails iff storage is down or does not have it. */
    method DeleteRelease(revision: int, storageDown: bool) returns (ok: bool)
      requires Valid()
      modifies this
      ensures Valid()
      ensures ok <==>
        !storageDown && Effect(old(releases), ReleaseOp(TypeDeleteRelease, RevisionConfig(revision))).Some?
      ensures ok ==> Effect(old(releases), ReleaseOp(TypeDeleteRelease, RevisionConfig(revision))) == Some(releases)
      ensures !ok ==> releases == old(releases)
    {
      AgreesOnRevisions(releases, storage, revision);
      if storageDown || revision !in storage { return false; }
      var k := IndexOf(releases, revision);
      DeleteAgrees(releases, storage, k);
      storage := storage - {revision};
      releases := releases[..k] + releases[k + 1..];
      return true;
    }

    method FindRevision(revision: int) returns (rel: Option<Release>)
      requires Valid()
      ensures rel.Some? <==> Lookup(releases, revision).Some?
      ensures rel.Some? ==>
        rel.value in releases && rel.value.version == revision && Lookup(releases, revision) == Some(rel.value.status)
    {
      var k := IndexOf(releases, revision);
      return if k < |releases| then Some(releases[k]) else None;
    }

    /** The releases that were deployed, now or before, since the last removal. */
    method FindAllDeployed() returns (found: seq<Release>)
      requires Valid()
      ensures forall i :: 0 <= i < |releases| ==>
        (releases[i] in found <==> releases[i].status in {Deployed, Superseded} && forall k :: i <= k < |releases| ==>
          releases[k].status !in {Uninstalled, Uninstalling})
      ensures forall r :: r in found ==> r in releases
      ensures Increasing(releases) ==> Increasing(found)
    {
      var since := |releases|;
      while since > 0 && releases[since - 1].status !in {Uninstalled, Uninstalling}
        invariant 0 <= since <= |releases|
        invariant forall k :: since <= k < |releases| ==> releases[k].status !in {Uninstalled, Uninstalling}
      {
        since := since - 1;
      }
      found := [];
      for i := since to |releases|
        invariant forall k :: 0 <= k < |releases| ==>
          (releases[k] in found <==> since <= k < i && releases[k].status in {Deployed, Superseded})
        invariant forall r :: r in found ==> r in releases[..i]
        invariant Increasing(releases) ==> Increasing(found)
      {
        assert forall n :: 0 <= n < |found| ==> found[n] in found;
        if releases[i].status in {Deployed, Superseded} { found := found + [releases[i]]; }
      }
    }
  }
}
