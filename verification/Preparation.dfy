/** Preparing a normalization plan from the observed release, and why it always validates. */
module Preparation {
  import opened Text
  import opened Readback
  import opened Provider
  import opened NormalizationPlan

  /** The remote asset names an inventory asset, which it then stands for. */
  predicate Matches(x: NormAsset, remote: RemoteAsset, legacy: seq<Asset>) {
    x.id == remote.id && x.asset.name == remote.name && x.asset in legacy
  }

  ghost predicate AllMatch(found: seq<NormAsset>, remote: seq<RemoteAsset>, legacy: seq<Asset>) {
    |found| == |remote| && forall i :: 0 <= i < |found| ==> Matches(found[i], remote[i], legacy)
  }

  method LegacyByName(legacy: seq<Asset>) returns (byName: map<string, Asset>)
    ensures forall n :: n in byName <==> n in Names(legacy)
    ensures forall n :: n in byName ==> byName[n].name == n && byName[n] in legacy
  {
    byName := map[];
    var i := 0;
    while i < |legacy|
      invariant 0 <= i <= |legacy|
      invariant forall n :: n in byName <==> n in Names(legacy)[..i]
      invariant forall n :: n in byName ==> byName[n].name == n && byName[n] in legacy
    {
      assert Names(legacy)[..i + 1] == Names(legacy)[..i] + [legacy[i].name];
      byName := byName[legacy[i].name := legacy[i]];
      i := i + 1;
    }
    assert Names(legacy)[..i] == Names(legacy);
  }

  method Identify(remote: seq<RemoteAsset>, legacy: seq<Asset>, byName: map<string,
                  Asset>) returns (found: seq<NormAsset>)
    requires forall n :: n in byName ==> byName[n].name == n && byName[n] in legacy
    requires forall i :: 0 <= i < |remote| ==> remote[i].name in byName
    ensures AllMatch(found, remote, legacy)
  {
    found := [];
    var i := 0;
    while i < |remote|
      invariant 0 <= i <= |remote| && AllMatch(found, remote[..i], legacy)
    {
      found := found + [NormAsset(remote[i].id, byName[remote[i].name])];
      i := i + 1;
    }
    assert remote[..i] == remote;
  }

  /** The partition loop over the name-sorted originals. */
  method Partition(originals: seq<NormAsset>, keep: set<string>) returns (retain: seq<NormAsset>,
                   remove: seq<NormAsset>)
    ensures retain == Select(originals, keep, true) && remove == Select(originals, keep, false)
  {
    retain, remove := [], [];
    var i := 0;
    while i < |originals|
      invariant 0 <= i <= |originals|
      invariant retain == Select(originals[..i], keep, true) && remove == Select(originals[..i], keep, false)
    {
      assert originals[..i + 1] == originals[..i] + [originals[i]];
      SelectSnoc(originals[..i], originals[i], keep, true);
      SelectSnoc(originals[..i], originals[i], keep, false);
      if originals[i].asset.name in keep {
        retain := retain + [originals[i]];
      } else {
        remove := remove + [originals[i]];
      }
      i := i + 1;
    }
    assert originals[..i] == originals;
  }

  lemma AnythingIsFree(s: State)
    ensures PinHolds(s, Free)
  {
  }

  /** prepareNormalization, for a verified inventory of distinct, nonempty names. */
  method PrepareNormalization(p: ReleaseService, original: Plan, releaseID: int, legacy: seq<Asset>,
                              projected: seq<Asset>,
                              scope: Scope)
    returns (ok: bool, plan: NormPlan, ghost e: Event)
    requires Distinct(Names(legacy)) && forall a :: a in legacy ==> a.name != ""
    modifies p`step, p`trace
    ensures p.trace == old(p.trace) + [e] && e.Read?
    ensures ok <==> e.ok && |plan.retain| == scope.kept && |plan.remove| == scope.dropped
    ensures p.honest ==>
              (e.ok <==> && p.answers(old(p.step)).state.Some?
                         && Accepts(p.env, p.remote, p.stored, original, releaseID, false, legacy))
    ensures e.ok && releaseID >= 1 ==> Valid(plan, legacy, projected)
    ensures e.ok ==>
              && plan.original == original && plan.releaseID == releaseID && e.state.Some? && e.state.value.release.Some?
              && plan.publishedAt == e.state.value.release.value.publishedAt
              && forall x :: x in plan.originals ==>
                   exists r :: r in e.state.value.release.value.assets && r.id == x.id && r.name == x.asset.name
    ensures ok ==> |plan.retain| == scope.kept && |plan.remove| == scope.dropped && |plan.originals| == |legacy|
    ensures ok && p.honest ==> p.remote.release.Some? && plan.publishedAt == p.remote.release.value.publishedAt
  {
    hide Accepts, Canonical, Select, SortByName, PinHolds;
    AnythingIsFree(p.remote);
    plan := NormPlan(original, releaseID, "", [], [], [], Asset("", "", 0, ""));
    var state;
    ok, state, e := p.ReadRelease(original, releaseID, false, legacy, Free);
    if !ok {
      return;
    }
    AcceptedNames(p.env, state.value, e.downloads, original, releaseID, legacy);
    var remote := state.value.release.value.assets;
    var byName := LegacyByName(legacy);
    forall i | 0 <= i < |remote| ensures remote[i].name in byName {
      assert RemoteNames(remote)[i] in Elements(RemoteNames(remote));
    }
    var found := Identify(remote, legacy, byName);
    FoundIsOriginal(found, remote, legacy);
    var originals := SortByName(found);
    SortedIsCanonical(found);
    var keep, checksum := ReadProjection(projected);
    var retain, remove := Partition(originals, keep);
    SortedAssets(found);
    FoundAreRemote(found, remote, legacy);
    plan := NormPlan(original, releaseID, state.value.release.value.publishedAt, originals, retain, remove, checksum);
    ok := |retain| == scope.kept && |remove| == scope.dropped;
  }

  lemma AcceptedNames(env: Primitives, s: State, read: Downloads, plan: Plan, id: int, legacy: seq<Asset>)
    requires Accepts(env, s, read, plan, id, false, legacy) && Distinct(Names(legacy))
    ensures s.release.Some? && Sound(s.release.value.assets) && |s.release.value.assets| == |legacy|
    ensures Elements(RemoteNames(s.release.value.assets)) == Elements(Names(legacy))
  {
    AcceptsIsBijection(env, s, read, plan, id, false, legacy);
  }

  lemma FoundAreRemote(found: seq<NormAsset>, remote: seq<RemoteAsset>, legacy: seq<Asset>)
    requires AllMatch(found, remote, legacy)
    ensures forall x :: x in found ==> exists r :: r in remote && r.id == x.id && r.name == x.asset.name
  {
    forall x | x in found ensures exists r :: r in remote && r.id == x.id && r.name == x.asset.name {
      var i :| 0 <= i < |found| && found[i] == x;
      assert Matches(found[i], remote[i], legacy) && remote[i] in remote;
    }
  }

  lemma FoundIsOriginal(found: seq<NormAsset>, remote: seq<RemoteAsset>, legacy: seq<Asset>)
    requires AllMatch(found, remote, legacy) && Sound(remote) && Distinct(Names(legacy))
    requires forall a :: a in legacy ==> a.name != ""
    requires Elements(RemoteNames(remote)) == Elements(Names(legacy))
    ensures DistinctNames(found) && DistinctIds(found)
    ensures forall x :: x in found ==> x.id >= 1 && x.asset.name != ""
    ensures Elements(AssetsOf(found)) == Elements(legacy)
  {
    forall i, j | 0 <= i < j < |found| ensures found[i].id != found[j].id && found[i].asset.name != found[j].asset.name {
      assert Matches(found[i], remote[i], legacy) && Matches(found[j], remote[j], legacy);
    }
    forall x | x in found ensures x.id >= 1 && x.asset.name != "" {
      var i :| 0 <= i < |found| && found[i] == x;
      assert Matches(found[i], remote[i], legacy);
    }
    forall a | a in AssetsOf(found) ensures a in legacy {
      var i :| 0 <= i < |found| && AssetsOf(found)[i] == a;
      assert Matches(found[i], remote[i], legacy);
    }
    forall a | a in legacy ensures a in AssetsOf(found) {
      LegacyIsFound(found, remote, legacy, a);
    }
  }

  lemma LegacyIsFound(found: seq<NormAsset>, remote: seq<RemoteAsset>, legacy: seq<Asset>, a: Asset)
    requires AllMatch(found, remote, legacy) && Distinct(Names(legacy)) && a in legacy
    requires Elements(RemoteNames(remote)) == Elements(Names(legacy))
    ensures a in AssetsOf(found)
  {
    var k :| 0 <= k < |legacy| && legacy[k] == a;
    assert Names(legacy)[k] in Elements(RemoteNames(remote));
    var i :| 0 <= i < |remote| && RemoteNames(remote)[i] == a.name;
    assert Matches(found[i], remote[i], legacy);
    var m :| 0 <= m < |legacy| && legacy[m] == found[i].asset;
    assert Names(legacy)[m] == Names(legacy)[k];
    assert AssetsOf(found)[i] == a;
  }

  lemma SortedIsCanonical(found: seq<NormAsset>)
    requires DistinctNames(found) && DistinctIds(found)
    requires forall x :: x in found ==> x.id >= 1 && x.asset.name != ""
    ensures Canonical(SortByName(found))
  {
    hide SortByName;
    var s := SortByName(found);
    SortAscending(found);
    AscendingNames(s);
    forall i, j | 0 <= i < j < |s| ensures s[i].id != s[j].id {
      assert s[i] in found && s[j] in found;
    }
    forall i | 0 <= i < |s| ensures s[i].id >= 1 && s[i].asset.name != "" {
      assert s[i] in found;
    }
  }

  lemma SortedAssets(found: seq<NormAsset>)
    ensures Elements(AssetsOf(SortByName(found))) == Elements(AssetsOf(found))
  {
    hide SortByName;
    SameAssets(SortByName(found), found);
    SameAssets(found, SortByName(found));
  }

  lemma SameAssets(a: seq<NormAsset>, b: seq<NormAsset>)
    requires forall x :: x in a ==> x in b
    ensures Elements(AssetsOf(a)) <= Elements(AssetsOf(b))
  {
    forall y | y in AssetsOf(a) ensures y in AssetsOf(b) {
      var i :| 0 <= i < |a| && AssetsOf(a)[i] == y;
      assert a[i] in b;
      var j :| 0 <= j < |b| && b[j] == a[i];
      assert AssetsOf(b)[j] == y;
    }
  }
}
