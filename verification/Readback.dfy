/** Remote release state and the readback that compares it, down to the bytes, with an expected inventory. */
module Readback {
  import opened Text

  type Bytes = string

  datatype Asset = Asset(name: string, path: string, size: nat, sha256: string)

  datatype RemoteAsset = RemoteAsset(id: int, name: string, size: int, state: string, digest: string)

  datatype Release = Release(id: int, tag: string, target: string, name: string, body: string, draft: bool,
                             prerelease: bool, publishedAt: string, assets: seq<RemoteAsset>)

  datatype State = State(tagCommit: string, release: Option<Release>, latestID: int)

  /** The part of a publication plan that remote state is compared with. */
  datatype Plan = Plan(version: string, commit: string, tag: string, notes: string, assets: seq<Asset>)

  /** The digest function and the time parser, left open. */
  datatype Primitives = Primitives(sha256: Bytes -> string, validTime: string -> bool)

  /** What downloading the assets yields, by asset id; a missing id is a failed download. */
  type Downloads = map<int, Bytes>

  predicate Metadata(env: Primitives, s: State, plan: Plan, id: int, draft: bool) {
    && s.tagCommit == plan.commit && s.release.Some? && s.latestID != id
    && var r := s.release.value;
       && r.id == id && r.tag == plan.tag && r.target == plan.commit && r.name == "FlashGate MCP " + plan.version
       && r.body == plan.notes && r.draft == draft && r.prerelease
       && (if draft then r.publishedAt == "" else env.validTime(r.publishedAt))
  }

  /** Positive distinct ids, distinct names, everything uploaded. */
  predicate Sound(remote: seq<RemoteAsset>) {
    && (forall i :: 0 <= i < |remote| ==> remote[i].id >= 1 && remote[i].state == "uploaded")
    && (forall i, j :: 0 <= i < j < |remote| ==> remote[i].id != remote[j].id && remote[i].name != remote[j].name)
  }

  /** The remote asset has the expected name, size and digest, and its bytes hash to it. */
  predicate Holds(env: Primitives, remote: RemoteAsset, read: Downloads, a: Asset) {
    && remote.name == a.name && remote.size == a.size && remote.digest == "sha256:" + a.sha256
    && remote.id in read && |read[remote.id]| == a.size && env.sha256(read[remote.id]) == a.sha256
  }

  ghost predicate Present(env: Primitives, remote: seq<RemoteAsset>, read: Downloads, a: Asset) {
    exists i :: 0 <= i < |remote| && Holds(env, remote[i], read, a)
  }

  /** publicationReadbackState accepts: the metadata match and the inventory is the expected one. */
  ghost predicate Accepts(env: Primitives, s: State, read: Downloads, plan: Plan, id: int, draft: bool,
                          assets: seq<Asset>) {
    && Metadata(env, s, plan, id, draft)
    && var remote := s.release.value.assets;
       |remote| == |assets| && Sound(remote)
       && forall k :: 0 <= k < |assets| ==> Present(env, remote, read, assets[k])
  }

  /** The new asset repeats no id and no name. */
  predicate Novel(remote: seq<RemoteAsset>, a: RemoteAsset) {
    forall i :: 0 <= i < |remote| ==> remote[i].id != a.id && remote[i].name != a.name
  }

  lemma SoundSnoc(remote: seq<RemoteAsset>, a: RemoteAsset)
    ensures Sound(remote + [a]) <==> Sound(remote) && a.id >= 1 && a.state == "uploaded" && Novel(remote, a)
  {
    var all := remote + [a];
    assert forall i :: 0 <= i < |remote| ==> all[i] == remote[i];
    assert all[|remote|] == a;
  }

  lemma SoundPrefix(remote: seq<RemoteAsset>, n: nat)
    requires n <= |remote| && Sound(remote)
    ensures Sound(remote[..n])
  {
  }

  /** The lookup tables of the first loop after these assets. */
  ghost predicate Indexed(remote: seq<RemoteAsset>, seen: set<int>, byName: map<string, RemoteAsset>) {
    && (forall k :: 0 <= k < |remote| ==> remote[k].id in seen && remote[k].name in byName && byName[remote[k].name] == remote[k])
    && (forall x :: x in seen ==> exists k :: 0 <= k < |remote| && remote[k].id == x)
    && (forall n :: n in byName ==> byName[n].name == n && byName[n] in remote)
  }

  lemma IndexedSnoc(remote: seq<RemoteAsset>, seen: set<int>, byName: map<string, RemoteAsset>, a: RemoteAsset)
    requires Indexed(remote, seen, byName)
    ensures a.id in seen || a.name in byName <==> !Novel(remote, a)
    ensures Novel(remote, a) ==> Indexed(remote + [a], seen + {a.id}, byName[a.name := a])
  {
    var all := remote + [a];
    assert forall k :: 0 <= k < |remote| ==> all[k] == remote[k];
    assert all[|remote|] == a;
    if a.name in byName {
      var k :| 0 <= k < |remote| && remote[k] == byName[a.name];
    }
  }

  /** The first loop: distinct ids and names, everything uploaded; builds the lookup by name. */
  method IndexAssets(remote: seq<RemoteAsset>) returns (ok: bool, byName: map<string, RemoteAsset>)
    ensures ok <==> Sound(remote)
    ensures ok ==> forall n :: n in byName ==> byName[n].name == n && byName[n] in remote
    ensures ok ==> forall k :: 0 <= k < |remote| ==> remote[k].name in byName && byName[remote[k].name] == remote[k]
  {
    hide Sound, Novel;
    var seen: set<int> := {};
    byName := map[];
    assert Sound([]) by {
      SoundEmpty();
    }
    var i := 0;
    while i < |remote|
      invariant 0 <= i <= |remote| && Sound(remote[..i])
      invariant Indexed(remote[..i], seen, byName)
    {
      var a := remote[i];
      assert remote[..i + 1] == remote[..i] + [a];
      SoundSnoc(remote[..i], a);
      IndexedSnoc(remote[..i], seen, byName, a);
      if a.id < 1 || a.id in seen || a.name in byName || a.state != "uploaded" {
        if Sound(remote) {
          SoundPrefix(remote, i + 1);
        }
        return false, byName;
      }
      seen := seen + {a.id};
      byName := byName[a.name := a];
      i := i + 1;
    }
    assert remote[..i] == remote;
    return true, byName;
  }

  lemma SoundEmpty()
    ensures Sound([])
  {
  }

  method ReadbackState(env: Primitives, s: State, read: Downloads, plan: Plan, id: int, draft: bool, assets: seq<Asset>)
    returns (ok: bool)
    ensures ok <==> Accepts(env, s, read, plan, id, draft, assets)
  {
    if !Metadata(env, s, plan, id, draft) || |s.release.value.assets| != |assets| {
      return false;
    }
    var remote := s.release.value.assets;
    var sound, byName := IndexAssets(remote);
    if !sound {
      return false;
    }
    var k := 0;
    while k < |assets|
      invariant 0 <= k <= |assets|
      invariant forall j :: 0 <= j < k ==> Present(env, remote, read, assets[j])
    {
      var expected := assets[k];
      if expected.name !in byName || !Holds(env, byName[expected.name], read, expected) {
        assert !Present(env, remote, read, expected);
        return false;
      }
      assert byName[expected.name] in remote;
      k := k + 1;
    }
    return true;
  }

  // ---------------------------------------------------------------- pinned identities

  datatype Identity = Identity(name: string, id: int)

  /** What a normalization readback adds: the publication time and the ids recorded in its plan. */
  datatype Pin = Free | Pinned(publishedAt: string, ids: seq<Identity>)

  predicate Identified(remote: seq<RemoteAsset>, x: Identity) {
    exists i :: 0 <= i < |remote| && remote[i].name == x.name && remote[i].id == x.id
  }

  ghost predicate PinHolds(s: State, pin: Pin) {
    pin.Pinned? ==>
      && s.release.Some? && s.release.value.publishedAt == pin.publishedAt
      && forall k :: 0 <= k < |pin.ids| ==> Identified(s.release.value.assets, pin.ids[k])
  }

  method CheckPin(s: State, pin: Pin) returns (ok: bool)
    requires s.release.Some? && Sound(s.release.value.assets)
    ensures ok <==> PinHolds(s, pin)
  {
    if pin.Free? {
      return true;
    }
    var remote := s.release.value.assets;
    if s.release.value.publishedAt != pin.publishedAt {
      return false;
    }
    var byName: map<string, int> := map[];
    var i := 0;
    while i < |remote|
      invariant 0 <= i <= |remote|
      invariant forall k :: 0 <= k < i ==> remote[k].name in byName && byName[remote[k].name] == remote[k].id
      invariant forall n :: n in byName ==> exists k :: 0 <= k < i && remote[k].name == n
    {
      byName := byName[remote[i].name := remote[i].id];
      i := i + 1;
    }
    var k := 0;
    while k < |pin.ids|
      invariant 0 <= k <= |pin.ids|
      invariant forall j :: 0 <= j < k ==> Identified(remote, pin.ids[j])
    {
      var x := pin.ids[k];
      if x.name !in byName || byName[x.name] != x.id {
        assert !Identified(remote, x);
        return false;
      }
      k := k + 1;
    }
    return true;
  }

  // ---------------------------------------------------------------- what acceptance comes to

  /** The tagged release of the plan: a prerelease, as draft or published, that is not the latest one. */
  ghost predicate ReleaseOf(env: Primitives, s: State, plan: Plan, id: int, draft: bool) {
    && s.tagCommit == plan.commit && s.latestID != id && s.release.Some?
    && s.release.value.id == id && s.release.value.tag == plan.tag && s.release.value.target == plan.commit
    && s.release.value.name == "FlashGate MCP " + plan.version && s.release.value.body == plan.notes
    && s.release.value.draft == draft && s.release.value.prerelease
    && (if draft then s.release.value.publishedAt == "" else env.validTime(s.release.value.publishedAt))
  }

  /** The remote asset is the expected one: its listed size and digest, and the bytes downloaded under its id. */
  ghost predicate Matches(env: Primitives, r: RemoteAsset, read: Downloads, a: Asset) {
    && r.name == a.name && r.id >= 1 && r.state == "uploaded" && r.size == a.size && r.digest == "sha256:" + a.sha256
    && r.id in read && |read[r.id]| == a.size && env.sha256(read[r.id]) == a.sha256
  }

  /** A readback accepts exactly that release with as many uploaded assets as expected, each expected one among them. */
  lemma AcceptsIs(env: Primitives, s: State, read: Downloads, plan: Plan, id: int, draft: bool, assets: seq<Asset>)
    ensures Accepts(env, s, read, plan, id, draft, assets) <==>
              && ReleaseOf(env, s, plan, id, draft)
              && var remote := s.release.value.assets;
                 && |remote| == |assets|
                 && (forall r :: r in remote ==> r.id >= 1 && r.state == "uploaded")
                 && (forall i, j :: 0 <= i < j < |remote| ==> remote[i].id != remote[j].id && remote[i].name != remote[j].name)
                 && forall a :: a in assets ==> exists r :: r in remote && Matches(env, r, read, a)
  {
    if ReleaseOf(env, s, plan, id, draft) && Sound(s.release.value.assets) {
      var remote := s.release.value.assets;
      forall a | a in assets ensures Present(env, remote, read, a) <==> exists r :: r in remote && Matches(env, r, read, a) {
        PresentMatches(env, remote, read, a);
      }
      assert forall k :: 0 <= k < |assets| ==> assets[k] in assets;
    }
  }

  lemma PresentMatches(env: Primitives, remote: seq<RemoteAsset>, read: Downloads, a: Asset)
    requires Sound(remote)
    ensures Present(env, remote, read, a) <==> exists r :: r in remote && Matches(env, r, read, a)
  {
    if i :| 0 <= i < |remote| && Holds(env, remote[i], read, a) {
      assert remote[i] in remote && Matches(env, remote[i], read, a);
    }
    if r :| r in remote && Matches(env, r, read, a) {
      var i :| 0 <= i < |remote| && remote[i] == r;
      assert Holds(env, remote[i], read, a);
    }
  }

  // ---------------------------------------------------------------- acceptance is a bijection

  function Names(assets: seq<Asset>): (r: seq<string>)
    ensures |r| == |assets| && forall i :: 0 <= i < |r| ==> r[i] == assets[i].name
  {
    seq(|assets|, i requires 0 <= i < |assets| => assets[i].name)
  }

  function RemoteNames(remote: seq<RemoteAsset>): (r: seq<string>)
    ensures |r| == |remote| && forall i :: 0 <= i < |r| ==> r[i] == remote[i].name
  {
    seq(|remote|, i requires 0 <= i < |remote| => remote[i].name)
  }

  /** Nothing is missing and nothing is extra: every remote asset is one expected asset and vice versa. */
  lemma AcceptsIsBijection(env: Primitives, s: State, read: Downloads, plan: Plan, id: int, draft: bool,
                           assets: seq<Asset>)
    requires Accepts(env, s, read, plan, id, draft, assets) && Distinct(Names(assets))
    ensures Elements(RemoteNames(s.release.value.assets)) == Elements(Names(assets))
    ensures forall i :: 0 <= i < |s.release.value.assets| ==>
              exists k :: 0 <= k < |assets| && Holds(env, s.release.value.assets[i], read, assets[k])
  {
    hide Holds, Sound;
    var remote := s.release.value.assets;
    SoundNames(remote);
    DistinctCount(RemoteNames(remote));
    DistinctCount(Names(assets));
    forall n | n in Names(assets) ensures n in RemoteNames(remote) {
      var k :| 0 <= k < |assets| && Names(assets)[k] == n;
      PresentName(env, remote, read, assets[k]);
    }
    SubsetOfSameSize(Elements(Names(assets)), Elements(RemoteNames(remote)));
    forall i | 0 <= i < |remote| ensures exists k :: 0 <= k < |assets| && Holds(env, remote[i], read, assets[k]) {
      assert RemoteNames(remote)[i] in Elements(Names(assets));
      var k :| 0 <= k < |assets| && Names(assets)[k] == remote[i].name;
      SameNameSame(env, remote, read, assets[k], i);
    }
  }

  lemma SoundNames(remote: seq<RemoteAsset>)
    requires Sound(remote)
    ensures Distinct(RemoteNames(remote))
  {
  }

  lemma PresentName(env: Primitives, remote: seq<RemoteAsset>, read: Downloads, a: Asset)
    requires Present(env, remote, read, a)
    ensures a.name in RemoteNames(remote)
  {
  }

  lemma SameNameSame(env: Primitives, remote: seq<RemoteAsset>, read: Downloads, a: Asset, i: nat)
    requires Sound(remote) && Present(env, remote, read, a) && i < |remote| && remote[i].name == a.name
    ensures Holds(env, remote[i], read, a)
  {
  }
}
