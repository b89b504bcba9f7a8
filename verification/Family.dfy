/** The inventories a normalization can leave behind. */
module Family {
  import opened Text
  import opened Readback
  import opened Provider
  import opened NormalizationPlan

  // ---------------------------------------------------------------- what remains after some deletions

  /** Removes the first asset with the id, as the deletion loop edits its slice. */
  function DropId(s: seq<NormAsset>, id: int): seq<NormAsset> {
    if s == [] then [] else if s[0].id == id then s[1..] else [s[0]] + DropId(s[1..], id)
  }

  method RemoveId(remaining: seq<NormAsset>, id: int) returns (r: seq<NormAsset>)
    ensures r == DropId(remaining, id)
  {
    r := remaining;
    var i := 0;
    while i < |r|
      invariant 0 <= i <= |r| && r == remaining
      invariant DropId(remaining, id) == remaining[..i] + DropId(remaining[i..], id)
    {
      assert remaining[i..][1..] == remaining[i + 1..];
      if r[i].id == id {
        r := r[..i] + r[i + 1..];
        return;
      }
      i := i + 1;
    }
  }

  /** The originals without the first n deletions. */
  function Remaining(plan: NormPlan, n: nat): seq<NormAsset>
    requires n <= |plan.remove|
  {
    if n == 0 then plan.originals else DropId(Remaining(plan, n - 1), plan.remove[n - 1].id)
  }

  /** What a validated plan amounts to, the checksum name being no original's name. */
  ghost predicate Sane(plan: NormPlan) {
    && Canonical(plan.originals) && plan.releaseID >= 1 && plan.checksum.name == CHECKSUMS
    && (forall x :: x in plan.originals ==> x.asset.name != CHECKSUMS)
    && (forall x :: x in plan.remove ==> x in plan.originals) && DistinctIds(plan.remove)
    && Ascending(plan.retain) && (forall x :: x in plan.retain <==> x in plan.originals && x !in plan.remove)
  }

  lemma {:induction false} ChecksumIsThere(projected: seq<Asset>, c: Asset)
    requires c in projected && c.name == CHECKSUMS
    ensures ChecksumOf(projected).name == CHECKSUMS
  {
    var n := |projected| - 1;
    if projected[n].name != CHECKSUMS {
      assert projected == projected[..n] + [projected[n]];
      ChecksumIsThere(projected[..n], c);
    }
  }

  lemma ValidIsSane(plan: NormPlan, legacy: seq<Asset>, projected: seq<Asset>, c: Asset)
    requires Valid(plan, legacy, projected) && c in projected && c.name == CHECKSUMS
    requires forall a :: a in legacy ==> a.name != CHECKSUMS
    ensures Sane(plan)
  {
    hide Canonical;
    ValidPartitions(plan, legacy, projected);
    ChecksumIsThere(projected, c);
    forall x | x in plan.originals ensures x.asset.name != CHECKSUMS {
      var k :| 0 <= k < |plan.originals| && plan.originals[k] == x;
      assert AssetsOf(plan.originals)[k] in Elements(legacy);
    }
  }

  lemma {:induction false} DropIs(s: seq<NormAsset>, id: int)
    requires DistinctIds(s) && Ascending(s)
    ensures forall x :: x in DropId(s, id) <==> x in s && x.id != id
    ensures DistinctIds(DropId(s, id)) && Ascending(DropId(s, id))
  {
    if s != [] {
      var first, rest := s[0], s[1..];
      assert s == [first] + rest;
      HeadBelow(first, rest);
      if first.id != id {
        hide DistinctIds, Ascending;
        DropIs(rest, id);
        InFront(first, DropId(rest, id));
      }
    }
  }

  lemma HeadBelow(first: NormAsset, rest: seq<NormAsset>)
    requires DistinctIds([first] + rest) && Ascending([first] + rest)
    ensures DistinctIds(rest) && Ascending(rest)
    ensures forall x :: x in rest ==> x.id != first.id && Less(first.asset.name, x.asset.name)
  {
    var s := [first] + rest;
    forall i | 0 <= i < |rest|
      ensures rest[i] == s[i + 1] && rest[i].id != first.id && Less(first.asset.name, rest[i].asset.name)
    {
      assert s[0] == first && s[i + 1] == rest[i];
    }
  }

  lemma InFront(first: NormAsset, rest: seq<NormAsset>)
    requires DistinctIds(rest) && Ascending(rest)
    requires forall x :: x in rest ==> x.id != first.id && Less(first.asset.name, x.asset.name)
    ensures DistinctIds([first] + rest) && Ascending([first] + rest)
  {
    var s := [first] + rest;
    assert forall i :: 0 < i < |s| ==> s[i] == rest[i - 1];
  }

  /** After n deletions: exactly the originals that are not among the first n, in order. */
  lemma RemainingIs(plan: NormPlan, n: nat)
    requires Sane(plan) && n <= |plan.remove|
    ensures var r := Remaining(plan, n);
            && DistinctIds(r) && Ascending(r)
            && (forall x :: x in r <==> x in plan.originals && x !in plan.remove[..n])
  {
    hide Sane, Ascending, DistinctIds, Remaining;
    StepByStep(plan, n);
  }

  /** The list holds the originals other than the gone ones. */
  ghost predicate Without(r: seq<NormAsset>, originals: seq<NormAsset>, gone: seq<NormAsset>) {
    forall x :: x in r <==> x in originals && x !in gone
  }

  lemma {:induction false} StepByStep(plan: NormPlan, n: nat)
    requires Sane(plan) && n <= |plan.remove|
    ensures var r := Remaining(plan, n);
            DistinctIds(r) && Ascending(r) && Without(r, plan.originals, plan.remove[..n])
  {
    hide Sane, Ascending, DropId, DistinctIds;
    if n > 0 {
      hide Without;
      StepByStep(plan, n - 1);
      var before, gone := Remaining(plan, n - 1), plan.remove[n - 1];
      DropIs(before, gone.id);
      assert plan.remove[..n] == plan.remove[..n - 1] + [gone];
      NextGone(plan, plan.remove[..n - 1], gone, before);
    } else {
      AllOrdered(plan);
    }
  }

  lemma AllOrdered(plan: NormPlan)
    requires Sane(plan)
    ensures DistinctIds(plan.originals) && Ascending(plan.originals)
  {
  }

  lemma NextGone(plan: NormPlan, earlier: seq<NormAsset>, gone: NormAsset, before: seq<NormAsset>)
    requires Sane(plan) && gone in plan.remove && Without(before, plan.originals, earlier)
    requires DistinctIds(before) && Ascending(before)
    ensures Without(DropId(before, gone.id), plan.originals, earlier + [gone])
  {
    hide DropId, Ascending;
    DropIs(before, gone.id);
    assert forall x :: x in plan.originals ==> (x.id == gone.id <==> x == gone);
  }

  /** After all deletions the retained assets are left, as the very sequence the plan lists. */
  lemma RemainingIsRetain(plan: NormPlan)
    requires Sane(plan)
    ensures Remaining(plan, |plan.remove|) == plan.retain
  {
    var n := |plan.remove|;
    RemainingIs(plan, n);
    assert plan.remove[..n] == plan.remove;
    AscendingUnique(Remaining(plan, n), plan.retain);
  }

  /** The next deletion is still there, and everything deleted is gone. */
  lemma NextIsThere(plan: NormPlan, n: nat, k: nat)
    requires Sane(plan) && n <= |plan.remove| && k < |plan.remove|
    ensures k < n ==> forall x :: x in Remaining(plan, n) ==> x.asset.name != plan.remove[k].asset.name
    ensures k >= n ==> plan.remove[k] in Remaining(plan, n)
  {
    RemainingIs(plan, n);
    AscendingNames(plan.originals);
    var gone := plan.remove[k];
    assert gone in plan.originals;
    if k < n {
      assert plan.remove[..n][k] == gone;
      forall x | x in Remaining(plan, n) ensures x.asset.name != gone.asset.name {
        var i :| 0 <= i < |plan.originals| && plan.originals[i] == x;
        var j :| 0 <= j < |plan.originals| && plan.originals[j] == gone;
      }
    } else {
      forall j | 0 <= j < n ensures plan.remove[j] != gone {
        assert plan.remove[j].id != plan.remove[k].id;
      }
    }
  }

  // ---------------------------------------------------------------- inventories

  function Expected(plan: NormPlan, remaining: seq<NormAsset>, withChecksum: bool): seq<Asset> {
    AssetsOf(remaining) + if withChecksum then [plan.checksum] else []
  }

  function Ids(s: seq<NormAsset>): (r: seq<Identity>)
    ensures |r| == |s| && forall i :: 0 <= i < |r| ==> r[i] == Identity(s[i].asset.name, s[i].id)
  {
    seq(|s|, i requires 0 <= i < |s| => Identity(s[i].asset.name, s[i].id))
  }

  /** The recorded ids of the remaining originals, and of the checksum asset once it is known. */
  function PinOf(plan: NormPlan, remaining: seq<NormAsset>, checksumID: Option<int>): Pin {
    Pinned(plan.publishedAt, Ids(remaining) + if checksumID.Some? then [Identity(CHECKSUMS, checksumID.value)] else [])
  }

  /** The release holds exactly the remaining originals under their ids, and the checksum asset if asked. */
  ghost predicate Exactly(env: Primitives, s: State, read: Downloads, plan: NormPlan, remaining: seq<NormAsset>,
                          withChecksum: bool) {
    && Accepts(env, s, read, plan.original, plan.releaseID, false, Expected(plan, remaining, withChecksum))
    && PinHolds(s, PinOf(plan, remaining, None))
  }

  /** The original set, the original set plus checksum, or that minus a prefix of the deletions. */
  ghost predicate InFamily(env: Primitives, s: State, read: Downloads, plan: NormPlan) {
    || Exactly(env, s, read, plan, plan.originals, false)
    || exists n :: 0 <= n <= |plan.remove| && Exactly(env, s, read, plan, Remaining(plan, n), true)
  }

  lemma PinWeaker(s: State, plan: NormPlan, remaining: seq<NormAsset>, checksumID: int)
    requires PinHolds(s, PinOf(plan, remaining, Some(checksumID)))
    ensures PinHolds(s, PinOf(plan, remaining, None))
  {
    var strong, weak := PinOf(plan, remaining, Some(checksumID)).ids, PinOf(plan, remaining, None).ids;
    forall k | 0 <= k < |weak| ensures Identified(s.release.value.assets, weak[k]) {
      assert strong[k] == weak[k];
    }
  }

  // ---------------------------------------------------------------- what an inventory of the family holds

  /** After n deletions the release is the plan's public one, and its assets are these and no more. */
  ghost predicate HoldsAfter(env: Primitives, s: State, read: Downloads, plan: NormPlan, n: nat, withChecksum: bool)
    requires n <= |plan.remove|
  {
    && ReleaseOf(env, s, plan.original, plan.releaseID, false) && s.release.value.publishedAt == plan.publishedAt
    && var remote := s.release.value.assets;
       && |remote| == |plan.originals| - n + (if withChecksum then 1 else 0)
       && (forall r :: r in remote ==> r.id >= 1 && r.state == "uploaded")
       && (forall i, j :: 0 <= i < j < |remote| ==> remote[i].id != remote[j].id && remote[i].name != remote[j].name)
       && (forall x :: x in plan.originals && x !in plan.remove[..n] ==>
             exists r :: r in remote && r.id == x.id && Matches(env, r, read, x.asset))
       && (withChecksum ==> exists r :: r in remote && Matches(env, r, read, plan.checksum))
  }

  lemma {:induction false} RemainingCount(plan: NormPlan, n: nat)
    requires Sane(plan) && n <= |plan.remove|
    ensures |Remaining(plan, n)| == |plan.originals| - n
  {
    hide Sane, DropId;
    if n > 0 {
      RemainingCount(plan, n - 1);
      NextIsThere(plan, n - 1, n - 1);
      DropShorter(Remaining(plan, n - 1), plan.remove[n - 1]);
    }
  }

  /** An expected asset present under its recorded id is one remote asset. */
  lemma PinnedMatches(env: Primitives, remote: seq<RemoteAsset>, read: Downloads, x: NormAsset)
    requires Sound(remote)
    ensures Present(env, remote, read, x.asset) && Identified(remote, Identity(x.asset.name, x.id)) <==>
              exists r :: r in remote && r.id == x.id && Matches(env, r, read, x.asset)
  {
    if Present(env, remote, read, x.asset) && Identified(remote, Identity(x.asset.name, x.id)) {
      var i :| 0 <= i < |remote| && Holds(env, remote[i], read, x.asset);
      assert remote[i] in remote && Matches(env, remote[i], read, x.asset);
    }
    if r :| r in remote && r.id == x.id && Matches(env, r, read, x.asset) {
      var i :| 0 <= i < |remote| && remote[i] == r;
      assert Holds(env, remote[i], read, x.asset);
    }
  }

  lemma ExpectedAre(plan: NormPlan, remaining: seq<NormAsset>, withChecksum: bool)
    ensures |Expected(plan, remaining, withChecksum)| == |remaining| + if withChecksum then 1 else 0
    ensures forall k :: 0 <= k < |remaining| ==> Expected(plan, remaining, withChecksum)[k] == remaining[k].asset
    ensures withChecksum ==> Expected(plan, remaining, withChecksum)[|remaining|] == plan.checksum
  {
  }

  /** Accepting what remains after n deletions is finding exactly those assets, the originals under their recorded ids. */
  lemma ExactlyIs(env: Primitives, s: State, read: Downloads, plan: NormPlan, n: nat, withChecksum: bool)
    requires Sane(plan) && n <= |plan.remove|
    ensures Exactly(env, s, read, plan, Remaining(plan, n), withChecksum) <==> HoldsAfter(env, s, read, plan, n, withChecksum)
  {
    hide Sane, Remaining, Expected, Present, Identified, Matches;
    var remaining := Remaining(plan, n);
    RemainingIs(plan, n);
    RemainingCount(plan, n);
    ExpectedAre(plan, remaining, withChecksum);
    var assets, pins := Expected(plan, remaining, withChecksum), PinOf(plan, remaining, None).ids;
    if ReleaseOf(env, s, plan.original, plan.releaseID, false) && Sound(s.release.value.assets) {
      var remote := s.release.value.assets;
      PresentMatches(env, remote, read, plan.checksum);
      forall k | 0 <= k < |remaining|
        ensures Present(env, remote, read, assets[k]) && Identified(remote, pins[k]) <==>
                  exists r :: r in remote && r.id == remaining[k].id && Matches(env, r, read, remaining[k].asset)
      {
        PinnedMatches(env, remote, read, remaining[k]);
      }
      assert forall x :: x in plan.originals && x !in plan.remove[..n] <==> x in remaining;
      assert forall k :: 0 <= k < |remaining| ==> remaining[k] in remaining;
    }
  }

  /** The family: all originals, or what is left of them after some deletions in plan order beside the checksum asset. */
  lemma FamilyIs(env: Primitives, s: State, read: Downloads, plan: NormPlan)
    requires Sane(plan)
    ensures InFamily(env, s, read, plan) <==>
              || HoldsAfter(env, s, read, plan, 0, false)
              || exists n: nat :: n <= |plan.remove| && HoldsAfter(env, s, read, plan, n, true)
  {
    hide Sane, Exactly, HoldsAfter;
    ExactlyIs(env, s, read, plan, 0, false);
    assert Remaining(plan, 0) == plan.originals;
    forall n: nat | n <= |plan.remove|
      ensures Exactly(env, s, read, plan, Remaining(plan, n), true) <==> HoldsAfter(env, s, read, plan, n, true)
    {
      ExactlyIs(env, s, read, plan, n, true);
    }
  }

  // ---------------------------------------------------------------- an upload stays in the family

  lemma PresentLonger(env: Primitives, remote: seq<RemoteAsset>, read: Downloads, a: Asset, added: RemoteAsset,
                      bytes: Bytes)
    requires Present(env, remote, read, a) && added.id !in read
    ensures Present(env, remote + [added], read[added.id := bytes], a)
  {
    var i :| 0 <= i < |remote| && Holds(env, remote[i], read, a);
    assert (remote + [added])[i] == remote[i];
    assert Holds(env, (remote + [added])[i], read[added.id := bytes], a);
  }

  lemma IdentifiedLonger(remote: seq<RemoteAsset>, x: Identity, added: RemoteAsset)
    requires Identified(remote, x)
    ensures Identified(remote + [added], x)
  {
    var i :| 0 <= i < |remote| && remote[i].name == x.name && remote[i].id == x.id;
    assert (remote + [added])[i] == remote[i];
  }

  lemma UploadKeeps(env: Primitives, s: State, read: Downloads, plan: NormPlan, remaining: seq<NormAsset>,
                    added: RemoteAsset, bytes: Bytes)
    requires Exactly(env, s, read, plan, remaining, false) && Stores(env, s, read, added, bytes, plan.checksum)
    ensures Exactly(env, WithAsset(s, added), read[added.id := bytes], plan, remaining, true)
  {
    hide Sound, Holds, Present, Identified;
    var remote := s.release.value.assets;
    var after, later := remote + [added], read[added.id := bytes];
    assert Novel(remote, added);
    SoundSnoc(remote, added);
    var assets := Expected(plan, remaining, true);
    forall k | 0 <= k < |assets| ensures Present(env, after, later, assets[k]) {
      if k < |remaining| {
        assert assets[k] == Expected(plan, remaining, false)[k];
        PresentLonger(env, remote, read, assets[k], added, bytes);
      } else {
        StoredIsPresent(env, remote, read, plan.checksum, added, bytes);
      }
    }
    var pins := PinOf(plan, remaining, None).ids;
    forall k | 0 <= k < |pins| ensures Identified(after, pins[k]) {
      IdentifiedLonger(remote, pins[k], added);
    }
  }

  lemma StoredIsPresent(env: Primitives, remote: seq<RemoteAsset>, read: Downloads, a: Asset, added: RemoteAsset,
                        bytes: Bytes)
    requires added.name == a.name && added.size == a.size && added.digest == "sha256:" + a.sha256
    requires |bytes| == a.size && env.sha256(bytes) == a.sha256
    ensures Present(env, remote + [added], read[added.id := bytes], a)
  {
    assert Holds(env, (remote + [added])[|remote|], read[added.id := bytes], a);
  }

  // ---------------------------------------------------------------- a deletion stays in the family

  lemma SoundTail(remote: seq<RemoteAsset>)
    requires Sound(remote) && remote != []
    ensures Sound(remote[1..]) && Sound(remote[..1])
    ensures forall a :: a in remote[1..] ==> a.id != remote[0].id && a.name != remote[0].name
  {
  }

  lemma SoundCons(first: RemoteAsset, rest: seq<RemoteAsset>)
    requires Sound([first]) && Sound(rest) && forall a :: a in rest ==> a.id != first.id && a.name != first.name
    ensures Sound([first] + rest)
  {
  }

  lemma {:induction false} WithoutSound(remote: seq<RemoteAsset>, id: int)
    requires Sound(remote)
    ensures Sound(WithoutId(remote, id))
  {
    if remote == [] {
      SoundEmpty();
    } else {
      hide Sound;
      var first, rest := remote[0], remote[1..];
      assert remote[..1] == [first];
      SoundTail(remote);
      WithoutSound(rest, id);
      if first.id == id {
        assert WithoutId(remote, id) == WithoutId(rest, id);
      } else {
        WithoutIdIs(rest, id);
        SoundCons(first, WithoutId(rest, id));
      }
    }
  }

  lemma {:induction false} WithoutNone(remote: seq<RemoteAsset>, id: int)
    requires forall a :: a in remote ==> a.id != id
    ensures WithoutId(remote, id) == remote
  {
    if remote != [] {
      WithoutNone(remote[1..], id);
      assert remote == [remote[0]] + remote[1..];
    }
  }

  lemma {:induction false} WithoutOne(remote: seq<RemoteAsset>, i: nat)
    requires Sound(remote) && i < |remote|
    ensures |WithoutId(remote, remote[i].id)| == |remote| - 1
  {
    hide Sound;
    var first, rest := remote[0], remote[1..];
    SoundTail(remote);
    if i == 0 {
      WithoutNone(rest, first.id);
    } else {
      assert rest[i - 1] == remote[i] && rest[i - 1] in rest;
      WithoutOne(rest, i - 1);
    }
  }

  lemma IdentifiedShorter(remote: seq<RemoteAsset>, x: Identity, id: int)
    requires Identified(remote, x) && x.id != id
    ensures Identified(WithoutId(remote, id), x)
  {
    WithoutIdIs(remote, id);
  }

  /** An asset under another name than the pinned one is not the deleted one. */
  lemma PresentShorter(env: Primitives, remote: seq<RemoteAsset>, read: Downloads, a: Asset, x: Identity)
    requires Sound(remote) && Present(env, remote, read, a) && Identified(remote, x) && a.name != x.name
    ensures Present(env, WithoutId(remote, x.id), read, a)
  {
    WithoutIdIs(remote, x.id);
  }

  lemma {:induction false} DropShorter(s: seq<NormAsset>, x: NormAsset)
    requires x in s
    ensures |DropId(s, x.id)| == |s| - 1
  {
    if s[0].id != x.id {
      DropShorter(s[1..], x);
    }
  }

  lemma OtherNames(remaining: seq<NormAsset>, x: NormAsset)
    requires DistinctIds(remaining) && Ascending(remaining) && x in remaining
    ensures forall y :: y in DropId(remaining, x.id) ==> y in remaining && y.id != x.id && y.asset.name != x.asset.name
  {
    DropIs(remaining, x.id);
    AscendingNames(remaining);
    forall y | y in DropId(remaining, x.id) ensures y.asset.name != x.asset.name {
      var i :| 0 <= i < |remaining| && remaining[i] == x;
      var j :| 0 <= j < |remaining| && remaining[j] == y;
    }
  }

  lemma DeleteKeeps(env: Primitives, s: State, read: Downloads, plan: NormPlan, remaining: seq<NormAsset>, x: NormAsset)
    requires Exactly(env, s, read, plan, remaining, true) && DistinctIds(remaining) && Ascending(remaining)
    requires x in remaining && x.asset.name != plan.checksum.name
    ensures Exactly(env, WithoutAsset(s, x.id), read, plan, DropId(remaining, x.id), true)
  {
    hide Sound, Holds, Present, Identified, Ascending, DistinctIds;
    var remote := s.release.value.assets;
    var after, rest := WithoutId(remote, x.id), DropId(remaining, x.id);
    var gone := Identity(x.asset.name, x.id);
    OtherNames(remaining, x);
    DropShorter(remaining, x);
    GoneIsThere(remote, remaining, plan, s, x);
    WithoutSound(remote, x.id);
    var j :| 0 <= j < |remote| && remote[j].id == x.id;
    WithoutOne(remote, j);
    var assets := Expected(plan, rest, true);
    forall k | 0 <= k < |assets| ensures Present(env, after, read, assets[k]) {
      StillExpected(plan, remaining, rest, k);
      PresentShorter(env, remote, read, assets[k], gone);
    }
    var pins, before := PinOf(plan, rest, None).ids, PinOf(plan, remaining, None).ids;
    forall k | 0 <= k < |pins| ensures Identified(after, pins[k]) {
      assert rest[k] in remaining;
      var m :| 0 <= m < |remaining| && remaining[m] == rest[k];
      assert before[m] == pins[k];
      IdentifiedShorter(remote, pins[k], x.id);
    }
  }

  lemma GoneIsThere(remote: seq<RemoteAsset>, remaining: seq<NormAsset>, plan: NormPlan, s: State, x: NormAsset)
    requires s.release.Some? && remote == s.release.value.assets && PinHolds(s, PinOf(plan, remaining, None)) && x in remaining
    ensures Identified(remote, Identity(x.asset.name, x.id)) && exists a :: a in remote && a.id == x.id
  {
    var i :| 0 <= i < |remaining| && remaining[i] == x;
    assert PinOf(plan, remaining, None).ids[i] == Identity(x.asset.name, x.id);
    var j :| 0 <= j < |remote| && remote[j].name == x.asset.name && remote[j].id == x.id;
    assert remote[j] in remote;
  }

  lemma StillExpected(plan: NormPlan, remaining: seq<NormAsset>, rest: seq<NormAsset>, k: nat)
    requires (forall y :: y in rest ==> y in remaining) && k < |Expected(plan, rest, true)|
    ensures Expected(plan, rest, true)[k] in Expected(plan, remaining, true)
  {
    if k < |rest| {
      assert rest[k] in remaining;
      var j :| 0 <= j < |remaining| && remaining[j] == rest[k];
      assert Expected(plan, remaining, true)[j] == rest[k].asset;
    } else {
      assert Expected(plan, remaining, true)[|remaining|] == plan.checksum;
    }
  }

  // ---------------------------------------------------------------- the inventory tells where a run stopped

  lemma ExpectedNames(plan: NormPlan, n: nat, withChecksum: bool)
    requires Sane(plan) && n <= |plan.remove|
    ensures Distinct(Names(Expected(plan, Remaining(plan, n), withChecksum)))
    ensures CHECKSUMS in Names(Expected(plan, Remaining(plan, n), withChecksum)) <==> withChecksum
    ensures forall k :: 0 <= k < |plan.remove| ==>
              (plan.remove[k].asset.name in Names(Expected(plan, Remaining(plan, n), withChecksum)) <==> k >= n)
  {
    var r := Remaining(plan, n);
    var assets := Expected(plan, r, withChecksum);
    var names := Names(assets);
    RemainingIs(plan, n);
    AscendingNames(r);
    forall i | 0 <= i < |r| ensures names[i] == r[i].asset.name && names[i] != CHECKSUMS {
      assert assets[i] == r[i].asset;
      assert r[i] in plan.originals;
    }
    assert withChecksum ==> names[|r|] == CHECKSUMS;
    forall k | 0 <= k < |plan.remove| ensures plan.remove[k].asset.name in names <==> k >= n {
      NextIsThere(plan, n, k);
      assert plan.remove[k] in plan.originals;
      if k >= n {
        var i :| 0 <= i < |r| && r[i] == plan.remove[k];
        assert names[i] == plan.remove[k].asset.name;
      }
    }
  }

  /** The names alone tell which member of the family an accepted inventory is. */
  lemma NamesTell(env: Primitives, s: State, read: Downloads, plan: NormPlan, n: nat, withChecksum: bool)
    requires Sane(plan) && n <= |plan.remove| && Exactly(env, s, read, plan, Remaining(plan, n), withChecksum)
    ensures var names := RemoteNames(s.release.value.assets);
            && (CHECKSUMS in names <==> withChecksum)
            && (forall k :: 0 <= k < |plan.remove| ==> (plan.remove[k].asset.name in names <==> k >= n))
  {
    hide Sane, Sound, Present, Holds;
    var assets := Expected(plan, Remaining(plan, n), withChecksum);
    ExpectedNames(plan, n, withChecksum);
    AcceptsIsBijection(env, s, read, plan.original, plan.releaseID, false, assets);
    var names := RemoteNames(s.release.value.assets);
    assert forall x :: x in names <==> x in Elements(names);
    assert forall x :: x in Names(assets) <==> x in Elements(Names(assets));
  }
}
