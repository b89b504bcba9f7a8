/** The normalization plan: which of the original assets stay, which go, and what makes the plan valid. */
module NormalizationPlan {
  import opened Text
  import opened Readback
  import Sorting

  const CHECKSUMS := "SHA256SUMS"

  datatype NormAsset = NormAsset(id: int, asset: Asset)

  datatype NormPlan = NormPlan(original: Plan, releaseID: int, publishedAt: string, originals: seq<NormAsset>,
                               retain: seq<NormAsset>, remove: seq<NormAsset>, checksum: Asset)

  /** How many assets a plan has in all, keeps and deletes: 40, 4 and 36. */
  datatype Scope = Scope(total: nat, kept: nat, dropped: nat)

  predicate Ascending(s: seq<NormAsset>) {
    forall i, j :: 0 <= i < j < |s| ==> Less(s[i].asset.name, s[j].asset.name)
  }

  predicate DistinctIds(s: seq<NormAsset>) {
    forall i, j :: 0 <= i < j < |s| ==> s[i].id != s[j].id
  }

  predicate DistinctNames(s: seq<NormAsset>) {
    forall i, j :: 0 <= i < j < |s| ==> s[i].asset.name != s[j].asset.name
  }

  /** Original identities in canonical form. */
  predicate Canonical(s: seq<NormAsset>) {
    && Ascending(s) && DistinctIds(s)
    && forall i :: 0 <= i < |s| ==> s[i].id >= 1 && s[i].asset.name != ""
  }

  /** The assets whose names are (or are not) in the given set, in order. */
  function Select(s: seq<NormAsset>, keep: set<string>, kept: bool): (r: seq<NormAsset>)
    ensures forall x :: x in r <==> x in s && (x.asset.name in keep) == kept
  {
    if s == [] then []
    else
      assert s == s[..|s| - 1] + [s[|s| - 1]];
      Select(s[..|s| - 1], keep, kept)
      + if (s[|s| - 1].asset.name in keep) == kept then [s[|s| - 1]] else []
  }

  function KeptNames(projected: seq<Asset>): set<string> {
    set a | a in projected && a.name != CHECKSUMS :: a.name
  }

  function ChecksumOf(projected: seq<Asset>): Asset {
    if projected == [] then Asset("", "", 0, "")
    else if projected[|projected| - 1].name == CHECKSUMS then projected[|projected| - 1]
    else ChecksumOf(projected[..|projected| - 1])
  }

  function AssetsOf(s: seq<NormAsset>): (r: seq<Asset>)
    ensures |r| == |s| && forall i :: 0 <= i < |r| ==> r[i] == s[i].asset
  {
    seq(|s|, i requires 0 <= i < |s| => s[i].asset)
  }

  /** The plan splits the verified original inventory by the projected archive names and binds the checksum asset. */
  ghost predicate Valid(plan: NormPlan, legacy: seq<Asset>, projected: seq<Asset>) {
    && plan.releaseID >= 1 && Canonical(plan.originals)
    && Elements(AssetsOf(plan.originals)) == Elements(legacy)
    && plan.checksum == ChecksumOf(projected)
    && plan.retain == Select(plan.originals, KeptNames(projected), true)
    && plan.remove == Select(plan.originals, KeptNames(projected), false)
  }

  predicate InScope(plan: NormPlan, scope: Scope) {
    |plan.originals| == scope.total && |plan.retain| == scope.kept && |plan.remove| == scope.dropped
  }

  // ---------------------------------------------------------------- sorting by name

  function NameOf(x: NormAsset): string {
    x.asset.name
  }

  function SortByName(s: seq<NormAsset>): (r: seq<NormAsset>)
    ensures |r| == |s| && forall y :: y in r <==> y in s
  {
    Sorting.SortBy(NameOf, s)
  }

  lemma SortAscending(s: seq<NormAsset>)
    requires DistinctNames(s)
    ensures Ascending(SortByName(s))
  {
    Sorting.SortAscends(NameOf, s);
  }

  /** A set of names has one strictly ascending listing. */
  lemma AscendingUnique(a: seq<NormAsset>, b: seq<NormAsset>)
    requires Ascending(a) && Ascending(b) && forall x :: x in a <==> x in b
    ensures a == b
  {
    Sorting.AscendingUnique(NameOf, a, b);
  }

  lemma {:induction false} SelectAscending(s: seq<NormAsset>, keep: set<string>, kept: bool)
    requires Ascending(s)
    ensures Ascending(Select(s, keep, kept))
  {
    if s != [] {
      SelectAscending(s[..|s| - 1], keep, kept);
    }
  }

  lemma AscendingNames(s: seq<NormAsset>)
    requires Ascending(s)
    ensures DistinctNames(s)
  {
    forall i, j | 0 <= i < j < |s| ensures s[i].asset.name != s[j].asset.name {
      LessIrreflexive(s[i].asset.name);
    }
  }

  // ---------------------------------------------------------------- validation

  lemma CanonicalSnoc(s: seq<NormAsset>, x: NormAsset)
    ensures Canonical(s + [x]) <==>
              && Canonical(s) && x.id >= 1 && x.asset.name != "" && (forall y :: y in s ==> y.id != x.id)
              && (s != [] ==> Less(s[|s| - 1].asset.name, x.asset.name))
  {
    var all := s + [x];
    assert forall i :: 0 <= i < |s| ==> all[i] == s[i];
    assert all[|s|] == x;
    if s != [] && Canonical(s) && Less(s[|s| - 1].asset.name, x.asset.name) {
      forall i | 0 <= i < |s| ensures Less(s[i].asset.name, x.asset.name) {
        if i < |s| - 1 {
          LessTransitive(s[i].asset.name, s[|s| - 1].asset.name, x.asset.name);
        }
      }
    }
  }

  lemma CanonicalPrefix(s: seq<NormAsset>, n: nat)
    requires n <= |s| && Canonical(s)
    ensures Canonical(s[..n])
  {
  }

  /** The lookup tables after these originals. */
  ghost predicate Recorded(s: seq<NormAsset>, ids: set<int>, byName: map<string, NormAsset>) {
    && (forall x :: x in s ==> x.id in ids)
    && (forall i :: i in ids ==> exists k :: 0 <= k < |s| && s[k].id == i)
    && (forall n :: n in byName ==> byName[n] in s && byName[n].asset.name == n)
    && (forall x :: x in s ==> x.asset.name in byName && byName[x.asset.name] == x)
  }

  lemma RecordedSnoc(s: seq<NormAsset>, ids: set<int>, byName: map<string, NormAsset>, x: NormAsset)
    requires Recorded(s, ids, byName) && forall y :: y in s ==> y.asset.name != x.asset.name
    ensures Recorded(s + [x], ids + {x.id}, byName[x.asset.name := x])
  {
    var all := s + [x];
    assert all[|s|] == x && forall k :: 0 <= k < |s| ==> all[k] == s[k];
  }

  predicate Follows(ids: set<int>, previous: string, x: NormAsset) {
    x.id >= 1 && x.id !in ids && Less(previous, x.asset.name)
  }

  lemma OriginalsStep(originals: seq<NormAsset>, i: nat, ids: set<int>, byName: map<string, NormAsset>)
    requires i < |originals| && Canonical(originals[..i]) && Recorded(originals[..i], ids, byName)
    ensures var a := originals[i];
            if Follows(ids, if i == 0 then "" else originals[i - 1].asset.name, a)
            then Canonical(originals[..i + 1]) && Recorded(originals[..i + 1], ids + {a.id}, byName[a.asset.name := a])
            else !Canonical(originals)
  {
    hide Canonical;
    var s, a := originals[..i], originals[i];
    assert originals[..i + 1] == s + [a];
    CanonicalSnoc(s, a);
    if Canonical(originals) {
      CanonicalPrefix(originals, i + 1);
    }
    if Follows(ids, if i == 0 then "" else originals[i - 1].asset.name, a) {
      NewName(s, a);
      RecordedSnoc(s, ids, byName, a);
    }
  }

  /** The first loop: ids and order of the recorded originals. */
  method CheckOriginals(originals: seq<NormAsset>) returns (ok: bool, byName: map<string, NormAsset>)
    ensures ok <==> Canonical(originals)
    ensures ok ==> forall n :: n in byName ==> byName[n] in originals && byName[n].asset.name == n
    ensures ok ==> forall x :: x in originals ==> x.asset.name in byName && byName[x.asset.name] == x
  {
    byName := map[];
    var ids: set<int> := {};
    var previous := "";
    var i := 0;
    assert Canonical([]);
    while i < |originals|
      invariant 0 <= i <= |originals| && Canonical(originals[..i]) && Recorded(originals[..i], ids, byName)
      invariant previous == if i == 0 then "" else originals[i - 1].asset.name
    {
      hide Canonical, Recorded, Less;
      var a := originals[i];
      OriginalsStep(originals, i, ids, byName);
      if !Follows(ids, previous, a) {
        return false, byName;
      }
      byName := byName[a.asset.name := a];
      ids := ids + {a.id};
      previous := a.asset.name;
      i := i + 1;
    }
    assert originals[..i] == originals;
    return true, byName;
  }

  lemma NewName(s: seq<NormAsset>, x: NormAsset)
    requires Canonical(s) && (s != [] ==> Less(s[|s| - 1].asset.name, x.asset.name))
    ensures forall y :: y in s ==> y.asset.name != x.asset.name
  {
    forall y | y in s ensures y.asset.name != x.asset.name {
      var i :| 0 <= i < |s| && s[i] == y;
      if i < |s| - 1 {
        LessTransitive(y.asset.name, s[|s| - 1].asset.name, x.asset.name);
      }
      LessIrreflexive(x.asset.name);
    }
  }

  /** The second loop: archive names to keep and the generated checksum asset. */
  method ReadProjection(projected: seq<Asset>) returns (keep: set<string>, checksum: Asset)
    ensures keep == KeptNames(projected) && checksum == ChecksumOf(projected)
  {
    keep := {};
    checksum := Asset("", "", 0, "");
    var i := 0;
    while i < |projected|
      invariant 0 <= i <= |projected|
      invariant keep == KeptNames(projected[..i]) && checksum == ChecksumOf(projected[..i])
    {
      assert projected[..i + 1] == projected[..i] + [projected[i]];
      if projected[i].name == CHECKSUMS {
        checksum := projected[i];
      } else {
        keep := keep + {projected[i].name};
      }
      i := i + 1;
    }
    assert projected[..i] == projected;
  }

  /** The third loop: every legacy asset is a recorded original; splits them by name. */
  method SplitLegacy(originals: seq<NormAsset>, byName: map<string, NormAsset>, legacy: seq<Asset>, keep: set<string>)
    returns (ok: bool, retain: seq<NormAsset>, remove: seq<NormAsset>)
    requires Distinct(Names(legacy))
    requires forall n :: n in byName ==> byName[n] in originals && byName[n].asset.name == n
    requires forall x :: x in originals ==> x.asset.name in byName && byName[x.asset.name] == x
    ensures ok <==> forall a :: a in legacy ==> a in AssetsOf(originals)
    ensures ok ==> DistinctNames(retain) && DistinctNames(remove)
    ensures ok ==> forall o :: o in retain <==> o in originals && o.asset in legacy && o.asset.name in keep
    ensures ok ==> forall o :: o in remove <==> o in originals && o.asset in legacy && o.asset.name !in keep
  {
    hide DistinctNames, Distinct, Names;
    retain, remove := [], [];
    NonePicked();
    var i := 0;
    while i < |legacy|
      invariant 0 <= i <= |legacy| && DistinctNames(retain) && DistinctNames(remove)
      invariant forall a :: a in legacy[..i] ==> a in AssetsOf(originals)
      invariant forall o :: o in retain <==> o in originals && o.asset in legacy[..i] && o.asset.name in keep
      invariant forall o :: o in remove <==> o in originals && o.asset in legacy[..i] && o.asset.name !in keep
    {
      var expected := legacy[i];
      assert legacy[..i + 1] == legacy[..i] + [expected];
      if expected.name !in byName || byName[expected.name].asset != expected {
        assert expected in legacy && expected !in AssetsOf(originals);
        return false, retain, remove;
      }
      var actual := byName[expected.name];
      var k :| 0 <= k < |originals| && originals[k] == actual;
      assert AssetsOf(originals)[k] == expected;
      if expected.name in keep {
        PickedNext(retain, legacy, i, actual);
        retain := retain + [actual];
      } else {
        PickedNext(remove, legacy, i, actual);
        remove := remove + [actual];
      }
      i := i + 1;
    }
    assert legacy[..i] == legacy;
    return true, retain, remove;
  }

  lemma NonePicked()
    ensures DistinctNames([])
  {
  }

  /** An original standing for the i-th legacy asset has another name than those standing for earlier ones. */
  lemma PickedNext(part: seq<NormAsset>, legacy: seq<Asset>, i: nat, x: NormAsset)
    requires Distinct(Names(legacy)) && i < |legacy| && x.asset == legacy[i]
    requires DistinctNames(part) && forall o :: o in part ==> o.asset in legacy[..i]
    ensures DistinctNames(part + [x])
  {
    forall k | 0 <= k < |part| ensures part[k].asset.name != x.asset.name {
      assert part[k] in part;
      var j :| 0 <= j < i && legacy[j] == part[k].asset;
      assert Names(legacy)[j] != Names(legacy)[i];
    }
  }

  /** Equally many: an inventory contained in the originals is all of them. */
  lemma NothingMissing(originals: seq<NormAsset>, legacy: seq<Asset>)
    requires Canonical(originals) && Distinct(Names(legacy)) && |legacy| == |originals|
    requires forall a :: a in legacy ==> a in AssetsOf(originals)
    ensures Elements(AssetsOf(originals)) == Elements(legacy)
  {
    hide Canonical;
    var assets := AssetsOf(originals);
    assert Distinct(legacy) by {
      assert forall i, j :: 0 <= i < j < |legacy| ==> Names(legacy)[i] != Names(legacy)[j];
    }
    assert Distinct(assets) by {
      assert Canonical(originals);
      CanonicalDistinct(originals);
    }
    DistinctCount(legacy);
    DistinctCount(assets);
    SubsetOfSameSize(Elements(legacy), Elements(assets));
  }

  lemma CanonicalDistinct(originals: seq<NormAsset>)
    requires Canonical(originals)
    ensures DistinctNames(originals) && Distinct(AssetsOf(originals))
  {
    AscendingNames(originals);
  }

  /** Sorting what was found by name gives the plan's own order. */
  lemma SortedSelection(originals: seq<NormAsset>, legacy: seq<Asset>, keep: set<string>, kept: bool,
                        found: seq<NormAsset>)
    requires Canonical(originals) && Elements(AssetsOf(originals)) == Elements(legacy) && DistinctNames(found)
    requires forall o :: o in found <==> o in originals && o.asset in legacy && (o.asset.name in keep) == kept
    ensures SortByName(found) == Select(originals, keep, kept)
  {
    SortAscending(found);
    SelectAscending(originals, keep, kept);
    forall o | o in originals ensures o.asset in legacy {
      var k :| 0 <= k < |originals| && originals[k] == o;
      assert AssetsOf(originals)[k] in Elements(legacy);
    }
    AscendingUnique(SortByName(found), Select(originals, keep, kept));
  }

  /**
   validateNormalization. bound stands for the checks of the original publication manifest, legacy for the
   inventory of the verified directory plus the manifest (its names are distinct), projected for the archive
   assets and the generated checksum asset.
   */
  method ValidateNormalization(plan: NormPlan, bound: bool, legacy: seq<Asset>, projected: seq<Asset>, scope: Scope)
    returns (ok: bool)
    requires Distinct(Names(legacy))
    ensures ok <==> bound && |legacy| == scope.total && InScope(plan, scope) && Valid(plan, legacy, projected)
  {
    hide Canonical, Select, SortByName;
    if !bound || |legacy| != scope.total || plan.releaseID < 1 || !InScope(plan, scope) {
      return false;
    }
    var canonical, byName := CheckOriginals(plan.originals);
    if !canonical {
      return false;
    }
    var keep, checksum := ReadProjection(projected);
    if plan.checksum != checksum {
      return false;
    }
    var complete, retain, remove := SplitLegacy(plan.originals, byName, legacy, keep);
    if !complete {
      var a :| a in legacy && a !in AssetsOf(plan.originals);
      assert a in Elements(legacy) && a !in Elements(AssetsOf(plan.originals));
      return false;
    }
    NothingMissing(plan.originals, legacy);
    SortedSelection(plan.originals, legacy, keep, true, retain);
    SortedSelection(plan.originals, legacy, keep, false, remove);
    return SortByName(retain) == plan.retain && SortByName(remove) == plan.remove;
  }

  // ---------------------------------------------------------------- what validity comes to

  /** The original is kept: an archive of the projection carries its name. */
  ghost predicate Archived(x: NormAsset, projected: seq<Asset>) {
    exists a :: a in projected && a.name != "SHA256SUMS" && a.name == x.asset.name
  }

  /** The checksum asset is the last of that name, or nothing at all. */
  ghost predicate LastChecksum(c: Asset, projected: seq<Asset>) {
    if forall a :: a in projected ==> a.name != "SHA256SUMS" then c == Asset("", "", 0, "")
    else exists i :: 0 <= i < |projected| && projected[i] == c && c.name == "SHA256SUMS"
                     && forall j :: i < j < |projected| ==> projected[j].name != "SHA256SUMS"
  }

  lemma {:induction false} ChecksumIsLast(projected: seq<Asset>)
    ensures LastChecksum(ChecksumOf(projected), projected)
  {
    if projected != [] {
      var n := |projected| - 1;
      ChecksumIsLast(projected[..n]);
      assert projected == projected[..n] + [projected[n]];
      if projected[n].name == "SHA256SUMS" {
        assert projected[n] in projected;
      }
    }
  }

  lemma LastIsOne(c: Asset, d: Asset, projected: seq<Asset>)
    requires LastChecksum(c, projected) && LastChecksum(d, projected)
    ensures c == d
  {
  }

  /** The part is listed by name and holds exactly the originals it should. */
  ghost predicate Listing(part: seq<NormAsset>, originals: seq<NormAsset>, projected: seq<Asset>, kept: bool) {
    && (forall i, j :: 0 <= i < j < |part| ==> Less(part[i].asset.name, part[j].asset.name))
    && forall x :: x in part <==> x in originals && Archived(x, projected) == kept
  }

  lemma SelectIsListing(part: seq<NormAsset>, originals: seq<NormAsset>, projected: seq<Asset>, kept: bool)
    requires Ascending(originals)
    ensures part == Select(originals, KeptNames(projected), kept) <==> Listing(part, originals, projected, kept)
  {
    var found := Select(originals, KeptNames(projected), kept);
    SelectAscending(originals, KeptNames(projected), kept);
    forall x: NormAsset ensures x.asset.name in KeptNames(projected) <==> Archived(x, projected) {
    }
    if Listing(part, originals, projected, kept) {
      AscendingUnique(part, found);
    }
  }

  /**
   A plan is valid exactly when its originals are named in order, under distinct positive ids, and are the legacy
   assets, those of an archive's name are retained, the others deleted, and the checksum asset is the projected one.
   */
  lemma ValidIs(plan: NormPlan, legacy: seq<Asset>, projected: seq<Asset>)
    ensures Valid(plan, legacy, projected) <==>
              && plan.releaseID >= 1
              && (forall i, j :: 0 <= i < j < |plan.originals| ==>
                    && Less(plan.originals[i].asset.name, plan.originals[j].asset.name)
                    && plan.originals[i].id != plan.originals[j].id)
              && (forall x :: x in plan.originals ==> x.id >= 1 && x.asset.name != "")
              && (forall a :: a in legacy <==> exists x :: x in plan.originals && x.asset == a)
              && Listing(plan.retain, plan.originals, projected, true)
              && Listing(plan.remove, plan.originals, projected, false) && LastChecksum(plan.checksum, projected)
  {
    hide Select, KeptNames, Listing, LastChecksum;
    if Ascending(plan.originals) {
      SelectIsListing(plan.retain, plan.originals, projected, true);
      SelectIsListing(plan.remove, plan.originals, projected, false);
    }
    ChecksumIsLast(projected);
    if LastChecksum(plan.checksum, projected) {
      LastIsOne(plan.checksum, ChecksumOf(projected), projected);
    }
    SameAssets(plan.originals, legacy);
  }

  lemma SameAssets(originals: seq<NormAsset>, legacy: seq<Asset>)
    ensures Elements(AssetsOf(originals)) == Elements(legacy) <==>
              forall a :: a in legacy <==> exists x :: x in originals && x.asset == a
  {
    var assets := AssetsOf(originals);
    forall a ensures a in assets <==> exists x :: x in originals && x.asset == a {
      if a in assets {
        var i :| 0 <= i < |assets| && assets[i] == a;
        assert originals[i] in originals;
      }
      if x :| x in originals && x.asset == a {
        var i :| 0 <= i < |originals| && originals[i] == x;
        assert assets[i] == a;
      }
    }
    assert forall a :: a in Elements(assets) <==> a in assets;
    assert forall a :: a in Elements(legacy) <==> a in legacy;
  }

  // ---------------------------------------------------------------- a valid plan partitions

  lemma SelectSnoc(s: seq<NormAsset>, x: NormAsset, keep: set<string>, kept: bool)
    ensures Select(s + [x], keep, kept) == Select(s, keep, kept) + if (x.asset.name in keep) == kept then [x] else []
  {
  }

  lemma {:induction false} SelectCounts(s: seq<NormAsset>, keep: set<string>)
    ensures multiset(Select(s, keep, true)) + multiset(Select(s, keep, false)) == multiset(s)
  {
    if s != [] {
      hide Select;
      var init, last := s[..|s| - 1], s[|s| - 1];
      assert s == init + [last];
      SelectCounts(init, keep);
      SelectSnoc(init, last, keep, true);
      SelectSnoc(init, last, keep, false);
      SnocCount(init, last);
      SnocCount(Select(init, keep, last.asset.name in keep), last);
    }
  }

  lemma SnocCount(s: seq<NormAsset>, x: NormAsset)
    ensures multiset(s + [x]) == multiset(s) + multiset{x}
  {
  }

  /** Every original is retained or deleted, never both, and no id or name occurs twice. */
  lemma ValidPartitions(plan: NormPlan, legacy: seq<Asset>, projected: seq<Asset>)
    requires Valid(plan, legacy, projected)
    ensures multiset(plan.originals) == multiset(plan.retain) + multiset(plan.remove)
    ensures forall a, b :: a in plan.retain && b in plan.remove ==> a.id != b.id && a.asset.name != b.asset.name
    ensures DistinctIds(plan.originals) && DistinctIds(plan.remove) && Ascending(plan.retain) && Ascending(plan.remove)
  {
    hide Select;
    var keep := KeptNames(projected);
    SelectCounts(plan.originals, keep);
    SelectAscending(plan.originals, keep, true);
    SelectAscending(plan.originals, keep, false);
    forall a, b | a in plan.retain && b in plan.remove ensures a.id != b.id {
      assert a in plan.originals && b in plan.originals && a != b;
    }
    SelectIds(plan.originals, keep, false);
  }

  lemma {:induction false} SelectIds(s: seq<NormAsset>, keep: set<string>, kept: bool)
    requires DistinctIds(s)
    ensures DistinctIds(Select(s, keep, kept))
  {
    if s != [] {
      SelectIds(s[..|s| - 1], keep, kept);
    }
  }
}
