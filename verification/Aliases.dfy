/** Consolidation of the findings of one module along reciprocal aliases. */
module Aliases {
  import opened Text
  import opened Evidence

  /** Both records name each other and agree on status and disposition. */
  predicate Reciprocal(a: Finding, b: Finding) {
    b.advisory in a.aliases && a.advisory in b.aliases && a.affected == b.affected && a.disposition == b.disposition
  }

  // ---------------------------------------------------------------- connected components

  ghost predicate Path(fs: seq<Finding>, p: seq<nat>) {
    && p != []
    && (forall k :: 0 <= k < |p| ==> p[k] < |fs|)
    && (forall k, l :: 0 <= k < l < |p| && l == k + 1 ==> Reciprocal(fs[p[k]], fs[p[l]]))
  }

  ghost predicate PathBetween(fs: seq<Finding>, p: seq<nat>, i: nat, j: nat) {
    Path(fs, p) && p[0] == i && p[|p| - 1] == j
  }

  ghost predicate Connected(fs: seq<Finding>, i: nat, j: nat) {
    exists p :: PathBetween(fs, p, i, j)
  }

  /** A set of findings that no reciprocal edge leaves. */
  ghost predicate Closed(fs: seq<Finding>, s: set<nat>) {
    forall i, j :: i in s && i < |fs| && 0 <= j < |fs| && Reciprocal(fs[i], fs[j]) ==> j in s
  }

  lemma ConnectedSelf(fs: seq<Finding>, i: nat)
    requires i < |fs|
    ensures Connected(fs, i, i)
  {
    assert PathBetween(fs, [i], i, i);
  }

  lemma ConnectedStep(fs: seq<Finding>, i: nat, j: nat, k: nat)
    requires Connected(fs, i, j) && j < |fs| && k < |fs| && Reciprocal(fs[j], fs[k])
    ensures Connected(fs, i, k)
  {
    var p :| PathBetween(fs, p, i, j);
    assert PathBetween(fs, p + [k], i, k);
  }

  lemma {:induction false} ConnectedStays(fs: seq<Finding>, s: set<nat>, p: seq<nat>)
    requires Closed(fs, s) && Path(fs, p) && p[0] in s
    ensures p[|p| - 1] in s
    decreases |p|
  {
    if |p| > 1 {
      assert Reciprocal(fs[p[0]], fs[p[1]]);
      assert Path(fs, p[1..]);
      ConnectedStays(fs, s, p[1..]);
    }
  }

  /** A closed set whose members all hang together with one of them is exactly its component. */
  lemma ComponentIs(fs: seq<Finding>, s: set<nat>, start: nat, i: nat, j: nat)
    requires Closed(fs, s) && start in s && i in s && i < |fs|
    requires forall k :: k in s ==> k < |fs| && Connected(fs, start, k)
    ensures j in s <==> Connected(fs, i, j)
  {
    if Connected(fs, i, j) {
      var p :| PathBetween(fs, p, i, j);
      ConnectedStays(fs, s, p);
    }
    if j in s {
      ConnectedBack(fs, start, i, j);
    }
  }

  /** Two findings connected to a third are connected to each other. */
  lemma ConnectedBack(fs: seq<Finding>, i: nat, j: nat, l: nat)
    requires Connected(fs, i, j) && Connected(fs, i, l)
    ensures Connected(fs, j, l)
  {
    hide Reciprocal;
    var p :| PathBetween(fs, p, i, j);
    var q :| PathBetween(fs, q, i, l);
    PathReversed(fs, p);
    PathJoined(fs, Reversed(p), q);
    assert PathBetween(fs, Reversed(p) + q[1..], j, l);
  }

  function Reversed(p: seq<nat>): (r: seq<nat>)
    ensures |r| == |p| && forall k :: 0 <= k < |p| ==> r[k] == p[|p| - 1 - k]
  {
    seq(|p|, k requires 0 <= k < |p| => p[|p| - 1 - k])
  }

  lemma PathReversed(fs: seq<Finding>, p: seq<nat>)
    requires Path(fs, p)
    ensures Path(fs, Reversed(p))
  {
  }

  lemma PathJoined(fs: seq<Finding>, p: seq<nat>, q: seq<nat>)
    requires Path(fs, p) && Path(fs, q) && p[|p| - 1] == q[0]
    ensures Path(fs, p + q[1..]) && (p + q[1..])[|p + q[1..]| - 1] == q[|q| - 1]
  {
  }

  /** Two records that name each other and agree on status and disposition belong together. */
  lemma NamingEachOther(fs: seq<Finding>, i: nat, j: nat)
    requires i < |fs| && j < |fs| && fs[j].advisory in fs[i].aliases && fs[i].advisory in fs[j].aliases
    requires fs[i].affected == fs[j].affected && fs[i].disposition == fs[j].disposition
    ensures Connected(fs, i, j)
  {
    ConnectedSelf(fs, i);
    ConnectedStep(fs, i, i, j);
  }

  /** Whoever belongs together with another names some other record and is named by it, with the same status. */
  lemma {:induction false} NamedByAnother(fs: seq<Finding>, p: seq<nat>) returns (l: nat)
    requires Path(fs, p) && p[0] != p[|p| - 1]
    ensures l < |fs| && l != p[0] && fs[l].advisory in fs[p[0]].aliases && fs[p[0]].advisory in fs[l].aliases
    ensures fs[l].affected == fs[p[0]].affected && fs[l].disposition == fs[p[0]].disposition
    decreases |p|
  {
    assert Reciprocal(fs[p[0]], fs[p[1]]);
    if p[1] != p[0] {
      l := p[1];
    } else {
      assert Path(fs, p[1..]);
      l := NamedByAnother(fs, p[1..]);
    }
  }

  // ---------------------------------------------------------------- forming the groups

  function Members(group: seq<nat>): set<nat> {
    set i | i in group
  }

  lemma {:induction false} DistinctBound(group: seq<nat>, n: nat)
    requires Distinct(group) && forall k :: 0 <= k < |group| ==> group[k] < n
    ensures |group| <= n
    decreases n
  {
    if group != [] {
      assert group[0] < n;
      if n - 1 in group {
        var k :| 0 <= k < |group| && group[k] == n - 1;
        DistinctBound(group[..k] + group[k + 1..], n - 1);
      } else {
        DistinctBound(group, n - 1);
      }
    }
  }

  /** sort.Ints of distinct indices below n. */
  function Ascending(group: seq<nat>, n: nat): (r: seq<nat>)
    ensures forall i :: i in r <==> i in group && i < n
    ensures forall k, l :: 0 <= k < l < |r| ==> r[k] < r[l]
  {
    if n == 0 then []
    else
      var below := Ascending(group, n - 1);
      assert forall k :: 0 <= k < |below| ==> below[k] in below;
      if n - 1 in group then below + [n - 1] else below
  }

  /** The breadth-first loop so far: the newly seen findings, all reached from start. */
  ghost predicate Growing(fs: seq<Finding>, before: seq<bool>, seen: seq<bool>, start: nat, group: seq<nat>) {
    && |before| == |seen| == |fs| && start < |fs|
    && group != [] && group[0] == start && Distinct(group)
    && (forall k :: 0 <= k < |group| ==> group[k] < |fs| && !before[group[k]] && Connected(fs, start, group[k]))
    && (forall i :: 0 <= i < |fs| ==> (seen[i] <==> before[i] || i in group))
  }

  ghost predicate SeenClosed(fs: seq<Finding>, seen: seq<bool>)
    requires |seen| == |fs|
  {
    forall i, j :: 0 <= i < |fs| && 0 <= j < |fs| && seen[i] && Reciprocal(fs[i], fs[j]) ==> seen[j]
  }

  lemma Grown(fs: seq<Finding>, before: seq<bool>, seen: seq<bool>, start: nat, group: seq<nat>, at: nat, j: nat)
    requires Growing(fs, before, seen, start, group) && at < |group| && j < |fs|
    requires !seen[j] && Reciprocal(fs[group[at]], fs[j])
    ensures Growing(fs, before, seen[j := true], start, group + [j])
  {
    hide Connected, Reciprocal;
    ConnectedStep(fs, start, group[at], j);
    var longer := group + [j];
    assert forall k :: 0 <= k < |group| ==> longer[k] == group[k];
    assert forall i :: i in longer <==> i in group || i == j;
  }

  method GrowGroup(fs: seq<Finding>, before: seq<bool>, start: nat) returns (group: seq<nat>, seen: seq<bool>)
    requires |before| == |fs| && start < |fs| && !before[start] && SeenClosed(fs, before)
    ensures Growing(fs, before, seen, start, group)
    ensures SeenClosed(fs, seen) && Closed(fs, Members(group))
  {
    hide Reciprocal, Connected;
    ConnectedSelf(fs, start);
    group, seen := [start], before[start := true];
    var at := 0;
    while at < |group|
      invariant Growing(fs, before, seen, start, group) && 0 <= at <= |group|
      invariant forall k, j :: 0 <= k < at && 0 <= j < |fs| && Reciprocal(fs[group[k]], fs[j]) ==> seen[j]
      decreases |fs| - at
    {
      DistinctBound(group, |fs|);
      var j := 0;
      while j < |fs|
        invariant 0 <= j <= |fs| && at < |group|
        invariant Growing(fs, before, seen, start, group)
        invariant forall k, l :: 0 <= k < at && 0 <= l < |fs| && Reciprocal(fs[group[k]], fs[l]) ==> seen[l]
        invariant forall l :: 0 <= l < j && Reciprocal(fs[group[at]], fs[l]) ==> seen[l]
      {
        if !seen[j] && Reciprocal(fs[group[at]], fs[j]) {
          Grown(fs, before, seen, start, group, at, j);
          seen, group := seen[j := true], group + [j];
        }
        j := j + 1;
      }
      at := at + 1;
    }
    GroupClosed(fs, before, seen, start, group);
  }

  lemma GroupClosed(fs: seq<Finding>, before: seq<bool>, seen: seq<bool>, start: nat, group: seq<nat>)
    requires Growing(fs, before, seen, start, group) && SeenClosed(fs, before)
    requires forall k, j :: 0 <= k < |group| && 0 <= j < |fs| && Reciprocal(fs[group[k]], fs[j]) ==> seen[j]
    ensures SeenClosed(fs, seen) && Closed(fs, Members(group))
  {
  }

  /** All members of the group carry its number. */
  ghost predicate Numbers(component: seq<nat>, group: seq<nat>, number: nat) {
    forall k :: 0 <= k < |group| ==> group[k] < |component| && component[group[k]] == number
  }

  /** All members of the group are seen. */
  ghost predicate AllSeen(seen: seq<bool>, group: seq<nat>) {
    forall k :: 0 <= k < |group| ==> group[k] < |seen| && seen[group[k]]
  }

  /** The grouping: every finding belongs to the one group its component number names. */
  ghost predicate Grouping(fs: seq<Finding>, groups: seq<seq<nat>>, component: seq<nat>) {
    && |component| == |fs|
    && (forall i :: 0 <= i < |fs| ==> component[i] < |groups| && i in groups[component[i]])
    && (forall g :: 0 <= g < |groups| ==> groups[g] != [] && Distinct(groups[g]) && Numbers(component, groups[g], g))
  }

  /** The outer loop so far: grouped findings, seen exactly when grouped, each group one component. */
  ghost predicate Grouped(fs: seq<Finding>, seen: seq<bool>, groups: seq<seq<nat>>, component: seq<nat>) {
    && |component| == |seen| == |fs|
    && (forall i :: 0 <= i < |fs| && seen[i] ==> component[i] < |groups| && i in groups[component[i]])
    && (forall g :: 0 <= g < |groups| ==> groups[g] != [] && Distinct(groups[g]) && Numbers(component, groups[g], g))
    && (forall g :: 0 <= g < |groups| ==> AllSeen(seen, groups[g]) && IsComponent(fs, groups[g]))
  }

  ghost predicate IsComponent(fs: seq<Finding>, group: seq<nat>) {
    forall i: nat, j: nat :: i in group ==> (j in group <==> Connected(fs, i, j))
  }

  /** The component number written to every member of the new group. */
  function Numbered(component: seq<nat>, group: seq<nat>, number: nat): (r: seq<nat>)
    ensures |r| == |component|
    ensures forall i :: 0 <= i < |r| ==> r[i] == if i in group then number else component[i]
  {
    seq(|component|, i requires 0 <= i < |component| => if i in group then number else component[i])
  }

  lemma GroupIsComponent(fs: seq<Finding>, before: seq<bool>, seen: seq<bool>, start: nat, found: seq<nat>)
    requires Growing(fs, before, seen, start, found) && Closed(fs, Members(found))
    ensures var group := Ascending(found, |fs|);
            && group != [] && Distinct(group) && IsComponent(fs, group)
            && forall i: nat :: i in group ==> i < |fs| && seen[i] && !before[i]
    ensures forall i :: 0 <= i < |fs| ==> (seen[i] <==> before[i] || i in Ascending(found, |fs|))
  {
    hide Connected, Closed, Ascending;
    var group := Ascending(found, |fs|);
    assert start in group;
    forall i: nat, j: nat | i in group ensures j in group <==> Connected(fs, i, j) {
      ComponentIs(fs, Members(found), start, i, j);
    }
  }

  lemma GroupAdded(fs: seq<Finding>, before: seq<bool>, seen: seq<bool>, groups: seq<seq<nat>>, component: seq<nat>,
                   group: seq<nat>)
    requires Grouped(fs, before, groups, component) && |seen| == |fs|
    requires group != [] && Distinct(group) && IsComponent(fs, group)
    requires forall i: nat :: i in group ==> i < |fs| && seen[i] && !before[i]
    requires forall i :: 0 <= i < |fs| ==> (seen[i] <==> before[i] || i in group)
    ensures Grouped(fs, seen, groups + [group], Numbered(component, group, |groups|))
  {
    hide IsComponent, Numbered;
    var longer := groups + [group];
    assert longer[|groups|] == group;
    forall k | 0 <= k < |group| ensures group[k] < |fs| && Numbered(component, group, |groups|)[group[k]] == |groups| && seen[group[k]] {
      assert group[k] in group;
    }
    forall g | 0 <= g < |groups|
      ensures longer[g] == groups[g] && Numbers(Numbered(component, group, |groups|), longer[g], g) && AllSeen(seen, longer[g])
    {
      assert AllSeen(before, groups[g]) && Numbers(component, groups[g], g);
    }
  }

  lemma SameGroupIsConnected(fs: seq<Finding>, seen: seq<bool>, groups: seq<seq<nat>>, component: seq<nat>, i: nat,
                             j: nat)
    requires Grouped(fs, seen, groups, component) && i < |fs| && j < |fs| && seen[i] && seen[j]
    ensures component[i] == component[j] <==> Connected(fs, i, j)
  {
  }

  method FormGroups(fs: seq<Finding>) returns (groups: seq<seq<nat>>, component: seq<nat>)
    ensures |component| == |fs| && Grouping(fs, groups, component)
    ensures forall i, j :: 0 <= i < |fs| && 0 <= j < |fs| ==> (component[i] == component[j] <==> Connected(fs, i, j))
  {
    hide Connected, Closed, Reciprocal, IsComponent, Ascending;
    groups := [];
    component := seq(|fs|, _ => 0);
    var seen := seq(|fs|, _ => false);
    var start := 0;
    while start < |fs|
      invariant 0 <= start <= |fs| && |seen| == |fs| && SeenClosed(fs, seen)
      invariant forall i :: 0 <= i < start ==> seen[i]
      invariant Grouped(fs, seen, groups, component)
    {
      if !seen[start] {
        var found, now := GrowGroup(fs, seen, start);
        GroupIsComponent(fs, seen, now, start, found);
        var group := Ascending(found, |fs|);
        GroupAdded(fs, seen, now, groups, component, group);
        component := Numbered(component, group, |groups|);
        groups := groups + [group];
        seen := now;
      }
      start := start + 1;
    }
    forall i, j | 0 <= i < |fs| && 0 <= j < |fs| ensures component[i] == component[j] <==> Connected(fs, i, j) {
      SameGroupIsConnected(fs, seen, groups, component, i, j);
    }
  }

  // ---------------------------------------------------------------- overlapping identifiers

  /** All identifiers a finding carries. */
  function Ids(f: Finding): set<string> {
    Elements(f.aliases) + {f.advisory}
  }

  /** securityAliasOverlap: compares the size of a union with the sum of the sizes. */
  predicate AliasOverlap(a: Finding, b: Finding) {
    |Union(a.aliases + [a.advisory], b.aliases + [b.advisory])|
      < |Union(a.aliases, [a.advisory])| + |Union(b.aliases, [b.advisory])|
  }

  lemma AliasOverlapIsIntersection(a: Finding, b: Finding)
    ensures AliasOverlap(a, b) <==> !(Ids(a) !! Ids(b))
  {
    hide Union, StrictlySorted;
    var both := Union(a.aliases + [a.advisory], b.aliases + [b.advisory]);
    assert |both| == |Ids(a) + Ids(b)| by {
      SortedLength(both);
      WithAdvisory(a.aliases, a.advisory);
      WithAdvisory(b.aliases, b.advisory);
    }
    UnionWithOne(a.aliases, a.advisory);
    UnionWithOne(b.aliases, b.advisory);
    assert AliasOverlap(a, b) <==> |Ids(a) + Ids(b)| < |Ids(a)| + |Ids(b)|;
    CardinalityMeansOverlap(Ids(a), Ids(b));
  }

  lemma WithAdvisory(aliases: seq<string>, advisory: string)
    ensures Elements(aliases + [advisory]) == Elements(aliases) + {advisory}
  {
  }

  lemma UnionWithOne(aliases: seq<string>, advisory: string)
    ensures |Union(aliases, [advisory])| == |Elements(aliases) + {advisory}|
  {
    hide Union, StrictlySorted;
    SortedLength(Union(aliases, [advisory]));
    assert Elements([advisory]) == {advisory};
  }

  ghost predicate NoOverlap(fs: seq<Finding>, component: seq<nat>)
    requires |component| == |fs|
  {
    forall x, y :: 0 <= x < |fs| && 0 <= y < |fs| && component[x] != component[y] ==> Ids(fs[x]) !! Ids(fs[y])
  }

  method OverlapCodes(fs: seq<Finding>, component: seq<nat>) returns (quality: seq<string>)
    requires |component| == |fs|
    ensures quality == [] <==> NoOverlap(fs, component)
    ensures forall c :: c in quality ==> c == "ALIAS_AMBIGUOUS_OR_CONFLICTING"
  {
    hide Union, AliasOverlap, Ids;
    quality := [];
    var x := 0;
    while x < |fs|
      invariant 0 <= x <= |fs| && forall c :: c in quality ==> c == "ALIAS_AMBIGUOUS_OR_CONFLICTING"
      invariant quality == [] <==> forall k, l :: 0 <= k < x && k < l < |fs| && component[k] != component[l] ==> Ids(fs[k]) !! Ids(fs[l])
    {
      ghost var clean := quality == [];
      var y := x + 1;
      while y < |fs|
        invariant x < y <= |fs| && forall c :: c in quality ==> c == "ALIAS_AMBIGUOUS_OR_CONFLICTING"
        invariant quality == [] <==> clean && forall l :: x < l < y && component[x] != component[l] ==> Ids(fs[x]) !! Ids(fs[l])
      {
        AliasOverlapIsIntersection(fs[x], fs[y]);
        if component[x] != component[y] && AliasOverlap(fs[x], fs[y]) {
          quality := quality + ["ALIAS_AMBIGUOUS_OR_CONFLICTING"];
        }
        y := y + 1;
      }
      x := x + 1;
    }
  }
}
