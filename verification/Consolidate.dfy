/** Merging each alias group into one finding, or keeping its members apart when fixes are in doubt. */
module Consolidate {
  import opened Text
  import opened Evidence
  import opened Aliases

  /** The map lookup of the source: a missing record reads as the empty one. */
  function Lookup(advisories: map<string, Advisory>, id: string): Advisory {
    if id in advisories then advisories[id] else Advisory("", "", "", [], [], "")
  }

  function MergeOne(m: Finding, b: Finding): Finding {
    var raise := Rank(b.severity) > Rank(m.severity);
    m.(records := Union(m.records, b.records),
       aliases := Union(Union(m.aliases, b.aliases), b.records),
       fixVersions := Union(m.fixVersions, b.fixVersions),
       severity := if raise then b.severity else m.severity,
       priority := if raise then b.priority else m.priority)
  }

  function MergeFirst(fs: seq<Finding>, group: seq<nat>, n: nat): Finding
    requires 0 < n <= |group| && forall k :: 0 <= k < |group| ==> group[k] < |fs|
  {
    if n == 1 then fs[group[0]] else MergeOne(MergeFirst(fs, group, n - 1), fs[group[n - 1]])
  }

  function Merged(fs: seq<Finding>, group: seq<nat>): Finding
    requires group != [] && forall k :: 0 <= k < |group| ==> group[k] < |fs|
  {
    var m := MergeFirst(fs, group, |group|);
    if m.fixVersions != [] then m.(remediation := REVIEW_UPGRADE) else m
  }

  // ---------------------------------------------------------------- what a merged finding carries

  /** f carries exactly the records and fixes of the first n members, and only their identifiers. */
  ghost predicate Carries(fs: seq<Finding>, group: seq<nat>, n: nat, f: Finding)
    requires n <= |group| && forall k :: 0 <= k < |group| ==> group[k] < |fs|
  {
    && (forall x :: x in f.records <==> exists k :: 0 <= k < n && x in fs[group[k]].records)
    && (forall x :: x in f.fixVersions <==> exists k :: 0 <= k < n && x in fs[group[k]].fixVersions)
    && (forall x :: x in f.aliases <==>
          exists k :: 0 <= k < n && (x in fs[group[k]].aliases || (k > 0 && x in fs[group[k]].records)))
  }

  /** The rank is the maximum over the members, and severity and priority come from one member. */
  ghost predicate Highest(fs: seq<Finding>, group: seq<nat>, n: nat, f: Finding)
    requires n <= |group| && forall k :: 0 <= k < |group| ==> group[k] < |fs|
  {
    && (forall k :: 0 <= k < n ==> Rank(fs[group[k]].severity) <= Rank(f.severity))
    && (exists k :: 0 <= k < n && fs[group[k]].severity == f.severity && fs[group[k]].priority == f.priority)
  }

  lemma InUnion(x: string, a: seq<string>, b: seq<string>)
    ensures x in Union(a, b) <==> x in a || x in b
  {
    hide Union;
    assert x in Union(a, b) <==> x in Elements(Union(a, b));
  }

  lemma {:induction false} MergeCarries(fs: seq<Finding>, group: seq<nat>, n: nat)
    requires 0 < n <= |group| && forall k :: 0 <= k < |group| ==> group[k] < |fs|
    ensures Carries(fs, group, n, MergeFirst(fs, group, n))
    ensures var f, first := MergeFirst(fs, group, n), fs[group[0]];
            && f.mod == first.mod && f.advisory == first.advisory && f.affected == first.affected
            && f.disposition == first.disposition && f.remediation == first.remediation
  {
    hide Union, Rank;
    if n > 1 {
      MergeCarries(fs, group, n - 1);
      var m, b, f := MergeFirst(fs, group, n - 1), fs[group[n - 1]], MergeFirst(fs, group, n);
      forall x
        ensures x in f.records <==> x in m.records || x in b.records
        ensures x in f.fixVersions <==> x in m.fixVersions || x in b.fixVersions
        ensures x in f.aliases <==> x in m.aliases || x in b.aliases || x in b.records
      {
        InUnion(x, m.records, b.records);
        InUnion(x, m.fixVersions, b.fixVersions);
        InUnion(x, Union(m.aliases, b.aliases), b.records);
        InUnion(x, m.aliases, b.aliases);
      }
      CarriesMore(fs, group, n, m, f);
    }
  }

  lemma CarriesMore(fs: seq<Finding>, group: seq<nat>, n: nat, m: Finding, f: Finding)
    requires 1 < n <= |group| && forall k :: 0 <= k < |group| ==> group[k] < |fs|
    requires Carries(fs, group, n - 1, m)
    requires var b := fs[group[n - 1]];
             forall x ::
               && (x in f.records <==> x in m.records || x in b.records)
               && (x in f.fixVersions <==> x in m.fixVersions || x in b.fixVersions)
               && (x in f.aliases <==> x in m.aliases || x in b.aliases || x in b.records)
    ensures Carries(fs, group, n, f)
  {
  }

  lemma {:induction false} MergeHighest(fs: seq<Finding>, group: seq<nat>, n: nat)
    requires 0 < n <= |group| && forall k :: 0 <= k < |group| ==> group[k] < |fs|
    ensures Highest(fs, group, n, MergeFirst(fs, group, n))
  {
    hide Union, Rank;
    if n > 1 {
      MergeHighest(fs, group, n - 1);
      HighestMore(fs, group, n, MergeFirst(fs, group, n - 1));
    }
  }

  lemma HighestMore(fs: seq<Finding>, group: seq<nat>, n: nat, m: Finding)
    requires 1 < n <= |group| && forall k :: 0 <= k < |group| ==> group[k] < |fs|
    requires Highest(fs, group, n - 1, m)
    ensures Highest(fs, group, n, MergeOne(m, fs[group[n - 1]]))
  {
    hide Union, Rank;
    var k :| 0 <= k < n - 1 && fs[group[k]].severity == m.severity && fs[group[k]].priority == m.priority;
    var from := if Rank(fs[group[n - 1]].severity) > Rank(m.severity) then n - 1 else k;
    var f := MergeOne(m, fs[group[n - 1]]);
    assert fs[group[from]].severity == f.severity && fs[group[from]].priority == f.priority;
  }

  // ---------------------------------------------------------------- resolving one group

  /** Every fix of every member is confirmed by every member's own record. */
  ghost predicate Unanimous(fs: seq<Finding>, advisories: map<string, Advisory>, group: seq<nat>)
    requires forall k :: 0 <= k < |group| ==> group[k] < |fs|
  {
    forall k, l, fix :: 0 <= k < |group| && 0 <= l < |group| && fix in fs[group[l]].fixVersions ==>
      Confirms(Lookup(advisories, fs[group[k]].advisory), fs[group[k]].mod, fix)
  }

  function Singles(group: seq<nat>): (r: seq<seq<nat>>)
    ensures |r| == |group| && forall k :: 0 <= k < |group| ==> r[k] == [group[k]]
  {
    seq(|group|, k requires 0 <= k < |group| => [group[k]])
  }

  /** The parts a group is split into and the finding reported for each. */
  ghost predicate Resolved(fs: seq<Finding>, advisories: map<string, Advisory>, group: seq<nat>,
                           parts: seq<seq<nat>>, out: seq<Finding>)
    requires group != [] && forall k :: 0 <= k < |group| ==> group[k] < |fs|
  {
    || (parts == [group] && out == [Merged(fs, group)] && (|group| > 1 ==> Unanimous(fs, advisories, group)))
    || (parts == Singles(group) && |out| == |group| && forall k :: 0 <= k < |group| ==> out[k] == fs[group[k]])
  }

  /** All fixes the members propose. */
  method CollectFixes(fs: seq<Finding>, group: seq<nat>) returns (fixes: seq<string>, unknown: bool)
    requires forall k :: 0 <= k < |group| ==> group[k] < |fs|
    ensures forall x :: x in fixes <==> exists k :: 0 <= k < |group| && x in fs[group[k]].fixVersions
    ensures unknown <==> exists k :: 0 <= k < |group| && fs[group[k]].affected != "AFFECTED"
  {
    hide Union;
    fixes, unknown := [], false;
    var i := 0;
    while i < |group|
      invariant 0 <= i <= |group|
      invariant forall x :: x in fixes <==> exists k :: 0 <= k < i && x in fs[group[k]].fixVersions
      invariant unknown <==> exists k :: 0 <= k < i && fs[group[k]].affected != "AFFECTED"
    {
      ghost var before := fixes;
      fixes := Union(fixes, fs[group[i]].fixVersions);
      forall x ensures x in fixes <==> x in before || x in fs[group[i]].fixVersions {
        InUnion(x, before, fs[group[i]].fixVersions);
      }
      unknown := unknown || fs[group[i]].affected != "AFFECTED";
      i := i + 1;
    }
  }

  /** Some record of the first n members contradicts one of the fixes. */
  ghost predicate SomeContradicts(fs: seq<Finding>, advisories: map<string, Advisory>, group: seq<nat>, n: nat,
                                  fix: string)
    requires n <= |group| && forall k :: 0 <= k < |group| ==> group[k] < |fs|
  {
    exists k :: 0 <= k < n && Contradicts(Lookup(advisories, fs[group[k]].advisory), fs[group[k]].mod, fix)
  }

  /** Some record of the first n members cannot be evaluated at the fix. */
  ghost predicate SomeUnclear(fs: seq<Finding>, advisories: map<string, Advisory>, group: seq<nat>, n: nat, fix: string)
    requires n <= |group| && forall k :: 0 <= k < |group| ==> group[k] < |fs|
  {
    exists k :: 0 <= k < n && Unclear(Lookup(advisories, fs[group[k]].advisory), fs[group[k]].mod, fix)
  }

  /** Ask every member's record about one proposed fix. */
  method CheckFix(fs: seq<Finding>, advisories: map<string, Advisory>, group: seq<nat>, fix: string)
    returns (conflict: bool, unknown: bool)
    requires forall k :: 0 <= k < |group| ==> group[k] < |fs|
    ensures conflict == SomeContradicts(fs, advisories, group, |group|, fix)
    ensures unknown == SomeUnclear(fs, advisories, group, |group|, fix)
  {
    hide EvidenceOf, Contradicts, Unclear;
    conflict, unknown := false, false;
    var i := 0;
    while i < |group|
      invariant 0 <= i <= |group|
      invariant conflict == SomeContradicts(fs, advisories, group, i, fix)
      invariant unknown == SomeUnclear(fs, advisories, group, i, fix)
    {
      var f := fs[group[i]];
      var e := SecurityVersionEvidence(Lookup(advisories, f.advisory), At(f.mod, fix));
      FixIsRead(Lookup(advisories, f.advisory), f.mod, fix);
      conflict := conflict || e.status == "AFFECTED";
      unknown := unknown || !e.conclusive;
      i := i + 1;
    }
  }

  /** Ask every member's record about every proposed fix. */
  method CrossCheck(fs: seq<Finding>, advisories: map<string, Advisory>, group: seq<nat>, fixes: seq<string>)
    returns (conflict: bool, unknown: bool)
    requires forall k :: 0 <= k < |group| ==> group[k] < |fs|
    ensures conflict <==> exists fix :: fix in fixes && SomeContradicts(fs, advisories, group, |group|, fix)
    ensures unknown <==> exists fix :: fix in fixes && SomeUnclear(fs, advisories, group, |group|, fix)
  {
    hide SomeContradicts, SomeUnclear;
    conflict, unknown := false, false;
    var j := 0;
    while j < |fixes|
      invariant 0 <= j <= |fixes|
      invariant conflict <==> exists fix :: fix in fixes[..j] && SomeContradicts(fs, advisories, group, |group|, fix)
      invariant unknown <==> exists fix :: fix in fixes[..j] && SomeUnclear(fs, advisories, group, |group|, fix)
    {
      assert fixes[..j + 1] == fixes[..j] + [fixes[j]];
      var against, unclear := CheckFix(fs, advisories, group, fixes[j]);
      conflict, unknown := conflict || against, unknown || unclear;
      j := j + 1;
    }
    assert fixes[..j] == fixes;
  }

  ghost predicate Proposed(fs: seq<Finding>, group: seq<nat>, fix: string)
    requires forall k :: 0 <= k < |group| ==> group[k] < |fs|
  {
    exists k :: 0 <= k < |group| && fix in fs[group[k]].fixVersions
  }

  /** A group of several findings in which some record contradicts a fix that some member proposes. */
  ghost predicate Conflicting(fs: seq<Finding>, advisories: map<string, Advisory>, group: seq<nat>)
    requires forall k :: 0 <= k < |group| ==> group[k] < |fs|
  {
    |group| > 1 && exists fix :: Proposed(fs, group, fix) && SomeContradicts(fs, advisories, group, |group|, fix)
  }

  /** A group of several findings with an unconfirmed member or a fix that some record cannot evaluate. */
  ghost predicate Doubtful(fs: seq<Finding>, advisories: map<string, Advisory>, group: seq<nat>)
    requires forall k :: 0 <= k < |group| ==> group[k] < |fs|
  {
    |group| > 1 && ((exists k :: 0 <= k < |group| && fs[group[k]].affected != "AFFECTED")
                    || exists fix :: Proposed(fs, group, fix) && SomeUnclear(fs, advisories, group, |group|, fix))
  }

  /** The codes a group is reported under. */
  ghost function GroupCodes(fs: seq<Finding>, advisories: map<string, Advisory>, group: seq<nat>): seq<string>
    requires forall k :: 0 <= k < |group| ==> group[k] < |fs|
  {
    (if Conflicting(fs, advisories, group) then ["ALIAS_FIX_CONFLICT"] else [])
    + (if Doubtful(fs, advisories, group) then ["ALIAS_FIX_EVIDENCE_UNKNOWN"] else [])
  }

  lemma NeitherMeansUnanimous(fs: seq<Finding>, advisories: map<string, Advisory>, group: seq<nat>)
    requires |group| > 1 && forall k :: 0 <= k < |group| ==> group[k] < |fs|
    requires !Conflicting(fs, advisories, group) && !Doubtful(fs, advisories, group)
    ensures Unanimous(fs, advisories, group)
  {
    hide Confirms, Contradicts, Unclear;
    forall k, l, fix | 0 <= k < |group| && 0 <= l < |group| && fix in fs[group[l]].fixVersions
      ensures Confirms(Lookup(advisories, fs[group[k]].advisory), fs[group[k]].mod, fix)
    {
      assert Proposed(fs, group, fix);
      assert !Contradicts(Lookup(advisories, fs[group[k]].advisory), fs[group[k]].mod, fix);
      assert !Unclear(Lookup(advisories, fs[group[k]].advisory), fs[group[k]].mod, fix);
      ConfirmsIsNeither(Lookup(advisories, fs[group[k]].advisory), fs[group[k]].mod, fix);
    }
  }

  method MergeGroup(fs: seq<Finding>, group: seq<nat>) returns (merged: Finding)
    requires group != [] && forall k :: 0 <= k < |group| ==> group[k] < |fs|
    ensures merged == Merged(fs, group)
  {
    hide MergeOne;
    merged := fs[group[0]];
    var n := 1;
    while n < |group|
      invariant 1 <= n <= |group| && merged == MergeFirst(fs, group, n)
    {
      merged := MergeOne(merged, fs[group[n]]);
      n := n + 1;
    }
    if |merged.fixVersions| > 0 {
      merged := merged.(remediation := REVIEW_UPGRADE);
    }
  }

  predicate AnyBlocked(blocked: seq<bool>, group: seq<nat>)
    requires forall k :: 0 <= k < |group| ==> group[k] < |blocked|
  {
    exists k :: 0 <= k < |group| && blocked[group[k]]
  }

  /** The questions asked of a group of several findings before it may be merged. */
  method JudgeGroup(fs: seq<Finding>, advisories: map<string, Advisory>, group: seq<nat>)
    returns (conflict: bool, unknown: bool)
    requires forall k :: 0 <= k < |group| ==> group[k] < |fs|
    ensures conflict == Conflicting(fs, advisories, group) && unknown == Doubtful(fs, advisories, group)
  {
    hide SomeContradicts, SomeUnclear;
    conflict, unknown := false, false;
    if |group| > 1 {
      var fixes, doubt := CollectFixes(fs, group);
      assert forall fix :: fix in fixes <==> Proposed(fs, group, fix);
      conflict, unknown := CrossCheck(fs, advisories, group, fixes);
      unknown := doubt || unknown;
    }
  }

  /** A part of this group and its finding: a member as it is when the group is kept apart, else the whole group merged. */
  ghost predicate Decided(fs: seq<Finding>, blocked: seq<bool>, advisories: map<string, Advisory>, group: seq<nat>,
                          part: seq<nat>, f: Finding)
    requires |blocked| == |fs| && group != [] && forall k :: 0 <= k < |group| ==> group[k] < |fs|
  {
    if GroupCodes(fs, advisories, group) != [] || AnyBlocked(blocked, group)
    then |part| == 1 && part[0] in group && f == fs[part[0]]
    else part == group && f == Merged(fs, group)
  }

  method ResolveGroup(fs: seq<Finding>, blocked: seq<bool>, advisories: map<string, Advisory>, group: seq<nat>)
    returns (out: seq<Finding>, quality: seq<string>, ghost parts: seq<seq<nat>>)
    requires |blocked| == |fs| && group != [] && forall k :: 0 <= k < |group| ==> group[k] < |fs|
    ensures Resolved(fs, advisories, group, parts, out)
    ensures quality == GroupCodes(fs, advisories, group)
    ensures parts == if quality != [] || AnyBlocked(blocked, group) then Singles(group) else [group]
    ensures forall k :: 0 <= k < |parts| ==> Decided(fs, blocked, advisories, group, parts[k], out[k])
  {
    hide Conflicting, Doubtful, Merged, Unanimous;
    var keepSeparate := false;
    var i := 0;
    while i < |group|
      invariant 0 <= i <= |group|
      invariant keepSeparate <==> exists k :: 0 <= k < i && blocked[group[k]]
    {
      keepSeparate := keepSeparate || blocked[group[i]];
      i := i + 1;
    }
    var conflict, unknown := JudgeGroup(fs, advisories, group);
    quality := [];
    if conflict || unknown || keepSeparate {
      if conflict {
        quality := quality + ["ALIAS_FIX_CONFLICT"];
      }
      if unknown {
        quality := quality + ["ALIAS_FIX_EVIDENCE_UNKNOWN"];
      }
      out := seq(|group|, k requires 0 <= k < |group| => fs[group[k]]);
      parts := Singles(group);
    } else {
      if |group| > 1 {
        NeitherMeansUnanimous(fs, advisories, group);
      }
      var merged := MergeGroup(fs, group);
      out, parts := [merged], [group];
    }
  }

  // ---------------------------------------------------------------- the whole consolidation

  /** The findings after validation against their own records. */
  ghost function AllValidated(input: seq<Finding>, advisories: map<string, Advisory>): (fs: seq<Finding>)
    ensures |fs| == |input|
    ensures forall i :: 0 <= i < |fs| ==> fs[i] == Validated(input[i], Lookup(advisories, input[i].advisory))
  {
    seq(|input|, i requires 0 <= i < |input| => Validated(input[i], Lookup(advisories, input[i].advisory)))
  }

  /** The codes of one finding's validation against its own record. */
  ghost function OwnCodes(input: seq<Finding>, advisories: map<string, Advisory>, i: nat): seq<string>
    requires i < |input|
  {
    FixCodes(input[i], Lookup(advisories, input[i].advisory))
  }

  /** The finding may not be merged: its own record speaks against one of its fixes, or does not settle them. */
  ghost predicate Blocked(input: seq<Finding>, advisories: map<string, Advisory>, i: nat)
    requires i < |input|
  {
    OwnCodes(input, advisories, i) != []
  }

  method ValidateAll(input: seq<Finding>, advisories: map<string, Advisory>)
    returns (fs: seq<Finding>, blocked: seq<bool>, quality: seq<string>)
    ensures fs == AllValidated(input, advisories) && |blocked| == |fs|
    ensures forall i :: 0 <= i < |blocked| ==> blocked[i] == Blocked(input, advisories, i)
    ensures forall c :: c in quality <==> OwnCause(input, advisories, c)
  {
    hide Validated, FixCodes;
    fs, blocked, quality := [], [], [];
    var i := 0;
    while i < |input|
      invariant 0 <= i <= |input| && |fs| == |blocked| == i
      invariant forall k :: 0 <= k < i ==> fs[k] == Validated(input[k], Lookup(advisories, input[k].advisory))
      invariant forall k :: 0 <= k < i ==> blocked[k] == Blocked(input, advisories, k)
      invariant forall c :: c in quality <==> exists k :: 0 <= k < i && c in OwnCodes(input, advisories, k)
    {
      var valid, codes := SecurityValidateFixes(input[i], Lookup(advisories, input[i].advisory));
      assert codes == OwnCodes(input, advisories, i);
      fs, blocked, quality := fs + [valid], blocked + [|codes| > 0], quality + codes;
      i := i + 1;
    }
  }

  /** The finding reported for one part of a group. */
  ghost predicate Produced(fs: seq<Finding>, advisories: map<string, Advisory>, part: seq<nat>, f: Finding) {
    && part != [] && (forall k :: 0 <= k < |part| ==> part[k] < |fs|)
    && ((f == Merged(fs, part) && (|part| > 1 ==> Unanimous(fs, advisories, part))) || (|part| == 1 && f == fs[part[0]]))
  }

  ghost predicate InSome(parts: seq<seq<nat>>, i: nat) {
    exists k :: 0 <= k < |parts| && i in parts[k]
  }

  /** Every finding is in some part, and no two parts share one. */
  ghost predicate Partition(parts: seq<seq<nat>>, n: nat) {
    && (forall k :: 0 <= k < |parts| ==> forall i: nat :: i in parts[k] ==> i < n)
    && (forall i: nat :: i < n ==> InSome(parts, i))
    && (forall k, l :: 0 <= k < l < |parts| ==> Members(parts[k]) !! Members(parts[l]))
  }

  /** The parts made from the first g groups; homes[k] is the group of part k. */
  ghost predicate PartsOf(component: seq<nat>, g: nat, parts: seq<seq<nat>>, homes: seq<nat>) {
    && |homes| == |parts|
    && (forall k :: 0 <= k < |parts| ==> homes[k] < g && Numbers(component, parts[k], homes[k]))
    && (forall i: nat :: i < |component| && component[i] < g ==> InSome(parts, i))
    && (forall k, l :: 0 <= k < l < |parts| ==> Members(parts[k]) !! Members(parts[l]))
  }

  lemma PartsAdded(component: seq<nat>, g: nat, parts: seq<seq<nat>>, homes: seq<nat>, group: seq<nat>,
                   more: seq<seq<nat>>)
    requires PartsOf(component, g, parts, homes)
    requires group != [] && Distinct(group) && Numbers(component, group, g)
    requires forall i: nat :: i < |component| && component[i] == g ==> i in group
    requires more == [group] || more == Singles(group)
    ensures PartsOf(component, g + 1, parts + more, homes + seq(|more|, _ => g))
  {
    var all, from := parts + more, homes + seq(|more|, _ => g);
    forall k | 0 <= k < |more| ensures Numbers(component, more[k], g) && forall i: nat :: i in more[k] ==> i in group {
    }
    forall k | 0 <= k < |all| ensures from[k] < g + 1 && Numbers(component, all[k], from[k]) {
      assert k >= |parts| ==> all[k] == more[k - |parts|];
    }
    forall i: nat | i < |component| && component[i] < g + 1 ensures InSome(all, i) {
      if component[i] < g {
        var k :| 0 <= k < |parts| && i in parts[k];
        assert i in all[k];
      } else {
        var k :| 0 <= k < |group| && group[k] == i;
        var at := if more == [group] then 0 else k;
        assert i in more[at] && more[at] == all[|parts| + at];
      }
    }
    PartsApart(component, g, parts, homes, group, more);
  }

  lemma PartsApart(component: seq<nat>, g: nat, parts: seq<seq<nat>>, homes: seq<nat>, group: seq<nat>,
                   more: seq<seq<nat>>)
    requires |homes| == |parts| && forall k :: 0 <= k < |parts| ==> homes[k] < g && Numbers(component, parts[k], homes[k])
    requires forall k, l :: 0 <= k < l < |parts| ==> Members(parts[k]) !! Members(parts[l])
    requires Distinct(group) && (more == [group] || more == Singles(group))
    requires forall k :: 0 <= k < |more| ==> Numbers(component, more[k], g)
    ensures var all := parts + more; forall k, l :: 0 <= k < l < |all| ==> Members(all[k]) !! Members(all[l])
  {
    hide Numbers;
    var all := parts + more;
    forall k, l | 0 <= k < l < |all| ensures Members(all[k]) !! Members(all[l]) {
      if l >= |parts| {
        assert all[l] == more[l - |parts|];
        if k >= |parts| {
          assert all[k] == more[k - |parts|];
        } else {
          OtherNumbers(component, all[k], homes[k], all[l], g);
        }
      }
    }
  }

  lemma OtherNumbers(component: seq<nat>, a: seq<nat>, m: nat, b: seq<nat>, n: nat)
    requires m != n && Numbers(component, a, m) && Numbers(component, b, n)
    ensures Members(a) !! Members(b)
  {
  }

  // ---------------------------------------------------------------- the judgment, finding by finding

  /** The record of l contradicts a fix that j still proposes. */
  ghost predicate Clash(fs: seq<Finding>, advisories: map<string, Advisory>, j: nat, l: nat)
    requires j < |fs| && l < |fs|
  {
    exists fix :: fix in fs[j].fixVersions && Contradicts(Lookup(advisories, fs[l].advisory), fs[l].mod, fix)
  }

  /** j is not confirmed, or the record of l cannot be evaluated at a fix that j still proposes. */
  ghost predicate Murky(fs: seq<Finding>, advisories: map<string, Advisory>, j: nat, l: nat)
    requires j < |fs| && l < |fs|
  {
    || fs[j].affected != "AFFECTED"
    || exists fix :: fix in fs[j].fixVersions && Unclear(Lookup(advisories, fs[l].advisory), fs[l].mod, fix)
  }

  /** The component of i is kept apart: a member is blocked, or two members clash or leave each other in doubt. */
  ghost predicate KeptApart(input: seq<Finding>, advisories: map<string, Advisory>, i: nat) {
    var fs := AllValidated(input, advisories);
    || (exists j :: 0 <= j < |fs| && Connected(fs, i, j) && Blocked(input, advisories, j))
    || (exists j, l :: 0 <= j < |fs| && 0 <= l < |fs| && j != l && Connected(fs, i, j) && Connected(fs, i, l)
                       && (Clash(fs, advisories, j, l) || Murky(fs, advisories, j, l)))
  }

  /** The validation of some finding emits the code. */
  ghost predicate OwnCause(input: seq<Finding>, advisories: map<string, Advisory>, c: string) {
    exists i :: 0 <= i < |input| && c in OwnCodes(input, advisories, i)
  }

  /** Two findings that are not connected share an identifier. */
  ghost predicate OverlapCause(fs: seq<Finding>, c: string) {
    && c == "ALIAS_AMBIGUOUS_OR_CONFLICTING"
    && exists i, j :: 0 <= i < |fs| && 0 <= j < |fs| && !Connected(fs, i, j) && !(Ids(fs[i]) !! Ids(fs[j]))
  }

  /** Two connected findings clash, or leave each other in doubt. */
  ghost predicate GroupCause(fs: seq<Finding>, advisories: map<string, Advisory>, c: string) {
    exists i, j :: 0 <= i < |fs| && 0 <= j < |fs| && i != j && Connected(fs, i, j) && Speaks(fs, advisories, i, j, c)
  }

  ghost predicate Speaks(fs: seq<Finding>, advisories: map<string, Advisory>, i: nat, j: nat, c: string)
    requires i < |fs| && j < |fs|
  {
    || (c == "ALIAS_FIX_CONFLICT" && Clash(fs, advisories, i, j))
    || (c == "ALIAS_FIX_EVIDENCE_UNKNOWN" && Murky(fs, advisories, i, j))
  }

  /** Why the code c is emitted. */
  ghost predicate Cause(input: seq<Finding>, advisories: map<string, Advisory>, c: string) {
    var fs := AllValidated(input, advisories);
    OwnCause(input, advisories, c) || OverlapCause(fs, c) || GroupCause(fs, advisories, c)
  }

  /** Which components are merged, what each part reports, and exactly which codes are emitted. */
  ghost predicate Judged(input: seq<Finding>, advisories: map<string, Advisory>, parts: seq<seq<nat>>,
                         result: seq<Finding>, codes: seq<string>)
    requires |parts| == |result|
  {
    && (forall k :: 0 <= k < |parts| ==> PartJudged(input, advisories, parts[k], result[k]))
    && StrictlySorted(codes) && forall c :: c in codes <==> Cause(input, advisories, c)
  }

  /** A component that is kept apart is reported finding by finding, any other one as one merged finding. */
  ghost predicate PartJudged(input: seq<Finding>, advisories: map<string, Advisory>, part: seq<nat>, f: Finding) {
    var fs := AllValidated(input, advisories);
    && part != [] && (forall k :: 0 <= k < |part| ==> part[k] < |fs|)
    && if KeptApart(input, advisories, part[0]) then |part| == 1 && f == fs[part[0]]
       else IsComponent(fs, part) && f == Merged(fs, part)
  }

  /** After validation no finding clashes with its own record, or leaves it in doubt. */
  lemma NoOwnClash(input: seq<Finding>, advisories: map<string, Advisory>, j: nat, fix: string)
    requires j < |input| && fix in AllValidated(input, advisories)[j].fixVersions
    ensures var f := AllValidated(input, advisories)[j]; var a := Lookup(advisories, f.advisory);
            !Contradicts(a, f.mod, fix) && !Unclear(a, f.mod, fix)
  {
    hide Confirms, Contradicts, Unclear, Validated;
    ConfirmsIsNeither(Lookup(advisories, input[j].advisory), input[j].mod, fix);
    ValidatedKeeps(input[j], Lookup(advisories, input[j].advisory));
    ValidatedFixesConfirmed(input[j], Lookup(advisories, input[j].advisory));
  }

  lemma ConflictingClashes(input: seq<Finding>, advisories: map<string, Advisory>, group: seq<nat>)
    returns (j: nat, l: nat)
    requires Distinct(group) && forall k :: 0 <= k < |group| ==> group[k] < |input|
    requires Conflicting(AllValidated(input, advisories), advisories, group)
    ensures j in group && l in group && j != l && Clash(AllValidated(input, advisories), advisories, j, l)
  {
    hide Contradicts, AllValidated;
    var fs := AllValidated(input, advisories);
    var fix :| Proposed(fs, group, fix) && SomeContradicts(fs, advisories, group, |group|, fix);
    var a :| 0 <= a < |group| && fix in fs[group[a]].fixVersions;
    var b :| 0 <= b < |group| && Contradicts(Lookup(advisories, fs[group[b]].advisory), fs[group[b]].mod, fix);
    j, l := group[a], group[b];
    NoOwnClash(input, advisories, j, fix);
  }

  lemma ClashIsConflicting(fs: seq<Finding>, advisories: map<string, Advisory>, group: seq<nat>, j: nat, l: nat)
    requires forall k :: 0 <= k < |group| ==> group[k] < |fs|
    requires j in group && l in group && j != l && Clash(fs, advisories, j, l)
    ensures Conflicting(fs, advisories, group)
  {
    hide Contradicts;
    var fix :| fix in fs[j].fixVersions && Contradicts(Lookup(advisories, fs[l].advisory), fs[l].mod, fix);
    var a :| 0 <= a < |group| && group[a] == j;
    var b :| 0 <= b < |group| && group[b] == l;
    assert Proposed(fs, group, fix) && SomeContradicts(fs, advisories, group, |group|, fix);
  }

  lemma ConflictingIsClash(input: seq<Finding>, advisories: map<string, Advisory>, group: seq<nat>)
    requires Distinct(group) && forall k :: 0 <= k < |group| ==> group[k] < |input|
    ensures var fs := AllValidated(input, advisories);
            Conflicting(fs, advisories, group)
            <==> exists j, l :: j in group && l in group && j != l && Clash(fs, advisories, j, l)
  {
    hide Clash, Conflicting, AllValidated;
    var fs := AllValidated(input, advisories);
    if Conflicting(fs, advisories, group) {
      var j, l := ConflictingClashes(input, advisories, group);
    }
    if j, l :| j in group && l in group && j != l && Clash(fs, advisories, j, l) {
      ClashIsConflicting(fs, advisories, group, j, l);
    }
  }

  lemma DoubtfulDoubts(input: seq<Finding>, advisories: map<string, Advisory>, group: seq<nat>)
    returns (j: nat, l: nat)
    requires Distinct(group) && forall k :: 0 <= k < |group| ==> group[k] < |input|
    requires Doubtful(AllValidated(input, advisories), advisories, group)
    ensures j in group && l in group && j != l && Murky(AllValidated(input, advisories), advisories, j, l)
  {
    hide Unclear, AllValidated;
    var fs := AllValidated(input, advisories);
    if k :| 0 <= k < |group| && fs[group[k]].affected != "AFFECTED" {
      j, l := group[k], group[if k == 0 then 1 else 0];
    } else {
      var fix :| Proposed(fs, group, fix) && SomeUnclear(fs, advisories, group, |group|, fix);
      var a :| 0 <= a < |group| && fix in fs[group[a]].fixVersions;
      var b :| 0 <= b < |group| && Unclear(Lookup(advisories, fs[group[b]].advisory), fs[group[b]].mod, fix);
      j, l := group[a], group[b];
      NoOwnClash(input, advisories, j, fix);
    }
  }

  lemma MurkyIsDoubtful(fs: seq<Finding>, advisories: map<string, Advisory>, group: seq<nat>, j: nat, l: nat)
    requires forall k :: 0 <= k < |group| ==> group[k] < |fs|
    requires j in group && l in group && j != l && Murky(fs, advisories, j, l)
    ensures Doubtful(fs, advisories, group)
  {
    hide Unclear;
    var a :| 0 <= a < |group| && group[a] == j;
    var b :| 0 <= b < |group| && group[b] == l;
    if fs[j].affected == "AFFECTED" {
      var fix :| fix in fs[j].fixVersions && Unclear(Lookup(advisories, fs[l].advisory), fs[l].mod, fix);
      assert Proposed(fs, group, fix) && SomeUnclear(fs, advisories, group, |group|, fix);
    }
  }

  lemma DoubtfulIsMurky(input: seq<Finding>, advisories: map<string, Advisory>, group: seq<nat>)
    requires Distinct(group) && forall k :: 0 <= k < |group| ==> group[k] < |input|
    ensures var fs := AllValidated(input, advisories);
            Doubtful(fs, advisories, group)
            <==> exists j, l :: j in group && l in group && j != l && Murky(fs, advisories, j, l)
  {
    hide Murky, Doubtful, AllValidated;
    var fs := AllValidated(input, advisories);
    if Doubtful(fs, advisories, group) {
      var j, l := DoubtfulDoubts(input, advisories, group);
    }
    if j, l :| j in group && l in group && j != l && Murky(fs, advisories, j, l) {
      MurkyIsDoubtful(fs, advisories, group, j, l);
    }
  }

  /** A component is kept apart exactly when its group is reported or holds a blocked member. */
  lemma KeptApartIs(input: seq<Finding>, blocked: seq<bool>, advisories: map<string, Advisory>, group: seq<nat>, i: nat)
    requires |blocked| == |input| && forall j :: 0 <= j < |blocked| ==> blocked[j] == Blocked(input, advisories, j)
    requires Distinct(group) && (forall k :: 0 <= k < |group| ==> group[k] < |input|) && i in group
    requires IsComponent(AllValidated(input, advisories), group)
    ensures KeptApart(input, advisories, i)
            <==> GroupCodes(AllValidated(input, advisories), advisories, group) != [] || AnyBlocked(blocked, group)
  {
    hide AllValidated, Conflicting, Doubtful, Clash, Murky, Blocked, Connected;
    var fs := AllValidated(input, advisories);
    assert forall j: nat :: j in group <==> Connected(fs, i, j);
    ConflictingIsClash(input, advisories, group);
    DoubtfulIsMurky(input, advisories, group);
    if AnyBlocked(blocked, group) {
      var k :| 0 <= k < |group| && blocked[group[k]];
      assert Connected(fs, i, group[k]);
    }
  }

  /** A decided group is a judged component. */
  lemma DecidedIsJudged(input: seq<Finding>, blocked: seq<bool>, advisories: map<string, Advisory>, group: seq<nat>,
                        part: seq<nat>, f: Finding)
    requires |blocked| == |input| && forall i :: 0 <= i < |blocked| ==> blocked[i] == Blocked(input, advisories, i)
    requires group != [] && Distinct(group) && forall k :: 0 <= k < |group| ==> group[k] < |input|
    requires IsComponent(AllValidated(input, advisories), group)
    requires Decided(AllValidated(input, advisories), blocked, advisories, group, part, f)
    ensures PartJudged(input, advisories, part, f)
  {
    hide AllValidated, GroupCodes, AnyBlocked, KeptApart, Blocked, Connected, Merged;
    assert part[0] in group;
    KeptApartIs(input, blocked, advisories, group, part[0]);
  }

  /** What consolidation promises about its output, part by part. */
  ghost predicate Outcome(input: seq<Finding>, advisories: map<string, Advisory>, parts: seq<seq<nat>>,
                          result: seq<Finding>, codes: seq<string>)
  {
    var fs := AllValidated(input, advisories);
    && |parts| == |result| && Partition(parts, |input|)
    && (forall k :: 0 <= k < |parts| ==> Produced(fs, advisories, parts[k], result[k]))
    && (forall k :: 0 <= k < |parts| ==> HangsTogether(fs, parts[k]))
    && Judged(input, advisories, parts, result, codes)
  }

  ghost predicate HangsTogether(fs: seq<Finding>, part: seq<nat>) {
    forall i: nat, j: nat :: i in part && j in part ==> Connected(fs, i, j)
  }

  /** Part and finding come from this group. */
  ghost predicate FromGroup(fs: seq<Finding>, blocked: seq<bool>, advisories: map<string, Advisory>,
                            groups: seq<seq<nat>>, home: nat, part: seq<nat>, f: Finding)
  {
    && home < |groups| && |blocked| == |fs| && groups[home] != []
    && (forall k :: 0 <= k < |groups[home]| ==> groups[home][k] < |fs|)
    && Decided(fs, blocked, advisories, groups[home], part, f) && Produced(fs, advisories, part, f)
  }

  /** Every part and finding so far come from their groups. */
  ghost predicate AllFrom(fs: seq<Finding>, blocked: seq<bool>, advisories: map<string, Advisory>,
                          groups: seq<seq<nat>>, homes: seq<nat>, parts: seq<seq<nat>>, result: seq<Finding>)
  {
    && |homes| == |parts| == |result|
    && forall k :: 0 <= k < |parts| ==> FromGroup(fs, blocked, advisories, groups, homes[k], parts[k], result[k])
  }

  lemma AllFromThen(fs: seq<Finding>, blocked: seq<bool>, advisories: map<string, Advisory>, groups: seq<seq<nat>>,
                    homes: seq<nat>, parts: seq<seq<nat>>, result: seq<Finding>, g: nat, added: seq<seq<nat>>,
                    out: seq<Finding>)
    requires AllFrom(fs, blocked, advisories, groups, homes, parts, result) && |added| == |out|
    requires forall k :: 0 <= k < |added| ==> FromGroup(fs, blocked, advisories, groups, g, added[k], out[k])
    ensures AllFrom(fs, blocked, advisories, groups, homes + seq(|added|, _ => g), parts + added, result + out)
  {
    hide FromGroup;
    var allHomes, allParts, all := homes + seq(|added|, _ => g), parts + added, result + out;
    forall k | 0 <= k < |allParts| ensures FromGroup(fs, blocked, advisories, groups, allHomes[k], allParts[k], all[k]) {
      if k >= |parts| {
        assert allHomes[k] == g && allParts[k] == added[k - |parts|] && all[k] == out[k - |parts|];
      }
    }
  }

  ghost predicate Reports(fs: seq<Finding>, advisories: map<string, Advisory>, group: seq<nat>, c: string) {
    (forall k :: 0 <= k < |group| ==> group[k] < |fs|) && c in GroupCodes(fs, advisories, group)
  }

  /** The loop over the groups. */
  method ResolveAll(fs: seq<Finding>, blocked: seq<bool>, advisories: map<string, Advisory>,
                    groups: seq<seq<nat>>, ghost component: seq<nat>)
    returns (result: seq<Finding>, quality: seq<string>, ghost parts: seq<seq<nat>>, ghost homes: seq<nat>)
    requires Grouping(fs, groups, component) && |blocked| == |fs|
    ensures PartsOf(component, |groups|, parts, homes)
    ensures AllFrom(fs, blocked, advisories, groups, homes, parts, result)
    ensures forall c :: c in quality <==> exists g :: 0 <= g < |groups| && Reports(fs, advisories, groups[g], c)
  {
    hide AnyBlocked, Conflicting, Doubtful, Merged, Unanimous, Singles, Numbers, PartsOf, Grouping, Resolved, Produced,
         Decided, GroupCodes, AllFrom;
    result, quality, parts, homes := [], [], [], [];
    NoParts(component);
    NothingFrom(fs, blocked, advisories, groups);
    var g := 0;
    while g < |groups|
      invariant 0 <= g <= |groups| && PartsOf(component, g, parts, homes)
      invariant AllFrom(fs, blocked, advisories, groups, homes, parts, result)
      invariant forall c :: c in quality <==> exists h :: 0 <= h < g && Reports(fs, advisories, groups[h], c)
    {
      GroupMembers(fs, groups, component, g);
      var out, more, added := ResolveGroup(fs, blocked, advisories, groups[g]);
      ResolvedProduced(fs, advisories, groups[g], added, out);
      PartsAdded(component, g, parts, homes, groups[g], added);
      AllFromThen(fs, blocked, advisories, groups, homes, parts, result, g, added, out);
      result, parts, homes := result + out, parts + added, homes + seq(|added|, _ => g);
      assert forall c :: c in more <==> Reports(fs, advisories, groups[g], c);
      quality := quality + more;
      g := g + 1;
    }
  }

  method SecurityConsolidateAliases(input: seq<Finding>, advisories: map<string, Advisory>)
    returns (result: seq<Finding>, codes: seq<string>, ghost parts: seq<seq<nat>>)
    ensures Outcome(input, advisories, parts, result, codes)
    ensures StrictlySorted(codes) && forall c :: c in codes <==> Cause(input, advisories, c)
  {
    hide Connected, Union, Ids, PartsOf, AllValidated, IsComponent, Produced, Grouping, Partition, NoOverlap,
         HangsTogether, Reports, FromGroup, PartJudged, Cause, OwnCause, Blocked;
    var fs, blocked, quality := ValidateAll(input, advisories);
    var groups, component := FormGroups(fs);
    var overlaps := OverlapCodes(fs, component);
    var unresolved: seq<string>;
    ghost var homes: seq<nat>;
    result, unresolved, parts, homes := ResolveAll(fs, blocked, advisories, groups, component);
    codes := Union([], quality + overlaps + unresolved);
    Conclude(fs, groups, component, parts, homes);
    forall k | 0 <= k < |parts|
      ensures PartJudged(input, advisories, parts[k], result[k]) && Produced(fs, advisories, parts[k], result[k])
    {
      HomeIsJudged(input, blocked, advisories, groups, component, homes[k], parts[k], result[k]);
    }
    forall c ensures c in codes <==> Cause(input, advisories, c) {
      InUnion(c, [], quality + overlaps + unresolved);
      CauseIs(input, advisories, groups, component, quality, overlaps, unresolved, c);
    }
    UnionIsSorted([], quality + overlaps + unresolved);
  }

  lemma UnionIsSorted(a: seq<string>, b: seq<string>)
    ensures StrictlySorted(Union(a, b))
  {
  }

  /** The groups are the components. */
  lemma GroupIsComponent(fs: seq<Finding>, groups: seq<seq<nat>>, component: seq<nat>, g: nat)
    requires Grouping(fs, groups, component) && g < |groups|
    requires forall i, j :: 0 <= i < |fs| && 0 <= j < |fs| ==> (component[i] == component[j] <==> Connected(fs, i, j))
    ensures IsComponent(fs, groups[g])
  {
    hide Connected;
    var group := groups[g];
    forall i: nat, j: nat | i in group ensures j in group <==> Connected(fs, i, j) {
      if Connected(fs, i, j) {
        ConnectedInRange(fs, i, j);
      }
    }
  }

  lemma ConnectedInRange(fs: seq<Finding>, i: nat, j: nat)
    requires Connected(fs, i, j)
    ensures i < |fs| && j < |fs|
  {
  }

  lemma HomeIsJudged(input: seq<Finding>, blocked: seq<bool>, advisories: map<string, Advisory>,
                     groups: seq<seq<nat>>, component: seq<nat>, home: nat, part: seq<nat>, f: Finding)
    requires |blocked| == |input| && forall i :: 0 <= i < |blocked| ==> blocked[i] == Blocked(input, advisories, i)
    requires var fs := AllValidated(input, advisories);
             && Grouping(fs, groups, component) && FromGroup(fs, blocked, advisories, groups, home, part, f)
             && forall i, j :: 0 <= i < |fs| && 0 <= j < |fs| ==> (component[i] == component[j] <==> Connected(fs, i, j))
    ensures PartJudged(input, advisories, part, f) && Produced(AllValidated(input, advisories), advisories, part, f)
  {
    hide AllValidated, Connected, IsComponent, PartJudged, Decided, Blocked, Produced;
    var fs := AllValidated(input, advisories);
    GroupIsComponent(fs, groups, component, home);
    DecidedIsJudged(input, blocked, advisories, groups[home], part, f);
  }

  /** The codes of the three steps are the causes. */
  lemma CauseIs(input: seq<Finding>, advisories: map<string, Advisory>, groups: seq<seq<nat>>, component: seq<nat>,
                quality: seq<string>, overlaps: seq<string>, unresolved: seq<string>, c: string)
    requires var fs := AllValidated(input, advisories);
             && Grouping(fs, groups, component)
             && (forall i, j :: 0 <= i < |fs| && 0 <= j < |fs| ==> (component[i] == component[j] <==> Connected(fs, i, j)))
             && (overlaps == [] <==> NoOverlap(fs, component))
             && (c in unresolved <==> exists g :: 0 <= g < |groups| && Reports(fs, advisories, groups[g], c))
    requires c in quality <==> OwnCause(input, advisories, c)
    requires forall x :: x in overlaps ==> x == "ALIAS_AMBIGUOUS_OR_CONFLICTING"
    ensures c in quality + overlaps + unresolved <==> Cause(input, advisories, c)
  {
    hide AllValidated, Connected, OwnCause, OverlapCause, GroupCause, Reports, NoOverlap;
    var fs := AllValidated(input, advisories);
    OverlapsAre(fs, component, overlaps, c);
    ReportsAre(input, advisories, groups, component, c);
  }

  lemma OverlapsAre(fs: seq<Finding>, component: seq<nat>, overlaps: seq<string>, c: string)
    requires |component| == |fs| && (overlaps == [] <==> NoOverlap(fs, component))
    requires forall i, j :: 0 <= i < |fs| && 0 <= j < |fs| ==> (component[i] == component[j] <==> Connected(fs, i, j))
    requires forall x :: x in overlaps ==> x == "ALIAS_AMBIGUOUS_OR_CONFLICTING"
    ensures c in overlaps <==> OverlapCause(fs, c)
  {
    hide Connected, Ids;
    if overlaps != [] {
      assert overlaps[0] in overlaps;
    }
  }

  /** The codes of the groups, told by pairs of connected findings. */
  lemma ReportsAre(input: seq<Finding>, advisories: map<string, Advisory>, groups: seq<seq<nat>>, component: seq<nat>,
                   c: string)
    requires var fs := AllValidated(input, advisories);
             && Grouping(fs, groups, component)
             && (forall i, j :: 0 <= i < |fs| && 0 <= j < |fs| ==> (component[i] == component[j] <==> Connected(fs, i, j)))
    ensures var fs := AllValidated(input, advisories);
            (exists g :: 0 <= g < |groups| && Reports(fs, advisories, groups[g], c)) <==> GroupCause(fs, advisories, c)
  {
    hide AllValidated, Connected, Speaks, Reports;
    var fs := AllValidated(input, advisories);
    if g :| 0 <= g < |groups| && Reports(fs, advisories, groups[g], c) {
      var i, j := ReportSpeaks(input, advisories, groups[g], c);
      assert component[i] == component[j];
    }
    if i, j :| 0 <= i < |fs| && 0 <= j < |fs| && i != j && Connected(fs, i, j) && Speaks(fs, advisories, i, j, c) {
      assert i in groups[component[i]] && j in groups[component[i]];
      SpeaksReports(input, advisories, groups[component[i]], c, i, j);
    }
  }

  lemma ReportSpeaks(input: seq<Finding>, advisories: map<string, Advisory>, group: seq<nat>, c: string)
    returns (i: nat, j: nat)
    requires Distinct(group) && Reports(AllValidated(input, advisories), advisories, group, c)
    ensures i in group && j in group && i != j && i < |input| && j < |input|
    ensures Speaks(AllValidated(input, advisories), advisories, i, j, c)
  {
    hide AllValidated, Clash, Murky, Conflicting, Doubtful;
    var fs := AllValidated(input, advisories);
    if c == "ALIAS_FIX_CONFLICT" {
      i, j := ConflictingClashes(input, advisories, group);
    } else {
      i, j := DoubtfulDoubts(input, advisories, group);
    }
  }

  lemma SpeaksReports(input: seq<Finding>, advisories: map<string, Advisory>, group: seq<nat>, c: string, i: nat, j: nat)
    requires forall k :: 0 <= k < |group| ==> group[k] < |input|
    requires i in group && j in group && i != j && i < |input| && j < |input|
    requires Speaks(AllValidated(input, advisories), advisories, i, j, c)
    ensures Reports(AllValidated(input, advisories), advisories, group, c)
  {
    hide AllValidated, Clash, Murky, Conflicting, Doubtful;
    var fs := AllValidated(input, advisories);
    if c == "ALIAS_FIX_CONFLICT" {
      ClashIsConflicting(fs, advisories, group, i, j);
    } else {
      MurkyIsDoubtful(fs, advisories, group, i, j);
    }
  }

  lemma NothingFrom(fs: seq<Finding>, blocked: seq<bool>, advisories: map<string, Advisory>, groups: seq<seq<nat>>)
    ensures AllFrom(fs, blocked, advisories, groups, [], [], [])
  {
  }

  lemma NoParts(component: seq<nat>)
    ensures PartsOf(component, 0, [], [])
  {
  }

  lemma GroupMembers(fs: seq<Finding>, groups: seq<seq<nat>>, component: seq<nat>, g: nat)
    requires Grouping(fs, groups, component) && g < |groups|
    ensures Numbers(component, groups[g], g) && Distinct(groups[g]) && groups[g] != []
    ensures forall k :: 0 <= k < |groups[g]| ==> groups[g][k] < |fs|
    ensures forall i: nat :: i < |component| && component[i] == g ==> i in groups[g]
  {
  }

  lemma ResolvedProduced(fs: seq<Finding>, advisories: map<string, Advisory>, group: seq<nat>,
                         parts: seq<seq<nat>>, out: seq<Finding>)
    requires group != [] && forall k :: 0 <= k < |group| ==> group[k] < |fs|
    requires Resolved(fs, advisories, group, parts, out)
    ensures |parts| == |out| && (parts == [group] || parts == Singles(group))
    ensures forall k :: 0 <= k < |parts| ==> Produced(fs, advisories, parts[k], out[k])
  {
  }

  lemma Conclude(fs: seq<Finding>, groups: seq<seq<nat>>, component: seq<nat>, parts: seq<seq<nat>>, homes: seq<nat>)
    requires Grouping(fs, groups, component) && PartsOf(component, |groups|, parts, homes)
    requires forall i, j :: 0 <= i < |fs| && 0 <= j < |fs| ==> (component[i] == component[j] <==> Connected(fs, i, j))
    ensures Partition(parts, |fs|)
    ensures forall k :: 0 <= k < |parts| ==> HangsTogether(fs, parts[k])
  {
  }

  /** Without codes every part is a whole component, and identifiers are shared only inside one. */
  lemma NoCodesMeans(input: seq<Finding>, advisories: map<string, Advisory>, parts: seq<seq<nat>>, result: seq<Finding>)
    requires |parts| == |result| && Judged(input, advisories, parts, result, [])
    ensures var fs := AllValidated(input, advisories);
            && (forall k :: 0 <= k < |parts| ==> IsComponent(fs, parts[k]))
            && (forall i, j :: 0 <= i < |fs| && 0 <= j < |fs| && !Connected(fs, i, j) ==> Ids(fs[i]) !! Ids(fs[j]))
  {
    hide AllValidated, Connected, Clash, Murky, Ids, IsComponent, Merged, OwnCodes, Cause;
    var fs := AllValidated(input, advisories);
    NoCause(input, advisories);
    forall k | 0 <= k < |parts| ensures IsComponent(fs, parts[k]) {
      assert PartJudged(input, advisories, parts[k], result[k]);
    }
  }

  lemma NoCause(input: seq<Finding>, advisories: map<string, Advisory>)
    requires forall c :: !Cause(input, advisories, c)
    ensures var fs := AllValidated(input, advisories);
            && (forall i: nat :: !KeptApart(input, advisories, i))
            && (forall i, j :: 0 <= i < |fs| && 0 <= j < |fs| && !Connected(fs, i, j) ==> Ids(fs[i]) !! Ids(fs[j]))
  {
    hide AllValidated, Connected, Ids, OverlapCause, OwnCause, GroupCause, KeptApart;
    assert !Cause(input, advisories, "ALIAS_AMBIGUOUS_OR_CONFLICTING");
    NoOverlapCause(AllValidated(input, advisories));
    forall i: nat ensures !KeptApart(input, advisories, i) {
      if KeptApart(input, advisories, i) {
        var c := KeptApartCauses(input, advisories, i);
      }
    }
  }

  lemma NoOverlapCause(fs: seq<Finding>)
    requires !OverlapCause(fs, "ALIAS_AMBIGUOUS_OR_CONFLICTING")
    ensures forall i, j :: 0 <= i < |fs| && 0 <= j < |fs| && !Connected(fs, i, j) ==> Ids(fs[i]) !! Ids(fs[j])
  {
    hide Connected, Ids;
  }

  /** Whatever keeps a component apart is reported. */
  lemma KeptApartCauses(input: seq<Finding>, advisories: map<string, Advisory>, i: nat) returns (c: string)
    requires KeptApart(input, advisories, i)
    ensures Cause(input, advisories, c)
  {
    hide AllValidated, Connected, Clash, Murky, OwnCodes, OverlapCause;
    var fs := AllValidated(input, advisories);
    if j :| 0 <= j < |fs| && Connected(fs, i, j) && Blocked(input, advisories, j) {
      c := OwnCodes(input, advisories, j)[0];
      assert c in OwnCodes(input, advisories, j);
    } else {
      var j, l :| 0 <= j < |fs| && 0 <= l < |fs| && j != l && Connected(fs, i, j) && Connected(fs, i, l)
                  && (Clash(fs, advisories, j, l) || Murky(fs, advisories, j, l));
      ConnectedBack(fs, i, j, l);
      c := if Clash(fs, advisories, j, l) then "ALIAS_FIX_CONFLICT" else "ALIAS_FIX_EVIDENCE_UNKNOWN";
      assert Speaks(fs, advisories, j, l, c);
    }
  }

  /** The emitted codes say that records disagree, never that the snapshot is incoherent. */
  lemma OutcomeIsReview(input: seq<Finding>, advisories: map<string, Advisory>, parts: seq<seq<nat>>,
                        result: seq<Finding>, codes: seq<string>)
    requires Outcome(input, advisories, parts, result, codes)
    ensures ReviewCodes(codes)
  {
    hide FixCodes, Connected, Clash, Murky, PartJudged, Partition, Produced, HangsTogether;
    forall k | 0 <= k < |codes| ensures IsReviewCode(codes[k]) {
      assert Cause(input, advisories, codes[k]);
      if i :| 0 <= i < |input| && codes[k] in OwnCodes(input, advisories, i) {
        FixCodesAreReview(input[i], Lookup(advisories, input[i].advisory));
      }
    }
  }

  // ---------------------------------------------------------------- what follows for the reported findings

  /** The findings of one module as the assessment builds them, before consolidation. */
  predicate Initial(input: seq<Finding>, m: Module) {
    && (forall i :: 0 <= i < |input| ==>
          var f := input[i]; f.mod == m && f.records == [f.advisory] && f.priority == Priority(f.severity))
    && (forall i, j :: 0 <= i < j < |input| ==> input[i].advisory != input[j].advisory)
  }

  /** The reported finding carries exactly the records and only the fixes of its part's members. */
  lemma ProducedCarries(fs: seq<Finding>, advisories: map<string, Advisory>, part: seq<nat>, f: Finding)
    requires Produced(fs, advisories, part, f)
    ensures part != [] && forall k :: 0 <= k < |part| ==> part[k] < |fs|
    ensures Carries(fs, part, |part|, f) && Highest(fs, part, |part|, f)
    ensures f.mod == fs[part[0]].mod && f.advisory == fs[part[0]].advisory
  {
    hide Carries, Highest;
    MergeCarries(fs, part, |part|);
    MergeHighest(fs, part, |part|);
    var m := MergeFirst(fs, part, |part|);
    RemediationAside(fs, part, m);
    if |part| == 1 {
      assert m == fs[part[0]];
    }
  }

  lemma RemediationAside(fs: seq<Finding>, part: seq<nat>, m: Finding)
    requires part != [] && forall k :: 0 <= k < |part| ==> part[k] < |fs|
    ensures var f := m.(remediation := REVIEW_UPGRADE);
            && Carries(fs, part, |part|, f) == Carries(fs, part, |part|, m)
            && Highest(fs, part, |part|, f) == Highest(fs, part, |part|, m)
  {
    hide Rank;
    var f := m.(remediation := REVIEW_UPGRADE);
    assert Ids(f) == Ids(m);
  }

  /**
   Every fix left in a reported finding is confirmed by every record the finding carries: no Go entry of the record
   for the module holds at the fix or fails to be evaluated there, and some such entry decides it.
   */
  lemma ReportedFixesConfirmed(input: seq<Finding>, m: Module, advisories: map<string, Advisory>, parts: seq<seq<nat>>,
                               result: seq<Finding>, codes: seq<string>, k: nat, id: string, fix: string)
    requires Initial(input, m) && Outcome(input, advisories, parts, result, codes) && k < |result|
    requires id in result[k].records && fix in result[k].fixVersions
    ensures result[k].mod == m && id in advisories && Confirms(advisories[id], m, fix)
    ensures forall e :: e in advisories[id].affected && e.package == Package(m.name, "Go") ==>
              !EntryMatches(e, fix) && !EntryInvalid(e, fix)
    ensures exists e :: e in advisories[id].affected && e.package == Package(m.name, "Go") && EntryConclusive(e, fix)
  {
    hide Outcome, AllValidated, EntryMatches, EntryInvalid, EntryConclusive;
    PartOutcome(input, advisories, parts, result, codes, k);
    PartFixConfirmed(AllValidated(input, advisories), input, m, advisories, parts[k], result[k], id, fix);
  }

  /**
   A proposed fix that the proposing record confirms, no Go entry for the module holding there, failing or being empty
   and some such entry deciding it, is still reported, in whatever finding carries the record.
   */
  lemma ConfirmedFixesReported(input: seq<Finding>, m: Module, advisories: map<string, Advisory>,
                               parts: seq<seq<nat>>, result: seq<Finding>, codes: seq<string>, k: nat, i: nat, fix: string)
    requires Initial(input, m) && Outcome(input, advisories, parts, result, codes) && k < |result|
    requires i < |input| && input[i].advisory in result[k].records && fix in input[i].fixVersions
    requires input[i].advisory in advisories
    requires forall e :: e in advisories[input[i].advisory].affected && e.package == Package(m.name, "Go") ==>
               !EntryMatches(e, fix) && !EntryInvalid(e, fix) && (e.versions != [] || e.ranges != [])
    requires exists e :: e in advisories[input[i].advisory].affected && e.package == Package(m.name, "Go")
                         && EntryConclusive(e, fix)
    ensures fix in result[k].fixVersions
  {
    hide Outcome, Produced, AllValidated, EntryMatches, EntryInvalid, EntryConclusive;
    assert Confirms(advisories[input[i].advisory], m, fix);
    PartOutcome(input, advisories, parts, result, codes, k);
    PartCarries(input, m, advisories, parts, result, codes, k, input[i].advisory);
    var j: nat :| j in parts[k] && j < |input| && input[j].advisory == input[i].advisory;
    StillProposed(input, advisories, j, fix);
    FixCarried(AllValidated(input, advisories), advisories, parts[k], result[k], j, fix);
  }

  lemma StillProposed(input: seq<Finding>, advisories: map<string, Advisory>, i: nat, fix: string)
    requires i < |input| && fix in input[i].fixVersions
    requires Confirms(Lookup(advisories, input[i].advisory), input[i].mod, fix)
    ensures fix in AllValidated(input, advisories)[i].fixVersions
  {
    hide Confirms, Validated;
    ValidatedFixesConfirmed(input[i], Lookup(advisories, input[i].advisory));
  }

  lemma FixCarried(fs: seq<Finding>, advisories: map<string, Advisory>, part: seq<nat>, f: Finding, i: nat, fix: string)
    requires Produced(fs, advisories, part, f) && i in part && i < |fs| && fix in fs[i].fixVersions
    ensures fix in f.fixVersions
  {
    hide Produced, Highest;
    ProducedCarries(fs, advisories, part, f);
    var a :| 0 <= a < |part| && part[a] == i;
  }

  lemma PartOutcome(input: seq<Finding>, advisories: map<string, Advisory>, parts: seq<seq<nat>>, result: seq<Finding>,
                    codes: seq<string>, k: nat)
    requires Outcome(input, advisories, parts, result, codes) && k < |result|
    ensures k < |parts| == |result| && Produced(AllValidated(input, advisories), advisories, parts[k], result[k])
  {
  }

  lemma PartFixConfirmed(fs: seq<Finding>, input: seq<Finding>, m: Module, advisories: map<string, Advisory>,
                         part: seq<nat>, f: Finding, id: string, fix: string)
    requires Initial(input, m) && fs == AllValidated(input, advisories) && Produced(fs, advisories, part, f)
    requires id in f.records && fix in f.fixVersions
    ensures f.mod == m && Confirms(Lookup(advisories, id), m, fix)
  {
    hide Confirms, Merged, Validated, Highest, Priority;
    ProducedCarries(fs, advisories, part, f);
    var a :| 0 <= a < |part| && id in fs[part[a]].records;
    var b :| 0 <= b < |part| && fix in fs[part[b]].fixVersions;
    ValidatedKeeps(input[part[0]], Lookup(advisories, input[part[0]].advisory));
    ValidatedKeeps(input[part[a]], Lookup(advisories, input[part[a]].advisory));
    assert fs[part[a]].records == [fs[part[a]].advisory];
    if |part| == 1 {
      ValidatedFixesConfirmed(input[part[0]], Lookup(advisories, id));
    } else {
      assert Unanimous(fs, advisories, part);
    }
  }

  lemma ValidatedKeeps(f: Finding, a: Advisory)
    ensures var g := Validated(f, a);
            g.mod == f.mod && g.advisory == f.advisory && g.records == f.records && g.aliases == f.aliases
  {
  }

  /** CRITICAL above HIGH above MEDIUM, which is MODERATE, above LOW above everything else; and the priorities. */
  lemma SeverityScale(other: string)
    ensures Rank("CRITICAL") > Rank("HIGH") > Rank("MEDIUM") == Rank("MODERATE") > Rank("LOW") > Rank("UNKNOWN")
    ensures other !in ["CRITICAL", "HIGH", "MEDIUM", "MODERATE", "LOW"] ==> Rank(other) == Rank("UNKNOWN")
    ensures Priority("CRITICAL") == "P1" && Priority("HIGH") == "P2" && Priority("MEDIUM") == "P3"
    ensures Priority("MODERATE") == "P3" && Priority("LOW") == "P4"
    ensures Rank(other) == Rank("UNKNOWN") ==> Priority(other) == "P2_REVIEW_UNKNOWN"
  {
  }

  /** A reported finding ranks as its worst member, and its priority matches its severity. */
  lemma ReportedSeverity(input: seq<Finding>, m: Module, advisories: map<string, Advisory>, parts: seq<seq<nat>>,
                         result: seq<Finding>, codes: seq<string>, k: nat)
    requires Initial(input, m) && Outcome(input, advisories, parts, result, codes) && k < |result|
    ensures result[k].priority == Priority(result[k].severity)
    ensures forall i :: i in parts[k] ==> i < |input| && Rank(input[i].severity) <= Rank(result[k].severity)
    ensures exists i :: i in parts[k] && i < |input| && input[i].severity == result[k].severity
  {
    hide Merged, Connected, Ids, Partition, IsComponent, HangsTogether, Unanimous, Rank;
    var fs, part := AllValidated(input, advisories), parts[k];
    ProducedCarries(fs, advisories, part, result[k]);
    var a :| 0 <= a < |part| && fs[part[a]].severity == result[k].severity && fs[part[a]].priority == result[k].priority;
    assert part[a] in part;
  }

  /** Every input record is carried by exactly one reported finding. */
  lemma EveryRecordOnce(input: seq<Finding>, m: Module, advisories: map<string, Advisory>, parts: seq<seq<nat>>,
                        result: seq<Finding>, codes: seq<string>, i: nat) returns (k: nat)
    requires Initial(input, m) && Outcome(input, advisories, parts, result, codes) && i < |input|
    ensures k < |result| && input[i].advisory in result[k].records
    ensures forall l :: 0 <= l < |result| && input[i].advisory in result[l].records ==> l == k
  {
    hide Produced, Validated, Carries, Highest;
    var fs := AllValidated(input, advisories);
    assert InSome(parts, i);
    k :| 0 <= k < |parts| && i in parts[k];
    PartCarries(input, m, advisories, parts, result, codes, k, input[i].advisory);
    forall l | 0 <= l < |result| && input[i].advisory in result[l].records ensures l == k {
      PartCarries(input, m, advisories, parts, result, codes, l, input[i].advisory);
      var j :| j in parts[l] && j < |input| && input[j].advisory == input[i].advisory;
      assert i in Members(parts[l]) && i in Members(parts[k]);
    }
  }

  lemma PartCarries(input: seq<Finding>, m: Module, advisories: map<string, Advisory>, parts: seq<seq<nat>>,
                    result: seq<Finding>, codes: seq<string>, k: nat, id: string)
    requires Initial(input, m) && Outcome(input, advisories, parts, result, codes) && k < |result|
    ensures |parts| == |result|
    ensures id in result[k].records <==> exists i: nat :: i in parts[k] && i < |input| && input[i].advisory == id
  {
    hide Outcome, Produced, Highest, Validated, Rank;
    PartOutcome(input, advisories, parts, result, codes, k);
    KeepsLinks(input, advisories);
    var fs, part := AllValidated(input, advisories), parts[k];
    ProducedCarries(fs, advisories, part, result[k]);
    forall a | 0 <= a < |part| ensures id in fs[part[a]].records <==> input[part[a]].advisory == id {
    }
    if exists i: nat :: i in part && i < |input| && input[i].advisory == id {
      var i: nat :| i in part && i < |input| && input[i].advisory == id;
      var a :| 0 <= a < |part| && part[a] == i;
    }
    if id in result[k].records {
      var a :| 0 <= a < |part| && id in fs[part[a]].records;
      assert part[a] in part;
    }
  }

  /** Without quality codes the reported findings are the connected components, with disjoint identifiers. */
  lemma CleanOutputsAreDisjointComponents(input: seq<Finding>, m: Module, advisories: map<string, Advisory>,
                                          parts: seq<seq<nat>>, result: seq<Finding>, k: nat, l: nat)
    requires Initial(input, m) && Outcome(input, advisories, parts, result, [])
    requires k < |result| && l < |result| && k != l
    ensures forall i: nat, j: nat :: i in parts[k] ==> (j in parts[k] <==> Connected(input, i, j))
    ensures Ids(result[k]) !! Ids(result[l])
  {
    hide Merged, Unanimous, Produced, Connected, Validated, Carries, Highest, Ids, Priority;
    var fs := AllValidated(input, advisories);
    KeepsLinks(input, advisories);
    NoCodesMeans(input, advisories, parts, result);
    assert IsComponent(fs, parts[k]);
    forall i: nat, j: nat ensures Connected(fs, i, j) == Connected(input, i, j) {
      SameConnections(fs, input, i, j);
    }
    ProducedCarries(fs, advisories, parts[k], result[k]);
    ProducedCarries(fs, advisories, parts[l], result[l]);
    forall x | x in Ids(result[k]) && x in Ids(result[l]) ensures false {
      var i := Owner(fs, input, m, parts[k], result[k], x);
      var j := Owner(fs, input, m, parts[l], result[l], x);
      NotConnectedAcross(fs, parts[k], parts[l], i, j);
    }
  }

  lemma NotConnectedAcross(fs: seq<Finding>, a: seq<nat>, b: seq<nat>, i: nat, j: nat)
    requires IsComponent(fs, a) && Members(a) !! Members(b) && i in a && j in b
    ensures !Connected(fs, i, j)
  {
    hide Connected;
    assert j in Members(b);
  }

  lemma KeepsLinks(input: seq<Finding>, advisories: map<string, Advisory>)
    ensures var fs := AllValidated(input, advisories);
            forall i :: 0 <= i < |fs| ==>
              SameLinks(fs[i], input[i]) && fs[i].records == input[i].records && fs[i].advisory == input[i].advisory
  {
  }

  /** The member an identifier of a reported finding comes from. */
  lemma Owner(fs: seq<Finding>, input: seq<Finding>, m: Module, part: seq<nat>, f: Finding, x: string) returns (i: nat)
    requires Initial(input, m) && |fs| == |input|
    requires forall n :: 0 <= n < |fs| ==> fs[n].records == input[n].records && fs[n].advisory == input[n].advisory
    requires part != [] && forall k :: 0 <= k < |part| ==> part[k] < |fs|
    requires Carries(fs, part, |part|, f) && f.advisory == fs[part[0]].advisory && x in Ids(f)
    ensures i in part && i < |fs| && x in Ids(fs[i])
  {
    if x == f.advisory {
      i := part[0];
    } else {
      assert x in f.aliases;
      var a :| 0 <= a < |part| && (x in fs[part[a]].aliases || (a > 0 && x in fs[part[a]].records));
      i := part[a];
    }
  }

  predicate SameLinks(f: Finding, g: Finding) {
    f.advisory == g.advisory && f.aliases == g.aliases && f.affected == g.affected && f.disposition == g.disposition
  }

  /** Validation changes no alias, identifier, status or disposition, hence no connection. */
  lemma SameConnections(fs: seq<Finding>, input: seq<Finding>, i: nat, j: nat)
    requires |fs| == |input|
    requires forall k :: 0 <= k < |fs| ==> SameLinks(fs[k], input[k])
    ensures Connected(fs, i, j) == Connected(input, i, j)
  {
    forall p ensures Path(fs, p) == Path(input, p) {
    }
    if Connected(fs, i, j) {
      var p :| PathBetween(fs, p, i, j);
      assert PathBetween(input, p, i, j);
    }
    if Connected(input, i, j) {
      var p :| PathBetween(input, p, i, j);
      assert PathBetween(fs, p, i, j);
    }
  }
}
