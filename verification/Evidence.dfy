/** What one advisory record says about one module version, and which proposed fixes it confirms. */
module Evidence {
  import opened Text
  import opened SemVer
  import opened OsvRange
  import OsvSchema

  datatype Package = Package(name: string, ecosystem: string)

  datatype Affected = Affected(package: Package, versions: seq<string>, ranges: seq<Range>, severity: string)

  datatype Advisory = Advisory(id: string, modified: string, withdrawn: string, aliases: seq<string>,
                               affected: seq<Affected>, severity: string)

  datatype Module = Module(name: string, version: string, dependency: string, exposure: string)

  datatype Finding = Finding(mod: Module, advisory: string, records: seq<string>, aliases: seq<string>,
                             severity: string, priority: string, affected: string, fixVersions: seq<string>,
                             disposition: string, remediation: string)

  const NO_FIX := "NO_CONFIRMED_FIX_REVIEW_MITIGATION"
  const REVIEW_UPGRADE := "REVIEW_UPGRADE_OR_DOCUMENT_EXCEPTION"

  // ---------------------------------------------------------------- sorted unions

  predicate StrictlySorted(s: seq<string>) {
    forall i, j :: 0 <= i < j < |s| ==> Less(s[i], s[j])
  }

  function Insert(x: string, s: seq<string>): (r: seq<string>)
    requires StrictlySorted(s)
    ensures Elements(r) == Elements(s) + {x}
    ensures StrictlySorted(r)
  {
    if s == [] then [x]
    else if x == s[0] then s
    else
      LessTrichotomy(x, s[0]);
      if Less(x, s[0]) then
        LeastFirst(x, s);
        [x] + s
      else
        var rest := Insert(x, s[1..]);
        InsertBehind(s[0], x, s[1..], rest);
        ElementsCons(s[0], s[1..]);
        ElementsCons(s[0], rest);
        assert s == [s[0]] + s[1..];
        [s[0]] + rest
  }

  lemma ElementsCons(x: string, s: seq<string>)
    ensures Elements([x] + s) == {x} + Elements(s)
  {
  }

  lemma TailElements(s: seq<string>)
    requires s != [] && StrictlySorted(s)
    ensures Elements(s[1..]) == Elements(s) - {s[0]}
  {
    ElementsCons(s[0], s[1..]);
    assert s == [s[0]] + s[1..];
    LessIrreflexive(s[0]);
    forall i | 0 < i < |s| ensures s[i] != s[0] {
      assert Less(s[0], s[i]);
    }
  }

  lemma LeastFirst(x: string, s: seq<string>)
    requires s != [] && StrictlySorted(s) && Less(x, s[0])
    ensures StrictlySorted([x] + s)
  {
    forall i | 0 < i < |s| ensures Less(x, s[i]) {
      LessTransitive(x, s[0], s[i]);
    }
  }

  lemma InsertBehind(y: string, x: string, s: seq<string>, rest: seq<string>)
    requires StrictlySorted(rest) && Elements(rest) == Elements(s) + {x}
    requires Less(y, x) && forall i :: 0 <= i < |s| ==> Less(y, s[i])
    ensures StrictlySorted([y] + rest)
  {
    forall i | 0 <= i < |rest| ensures Less(y, rest[i]) {
      assert rest[i] in Elements(rest);
    }
  }

  /** securityUnion: the distinct strings of both lists in ascending order. */
  function Union(a: seq<string>, b: seq<string>): (r: seq<string>)
    ensures StrictlySorted(r) && Elements(r) == Elements(a) + Elements(b)
    decreases |a| + |b|
  {
    if a != [] then
      assert a == [a[0]] + a[1..];
      Insert(a[0], Union(a[1..], b))
    else if b != [] then
      assert b == [b[0]] + b[1..];
      Insert(b[0], Union([], b[1..]))
    else []
  }

  /** Only one strictly ascending list has given elements: the order a map is walked in cannot show. */
  lemma {:induction false} UnionCanonical(r: seq<string>, s: seq<string>)
    requires StrictlySorted(r) && StrictlySorted(s) && Elements(r) == Elements(s)
    ensures r == s
  {
    assert (r != [] ==> r[0] in Elements(r)) && (s != [] ==> s[0] in Elements(s));
    if r != [] && s != [] {
      assert r[0] in Elements(s) && s[0] in Elements(r);
      var i :| 0 <= i < |s| && s[i] == r[0];
      var j :| 0 <= j < |r| && r[j] == s[0];
      LessTrichotomy(r[0], s[0]);
      TailElements(r);
      TailElements(s);
      UnionCanonical(r[1..], s[1..]);
      assert r == [r[0]] + r[1..] && s == [s[0]] + s[1..];
    }
  }

  /** |A + B| < |A| + |B| is how the tool asks whether two sets meet. */
  lemma CardinalityMeansOverlap(a: set<string>, b: set<string>)
    ensures |a + b| < |a| + |b| <==> !(a !! b)
  {
    assert |a + b| == |a| + |b| - |a * b|;
    if !(a !! b) {
      var x :| x in a && x in b;
      assert x in a * b;
    }
  }

  lemma {:induction false} SortedLength(s: seq<string>)
    requires StrictlySorted(s)
    ensures |s| == |Elements(s)|
  {
    if s != [] {
      var rest := s[1..];
      SortedLength(rest);
      TailElements(s);
      assert s[0] in Elements(s);
      assert Elements(s) == Elements(rest) + {s[0]};
    }
  }

  // ---------------------------------------------------------------- severities

  function Rank(text: string): nat {
    if text == "CRITICAL" then 5
    else if text == "HIGH" then 4
    else if text == "MODERATE" || text == "MEDIUM" then 3
    else if text == "LOW" then 2
    else 0
  }

  function Priority(text: string): string {
    match Rank(text)
    case 5 => "P1"
    case 4 => "P2"
    case 3 => "P3"
    case 2 => "P4"
    case _ => "P2_REVIEW_UNKNOWN"
  }

  function Severity(text: string): string {
    if text == "CRITICAL" || text == "HIGH" || text == "LOW" then text
    else if text == "MODERATE" || text == "MEDIUM" then "MEDIUM"
    else "UNKNOWN"
  }

  // ---------------------------------------------------------------- version evidence

  datatype Report = Report(status: string, fixes: seq<string>, severity: string, conclusive: bool)

  predicate Concerns(f: Affected, m: Module) {
    f.package.ecosystem == "Go" && f.package.name == m.name
  }

  /** The entry names or ranges over the version. */
  ghost predicate EntryMatches(f: Affected, version: string) {
    || (exists i :: 0 <= i < |f.versions| && CompareVersions(version, f.versions[i]) == Ok(0))
    || (exists i :: 0 <= i < |f.ranges| && RangeMatches(f.ranges[i], version))
  }

  ghost predicate RangeMatches(r: Range, version: string) {
    RangeVerdict(version, r).Ok? && RangeVerdict(version, r).value.affected
  }

  /** Some part of the entry cannot be evaluated at the version. */
  ghost predicate EntryInvalid(f: Affected, version: string) {
    || (exists i :: 0 <= i < |f.versions| && CompareVersions(version, f.versions[i]).Err?)
    || (exists i :: 0 <= i < |f.ranges| && RangeVerdict(version, f.ranges[i]).Err?)
  }

  ghost predicate EntryConclusive(f: Affected, version: string) {
    f.versions != [] || exists i :: 0 <= i < |f.ranges| && RangeVerdict(version, f.ranges[i]).Ok?
  }

  /** The fixes the matching ranges of an entry report, in order. */
  ghost function RangeFixes(ranges: seq<Range>, version: string): seq<string> {
    if ranges == [] then []
    else
      var last := ranges[|ranges| - 1];
      RangeFixes(ranges[..|ranges| - 1], version)
      + if RangeMatches(last, version) then RangeVerdict(version, last).value.fixes else []
  }

  ghost predicate SomeInvalid(entries: seq<Affected>, m: Module) {
    exists i :: 0 <= i < |entries| && Concerns(entries[i], m) && EntryInvalid(entries[i], m.version)
  }

  ghost predicate SomeMatch(entries: seq<Affected>, m: Module) {
    exists i :: 0 <= i < |entries| && Concerns(entries[i], m) && EntryMatches(entries[i], m.version)
  }

  ghost predicate SomeConclusive(entries: seq<Affected>, m: Module) {
    exists i :: 0 <= i < |entries| && Concerns(entries[i], m) && EntryConclusive(entries[i], m.version)
  }

  ghost predicate SomeMissing(entries: seq<Affected>, m: Module) {
    exists i :: 0 <= i < |entries| && Concerns(entries[i], m) && entries[i].versions == [] && entries[i].ranges == []
  }

  ghost function EntryFixes(entries: seq<Affected>, m: Module): seq<string> {
    if entries == [] then []
    else
      var f := entries[|entries| - 1];
      EntryFixes(entries[..|entries| - 1], m) + if Concerns(f, m) then RangeFixes(f.ranges, m.version) else []
  }

  /** The record's own text, raised by the labels of matching entries. */
  ghost function EntrySeverity(text: string, entries: seq<Affected>, m: Module): string {
    if entries == [] then Severity(text)
    else
      var f, before := entries[|entries| - 1], EntrySeverity(text, entries[..|entries| - 1], m);
      if Concerns(f, m) && EntryMatches(f, m.version) && Rank(Severity(f.severity)) > Rank(before)
      then Severity(f.severity) else before
  }

  /** securityVersionEvidence as a function of its arguments. */
  ghost function EvidenceOf(a: Advisory, m: Module): Report {
    var severity := EntrySeverity(a.severity, a.affected, m);
    if SomeInvalid(a.affected, m) then Report("UNKNOWN", [], severity, false)
    else Report(if SomeMatch(a.affected, m) then "AFFECTED" else "UNKNOWN", Union([], EntryFixes(a.affected, m)),
                severity, SomeConclusive(a.affected, m) && !SomeMissing(a.affected, m))
  }

  /** The loop over the versions an entry names. */
  method ReadVersions(versions: seq<string>, version: string) returns (matches: bool, invalid: bool)
    ensures matches == exists k :: 0 <= k < |versions| && CompareVersions(version, versions[k]) == Ok(0)
    ensures invalid == exists k :: 0 <= k < |versions| && CompareVersions(version, versions[k]).Err?
  {
    hide CompareVersions;
    matches, invalid := false, false;
    var i := 0;
    while i < |versions|
      invariant 0 <= i <= |versions|
      invariant matches == exists k :: 0 <= k < i && CompareVersions(version, versions[k]) == Ok(0)
      invariant invalid == exists k :: 0 <= k < i && CompareVersions(version, versions[k]).Err?
    {
      var c := SecurityCompare(version, versions[i]);
      if c.Err? {
        invalid := true;
      } else if c.value == 0 {
        matches := true;
      }
      i := i + 1;
    }
  }

  /** What one entry contributes. */
  method ReadEntry(f: Affected, version: string)
    returns (matches: bool, invalid: bool, conclusive: bool, fixes: seq<string>)
    ensures matches == EntryMatches(f, version) && invalid == EntryInvalid(f, version)
    ensures conclusive == EntryConclusive(f, version) && fixes == RangeFixes(f.ranges, version)
  {
    hide CompareVersions, RangeVerdict;
    matches, invalid := ReadVersions(f.versions, version);
    conclusive, fixes := |f.versions| > 0, [];
    ghost var byName, badName := matches, invalid;
    var i := 0;
    while i < |f.ranges|
      invariant 0 <= i <= |f.ranges|
      invariant matches == (byName || exists k :: 0 <= k < i && RangeMatches(f.ranges[k], version))
      invariant invalid == (badName || exists k :: 0 <= k < i && RangeVerdict(version, f.ranges[k]).Err?)
      invariant conclusive == (f.versions != [] || exists k :: 0 <= k < i && RangeVerdict(version, f.ranges[k]).Ok?)
      invariant fixes == RangeFixes(f.ranges[..i], version)
    {
      var v := SecurityRange(version, f.ranges[i]);
      assert f.ranges[..i + 1][..i] == f.ranges[..i];
      if v.Err? {
        invalid := true;
      } else {
        conclusive := true;
        if v.value.affected {
          matches := true;
          fixes := fixes + v.value.fixes;
        }
      }
      i := i + 1;
    }
    assert f.ranges[..i] == f.ranges;
  }

  method SecurityVersionEvidence(a: Advisory, m: Module) returns (r: Report)
    ensures r == EvidenceOf(a, m)
  {
    hide EntryMatches, EntryInvalid, EntryConclusive, RangeFixes, Union, SomeMatch, SomeInvalid, SomeConclusive,
         SomeMissing, EntryFixes, EntrySeverity;
    NothingRead(a.severity, m);
    var status, fixes, severity := "UNKNOWN", [], Severity(a.severity);
    var invalid, conclusive, missing := false, false, false;
    var n := 0;
    while n < |a.affected|
      invariant 0 <= n <= |a.affected|
      invariant status == if SomeMatch(a.affected[..n], m) then "AFFECTED" else "UNKNOWN"
      invariant fixes == EntryFixes(a.affected[..n], m)
      invariant severity == EntrySeverity(a.severity, a.affected[..n], m)
      invariant invalid == SomeInvalid(a.affected[..n], m)
      invariant conclusive == SomeConclusive(a.affected[..n], m)
      invariant missing == SomeMissing(a.affected[..n], m)
    {
      var f := a.affected[n];
      assert a.affected[..n + 1] == a.affected[..n] + [f];
      EntryAppended(a.affected[..n], f, m, a.severity);
      if Concerns(f, m) {
        var matches, bad, known, more := ReadEntry(f, m.version);
        invalid := invalid || bad;
        conclusive := conclusive || known;
        missing := missing || (|f.versions| == 0 && |f.ranges| == 0);
        fixes := fixes + more;
        if matches {
          status := "AFFECTED";
          var text := Severity(f.severity);
          if Rank(text) > Rank(severity) {
            severity := text;
          }
        }
      }
      n := n + 1;
    }
    assert a.affected[..n] == a.affected;
    if invalid {
      return Report("UNKNOWN", [], severity, false);
    }
    return Report(status, Union([], fixes), severity, conclusive && !missing);
  }

  lemma NothingRead(text: string, m: Module)
    ensures !SomeMatch([], m) && !SomeInvalid([], m) && !SomeConclusive([], m) && !SomeMissing([], m)
    ensures EntryFixes([], m) == [] && EntrySeverity(text, [], m) == Severity(text)
  {
  }

  lemma EntryAppended(seen: seq<Affected>, f: Affected, m: Module, text: string)
    ensures SomeMatch(seen + [f], m) <==> SomeMatch(seen, m) || (Concerns(f, m) && EntryMatches(f, m.version))
    ensures SomeInvalid(seen + [f], m) <==> SomeInvalid(seen, m) || (Concerns(f, m) && EntryInvalid(f, m.version))
    ensures SomeConclusive(seen + [f], m) <==> SomeConclusive(seen, m) || (Concerns(f, m) && EntryConclusive(f, m.version))
    ensures SomeMissing(seen + [f], m) <==> SomeMissing(seen, m) || (Concerns(f, m) && f.versions == [] && f.ranges == [])
    ensures EntryFixes(seen + [f], m) ==
            if Concerns(f, m) then EntryFixes(seen, m) + RangeFixes(f.ranges, m.version) else EntryFixes(seen, m)
    ensures EntrySeverity(text, seen + [f], m) ==
            if Concerns(f, m) && EntryMatches(f, m.version) && Rank(Severity(f.severity)) > Rank(EntrySeverity(text, seen, m))
            then Severity(f.severity) else EntrySeverity(text, seen, m)
  {
    hide EntryMatches, EntryInvalid, EntryConclusive;
    var next := seen + [f];
    assert next[..|seen|] == seen;
    assert forall i :: 0 <= i < |seen| ==> next[i] == seen[i];
    assert next[|seen|] == f;
  }

  // ---------------------------------------------------------------- confirmed fixes

  /** The module at a proposed fix version. */
  function At(m: Module, fix: string): Module {
    m.(version := "v" + if HasPrefixV(fix) then fix[1..] else fix)
  }

  /** The entry is about the module's Go package. */
  ghost predicate IsAbout(e: Affected, m: Module) {
    e.package.ecosystem == "Go" && e.package.name == m.name
  }

  /** No entry for the module holds at the version or fails there, none is empty, and one decides it. */
  ghost predicate Confirms(a: Advisory, m: Module, version: string) {
    && (forall e :: e in a.affected && IsAbout(e, m) ==>
          !EntryMatches(e, version) && !EntryInvalid(e, version) && (e.versions != [] || e.ranges != []))
    && exists e :: e in a.affected && IsAbout(e, m) && EntryConclusive(e, version)
  }

  /** Some entry for the module holds at the version, and all of them can be evaluated there. */
  ghost predicate Contradicts(a: Advisory, m: Module, version: string) {
    && (forall e :: e in a.affected && IsAbout(e, m) ==> !EntryInvalid(e, version))
    && exists e :: e in a.affected && IsAbout(e, m) && EntryMatches(e, version)
  }

  /** An entry for the module fails at the version or is empty, or none decides it. */
  ghost predicate Unclear(a: Advisory, m: Module, version: string) {
    || (exists e :: e in a.affected && IsAbout(e, m) && (EntryInvalid(e, version) || (e.versions == [] && e.ranges == [])))
    || forall e :: e in a.affected && IsAbout(e, m) ==> !EntryConclusive(e, version)
  }

  lemma ConfirmsIsNeither(a: Advisory, m: Module, version: string)
    ensures Confirms(a, m, version) <==> !Contradicts(a, m, version) && !Unclear(a, m, version)
  {
    hide EntryMatches, EntryInvalid, EntryConclusive;
  }

  /** The evidence at a fix is what the record says of the fix itself, with or without the v prefix. */
  lemma FixIsRead(a: Advisory, m: Module, fix: string)
    ensures EvidenceOf(a, At(m, fix)).status == "AFFECTED" <==> Contradicts(a, m, fix)
    ensures !EvidenceOf(a, At(m, fix)).conclusive <==> Unclear(a, m, fix)
    ensures EvidenceOf(a, At(m, fix)).status != "AFFECTED" && EvidenceOf(a, At(m, fix)).conclusive <==> Confirms(a, m, fix)
  {
    hide EntryMatches, EntryInvalid, EntryConclusive, Union, EntryFixes, EntrySeverity;
    var at := At(m, fix);
    forall e: Affected
      ensures EntryMatches(e, at.version) == EntryMatches(e, fix) && EntryInvalid(e, at.version) == EntryInvalid(e, fix)
      ensures EntryConclusive(e, at.version) == EntryConclusive(e, fix) && (Concerns(e, at) <==> IsAbout(e, m))
    {
      PrefixAside(fix);
      SameEntry(e, at.version, fix);
    }
    EvidenceIsRead(a, at);
    ConfirmsIsNeither(a, m, fix);
  }

  /** The evidence at a version, read off the record. */
  lemma EvidenceIsRead(a: Advisory, m: Module)
    ensures EvidenceOf(a, m).status == "AFFECTED" <==> Contradicts(a, m, m.version)
    ensures !EvidenceOf(a, m).conclusive <==> Unclear(a, m, m.version)
  {
    hide EntryMatches, EntryInvalid, EntryConclusive, Union, EntryFixes, EntrySeverity;
    forall e: Affected ensures Concerns(e, m) <==> IsAbout(e, m) {
    }
    forall e | e in a.affected ensures exists i :: 0 <= i < |a.affected| && a.affected[i] == e {
    }
  }

  /** Two spellings of one version, or neither is a version. */
  ghost predicate SameVersion(u: string, v: string) {
    (Accepted(u) <==> Accepted(v)) && (Accepted(u) ==> Read(u) == Read(v))
  }

  lemma PrefixAside(fix: string)
    ensures SameVersion("v" + if HasPrefixV(fix) then fix[1..] else fix, fix)
  {
    var u := "v" + if HasPrefixV(fix) then fix[1..] else fix;
    assert u[1..] == Unprefixed(fix);
    hide Cut, Split;
    assert FindSubmatch(u) == FindSubmatch(fix);
  }

  lemma SameEntry(e: Affected, u: string, v: string)
    requires SameVersion(u, v)
    ensures EntryMatches(e, u) == EntryMatches(e, v) && EntryInvalid(e, u) == EntryInvalid(e, v)
    ensures EntryConclusive(e, u) == EntryConclusive(e, v)
  {
    hide Accepted, Read, RangeVerdict;
    forall x: string ensures CompareVersions(u, x) == CompareVersions(v, x) {
    }
    forall r: Range ensures RangeVerdict(u, r) == RangeVerdict(v, r) {
      SameVerdict(r, u, v);
    }
  }

  lemma SameVerdict(r: Range, u: string, v: string)
    requires SameVersion(u, v)
    ensures RangeVerdict(u, r) == RangeVerdict(v, r)
  {
    hide Accepted, Read, WellFormed;
    if AcceptedRange(u, r) {
      ZeroIsNoVersion();
      SameEvaluation(LimitsClose(Changes(r.events)), u, v);
      SameEvaluation(Changes(r.events), u, v);
    }
  }

  lemma {:induction false} SameEvaluation(cs: seq<Change>, u: string, v: string)
    requires SameVersion(u, v) && Accepted(u) && u != "0" && v != "0"
    ensures Evaluate(u, cs) == Evaluate(v, cs) && FixesOf(u, cs) == FixesOf(v, cs)
  {
    hide Accepted, Read;
    forall x: string ensures Before(x, u) == Before(x, v) && Before(u, x) == Before(v, x) {
    }
    if cs != [] {
      SameEvaluation(cs[..|cs| - 1], u, v);
    }
  }

  /** What an entry says of a version, on its versions and on the events of its ranges. */
  lemma EntryIs(e: Affected, version: string)
    ensures EntryMatches(e, version) <==>
              || (exists x :: x in e.versions && CompareVersions(version, x) == Ok(0))
              || exists r :: r in e.ranges && OsvSchema.Readable(version, r) && exists i: nat :: OsvSchema.Inside(version, r.events, i)
    ensures EntryInvalid(e, version) <==>
              || (exists x :: x in e.versions && !(Accepted(version) && Accepted(x)))
              || exists r :: r in e.ranges && !OsvSchema.Readable(version, r)
    ensures EntryConclusive(e, version) <==> e.versions != [] || exists r :: r in e.ranges && OsvSchema.Readable(version, r)
  {
    hide RangeVerdict, OsvSchema.Readable, OsvSchema.Inside, Accepted, Read;
    forall r: Range
      ensures RangeVerdict(version, r).Ok? <==> OsvSchema.Readable(version, r)
      ensures RangeMatches(r, version) <==>
                OsvSchema.Readable(version, r) && exists i: nat :: OsvSchema.Inside(version, r.events, i)
    {
      OsvSchema.VerdictIs(version, r);
    }
    EntryOnItems(e, version);
  }

  lemma EntryOnItems(e: Affected, version: string)
    ensures EntryMatches(e, version) <==>
              (exists x :: x in e.versions && CompareVersions(version, x) == Ok(0)) || exists r :: r in e.ranges && RangeMatches(r, version)
    ensures EntryInvalid(e, version) <==>
              || (exists x :: x in e.versions && CompareVersions(version, x).Err?)
              || exists r :: r in e.ranges && RangeVerdict(version, r).Err?
    ensures EntryConclusive(e, version) <==> e.versions != [] || exists r :: r in e.ranges && RangeVerdict(version, r).Ok?
  {
    hide RangeVerdict, CompareVersions;
    forall x | x in e.versions ensures exists i :: 0 <= i < |e.versions| && e.versions[i] == x {
    }
    forall r | r in e.ranges ensures exists i :: 0 <= i < |e.ranges| && e.ranges[i] == r {
    }
    forall i | 0 <= i < |e.versions| ensures e.versions[i] in e.versions {
    }
    forall i | 0 <= i < |e.ranges| ensures e.ranges[i] in e.ranges {
    }
  }

  lemma {:induction false} RangeFixesAre(ranges: seq<Range>, version: string, f: string)
    ensures f in RangeFixes(ranges, version) <==>
              exists r :: r in ranges && RangeMatches(r, version) && f in RangeVerdict(version, r).value.fixes
  {
    hide RangeVerdict;
    if ranges != [] {
      var n := |ranges| - 1;
      RangeFixesAre(ranges[..n], version, f);
      assert ranges == ranges[..n] + [ranges[n]];
    }
  }

  lemma {:induction false} EntryFixesAre(entries: seq<Affected>, m: Module, f: string)
    ensures f in EntryFixes(entries, m) <==>
              exists e, r :: e in entries && IsAbout(e, m) && r in e.ranges && RangeMatches(r, m.version)
                             && f in RangeVerdict(m.version, r).value.fixes
  {
    hide RangeVerdict, RangeFixes, RangeMatches;
    if entries != [] {
      var n := |entries| - 1;
      var last := entries[n];
      EntryFixesAre(entries[..n], m, f);
      RangeFixesAre(last.ranges, m.version, f);
      assert entries == entries[..n] + [last];
      assert Concerns(last, m) <==> IsAbout(last, m);
    }
  }

  /** The fixes proposed for a version: those of the ranges that match it, when every entry can be evaluated. */
  lemma ProposedFixes(a: Advisory, m: Module, f: string)
    ensures f in EvidenceOf(a, m).fixes <==>
              && (forall e :: e in a.affected && IsAbout(e, m) ==> !EntryInvalid(e, m.version))
              && exists e, r :: e in a.affected && IsAbout(e, m) && r in e.ranges && RangeMatches(r, m.version)
                                && f in RangeVerdict(m.version, r).value.fixes
  {
    hide RangeVerdict, RangeMatches, EntryInvalid, EntryMatches, EntryConclusive, EntryFixes, EntrySeverity, Union;
    EntryFixesAre(a.affected, m, f);
    var fixes := EntryFixes(a.affected, m);
    assert f in Union([], fixes) <==> f in Elements(Union([], fixes));
    assert f in fixes <==> f in Elements(fixes);
    SomeInvalidIs(a.affected, m);
  }

  lemma SomeInvalidIs(entries: seq<Affected>, m: Module)
    ensures SomeInvalid(entries, m) <==> exists e :: e in entries && IsAbout(e, m) && EntryInvalid(e, m.version)
  {
    hide EntryInvalid;
    if e :| e in entries && IsAbout(e, m) && EntryInvalid(e, m.version) {
      var i :| 0 <= i < |entries| && entries[i] == e;
      assert Concerns(entries[i], m);
    }
  }

  /** How grave a severity text is. */
  function Gravity(text: string): nat {
    if text == "CRITICAL" then 4 else if text == "HIGH" then 3 else if text == "MEDIUM" || text == "MODERATE" then 2
    else if text == "LOW" then 1 else 0
  }

  /** The severity is the gravest of the record's own and those of the entries that match, spelled one way. */
  lemma {:induction false} GravestSeverity(text: string, entries: seq<Affected>, m: Module)
    ensures var s := EntrySeverity(text, entries, m);
            && s in {"CRITICAL", "HIGH", "MEDIUM", "LOW", "UNKNOWN"} && Gravity(s) >= Gravity(text)
            && (forall e :: e in entries && IsAbout(e, m) && EntryMatches(e, m.version) ==> Gravity(s) >= Gravity(e.severity))
            && (Gravity(s) == Gravity(text)
                || exists e :: e in entries && IsAbout(e, m) && EntryMatches(e, m.version) && Gravity(s) == Gravity(e.severity))
  {
    hide EntryMatches, Gravity, Severity, Rank;
    SpelledSeverity(text);
    if entries != [] {
      var n := |entries| - 1;
      var last, before := entries[n], EntrySeverity(text, entries[..n], m);
      GravestSeverity(text, entries[..n], m);
      SpelledSeverity(last.severity);
      SameRank(last.severity, before);
      assert forall e :: e in entries <==> e in entries[..n] || e == last by {
        assert entries == entries[..n] + [last];
      }
      assert Concerns(last, m) <==> IsAbout(last, m);
    }
  }

  lemma SpelledSeverity(text: string)
    ensures Severity(text) in {"CRITICAL", "HIGH", "MEDIUM", "LOW", "UNKNOWN"} && Gravity(Severity(text)) == Gravity(text)
  {
  }

  lemma SameRank(s: string, t: string)
    ensures Rank(Severity(s)) > Rank(t) <==> Gravity(s) > Gravity(t)
  {
  }

  ghost function ConfirmedFixes(fixes: seq<string>, a: Advisory, m: Module): seq<string> {
    if fixes == [] then []
    else
      var n := |fixes| - 1;
      ConfirmedFixes(fixes[..n], a, m) + if Confirms(a, m, fixes[n]) then [fixes[n]] else []
  }

  lemma {:induction false} ConfirmedFixesAre(fixes: seq<string>, a: Advisory, m: Module, fix: string)
    ensures fix in ConfirmedFixes(fixes, a, m) <==> fix in fixes && Confirms(a, m, fix)
  {
    hide Confirms;
    if fixes != [] {
      var n := |fixes| - 1;
      ConfirmedFixesAre(fixes[..n], a, m, fix);
      assert fixes == fixes[..n] + [fixes[n]];
    }
  }

  /** The finding with only the fixes its own record confirms. */
  ghost function Validated(f: Finding, a: Advisory): Finding {
    var fixes := Union([], ConfirmedFixes(f.fixVersions, a, f.mod));
    f.(fixVersions := fixes, remediation := if fixes == [] then NO_FIX else f.remediation)
  }

  ghost predicate FixConflict(f: Finding, a: Advisory) {
    exists i :: 0 <= i < |f.fixVersions| && Contradicts(a, f.mod, f.fixVersions[i])
  }

  ghost predicate FixUnknown(f: Finding, a: Advisory) {
    || Unclear(a, f.mod, f.mod.version)
    || exists i :: 0 <= i < |f.fixVersions| && Unclear(a, f.mod, f.fixVersions[i])
  }

  ghost function FixCodes(f: Finding, a: Advisory): seq<string> {
    (if FixConflict(f, a) then ["ADVISORY_FIX_CONFLICT"] else [])
    + (if FixUnknown(f, a) then ["ADVISORY_FIX_EVIDENCE_UNKNOWN"] else [])
  }

  /** The codes of validation and consolidation: the records disagree, not the snapshot. */
  predicate IsReviewCode(c: string) {
    || c == "ADVISORY_FIX_CONFLICT" || c == "ADVISORY_FIX_EVIDENCE_UNKNOWN" || c == "ALIAS_AMBIGUOUS_OR_CONFLICTING"
    || c == "ALIAS_FIX_CONFLICT" || c == "ALIAS_FIX_EVIDENCE_UNKNOWN"
  }

  predicate ReviewCodes(codes: seq<string>) {
    forall k :: 0 <= k < |codes| ==> IsReviewCode(codes[k])
  }

  lemma FixCodesAreReview(f: Finding, a: Advisory)
    ensures ReviewCodes(FixCodes(f, a))
  {
  }

  method SecurityValidateFixes(f: Finding, a: Advisory) returns (r: Finding, quality: seq<string>)
    ensures r == Validated(f, a) && quality == FixCodes(f, a)
  {
    hide EvidenceOf, Union, At, Confirms, Contradicts, Unclear;
    EvidenceIsRead(a, f.mod);
    var own := SecurityVersionEvidence(a, f.mod);
    var conflict, unknown, confirmed := false, !own.conclusive, [];
    var i := 0;
    while i < |f.fixVersions|
      invariant 0 <= i <= |f.fixVersions|
      invariant conflict == exists k :: 0 <= k < i && Contradicts(a, f.mod, f.fixVersions[k])
      invariant unknown == (Unclear(a, f.mod, f.mod.version) || exists k :: 0 <= k < i && Unclear(a, f.mod, f.fixVersions[k]))
      invariant confirmed == ConfirmedFixes(f.fixVersions[..i], a, f.mod)
    {
      var e := SecurityVersionEvidence(a, At(f.mod, f.fixVersions[i]));
      FixIsRead(a, f.mod, f.fixVersions[i]);
      assert f.fixVersions[..i + 1][..i] == f.fixVersions[..i];
      if e.status == "AFFECTED" {
        conflict := true;
      }
      if !e.conclusive {
        unknown := true;
      }
      if e.status != "AFFECTED" && e.conclusive {
        confirmed := confirmed + [f.fixVersions[i]];
      }
      i := i + 1;
    }
    assert f.fixVersions[..i] == f.fixVersions;
    r := f.(fixVersions := Union([], confirmed));
    if |r.fixVersions| == 0 {
      r := r.(remediation := NO_FIX);
    }
    quality := [];
    if conflict {
      quality := quality + ["ADVISORY_FIX_CONFLICT"];
    }
    if unknown {
      quality := quality + ["ADVISORY_FIX_EVIDENCE_UNKNOWN"];
    }
  }

  /** Every fix validation keeps is one the finding proposed and its record confirms. */
  lemma ValidatedFixesConfirmed(f: Finding, a: Advisory)
    ensures forall fix :: fix in Validated(f, a).fixVersions <==> fix in f.fixVersions && Confirms(a, f.mod, fix)
  {
    hide Confirms;
    var fixes := ConfirmedFixes(f.fixVersions, a, f.mod);
    forall fix ensures fix in Union([], fixes) <==> fix in f.fixVersions && Confirms(a, f.mod, fix) {
      ConfirmedFixesAre(f.fixVersions, a, f.mod, fix);
      assert fix in Union([], fixes) <==> fix in Elements(Union([], fixes));
      assert fix in fixes <==> fix in Elements(fixes);
    }
  }
}
