/** Assessing a snapshot against an inventory: the codes raised and what the findings rest on. */
module Assessment {
  import opened Text
  import opened Evidence
  import opened Capture
  import opened Consolidate
  import Sorting

  /** Parsed times in nanoseconds; zero is the time a failed parse leaves behind. */
  datatype Clock = Clock(seconds: string -> Option<int>, nanos: string -> Option<int>, zero: int, now: int)

  const DAY := 86400 * 1000000000

  // ---------------------------------------------------------------- codes

  /** The codes saying that the snapshot does not belong to the inventory or is not complete. */
  predicate IsIntegrityCode(c: string) {
    || c == "SNAPSHOT_IDENTITY_MISMATCH" || c == "PROVIDER_INCOMPLETE" || c == "SNAPSHOT_SHAPE_INVALID"
    || c == "ADVISORY_INVALID" || c == "QUERY_IDENTITY_MISMATCH" || c == "QUERY_INCOMPLETE"
    || c == "QUERY_ADVISORY_LIMIT" || c == "QUERY_DETAIL_MISSING_OR_DUPLICATE" || c == "UNQUERIED_ADVISORY_DETAIL"
  }

  predicate Raised(quality: seq<string>) {
    exists k :: 0 <= k < |quality| && IsIntegrityCode(quality[k])
  }

  lemma RaisedThen(a: seq<string>, b: seq<string>)
    ensures Raised(a + b) <==> Raised(a) || Raised(b)
  {
    hide IsIntegrityCode;
    var all := a + b;
    if Raised(a) {
      var k :| 0 <= k < |a| && IsIntegrityCode(a[k]);
      assert IsIntegrityCode(all[k]);
    }
    if Raised(b) {
      var k :| 0 <= k < |b| && IsIntegrityCode(b[k]);
      assert IsIntegrityCode(all[|a| + k]);
    }
  }

  lemma RaisedOne(c: string)
    ensures Raised([c]) <==> IsIntegrityCode(c)
  {
    assert [c][0] == c;
  }

  /** Appending one code. */
  function Raise(quality: seq<string>, c: string): (r: seq<string>)
    ensures Raised(r) <==> Raised(quality) || IsIntegrityCode(c)
    ensures forall x :: x in r <==> x in quality || x == c
  {
    RaisedThen(quality, [c]);
    RaisedOne(c);
    quality + [c]
  }

  lemma ReviewDoesNotRaise(codes: seq<string>)
    requires ReviewCodes(codes)
    ensures !Raised(codes)
  {
    forall k | 0 <= k < |codes| ensures !IsIntegrityCode(codes[k]) {
      ReviewIsNotIntegrity(codes[k]);
    }
  }

  lemma ReviewIsNotIntegrity(c: string)
    requires IsReviewCode(c)
    ensures !IsIntegrityCode(c)
  {
  }

  lemma NoneRaised()
    ensures !Raised([])
  {
  }

  // ---------------------------------------------------------------- when a snapshot is coherent

  /** Valid records under distinct ids. */
  predicate Records(advisories: seq<Advisory>, rules: Rules) {
    && (forall k :: 0 <= k < |advisories| ==> rules.validAdvisory(advisories[k]))
    && (forall a, b :: 0 <= a < b < |advisories| ==> advisories[a].id != advisories[b].id)
  }

  function RecordIds(advisories: seq<Advisory>): set<string> {
    set a | a in advisories :: a.id
  }

  /** The query is the module's own, complete, and lists known records once each. */
  predicate QueryFits(q: Query, m: Module, ids: set<string>) {
    && q.name == m.name && q.version == m.version && q.complete
    && |q.advisories| <= MAX_ADVISORIES && Distinct(q.advisories) && Elements(q.advisories) <= ids
  }

  predicate Shape(modules: seq<Module>, s: Snapshot) {
    |s.queries| == |modules| && 0 < |modules| <= MAX_MODULES && |s.advisories| <= MAX_ADVISORIES
  }

  /** The snapshot answers exactly this inventory: every query fits its module, every record is referred to. */
  predicate Coherent(identity: Identity, modules: seq<Module>, s: Snapshot, rules: Rules) {
    && s.schema == SCHEMA && s.provider == "OSV" && s.identity == identity && s.errors == []
    && Shape(modules, s) && Records(s.advisories, rules)
    && (forall i :: 0 <= i < |modules| ==> QueryFits(s.queries[i], modules[i], RecordIds(s.advisories)))
    && (forall id :: id in RecordIds(s.advisories) ==> Referenced(s.queries, id))
  }

  /** The query is the module's, complete, and lists ids of records without repetition. */
  ghost predicate Answers(q: Query, m: Module, advisories: seq<Advisory>) {
    && q.name == m.name && q.version == m.version && q.complete && |q.advisories| <= 256 && Distinct(q.advisories)
    && forall id :: id in q.advisories ==> exists a :: a in advisories && a.id == id
  }

  /** Coherence on the snapshot's own fields. */
  lemma CoherentIs(identity: Identity, modules: seq<Module>, s: Snapshot, rules: Rules)
    ensures Coherent(identity, modules, s, rules) <==>
              && s.schema == "flashgate-security-snapshot/v1" && s.provider == "OSV" && s.identity == identity
              && s.errors == [] && |s.queries| == |modules| && 1 <= |modules| <= 128 && |s.advisories| <= 256
              && (forall a :: a in s.advisories ==> rules.validAdvisory(a))
              && (forall j, k :: 0 <= j < k < |s.advisories| ==> s.advisories[j].id != s.advisories[k].id)
              && (forall i :: 0 <= i < |modules| ==> Answers(s.queries[i], modules[i], s.advisories))
              && forall a :: a in s.advisories ==> exists q :: q in s.queries && a.id in q.advisories
  {
    hide QueryFits, Answers, RecordIds;
    forall q: Query, m: Module ensures QueryFits(q, m, RecordIds(s.advisories)) <==> Answers(q, m, s.advisories) {
      AnswersIs(q, m, s.advisories);
    }
    AllReferenced(s.queries, s.advisories);
    assert forall k :: 0 <= k < |s.advisories| ==> s.advisories[k] in s.advisories;
  }

  lemma AnswersIs(q: Query, m: Module, advisories: seq<Advisory>)
    ensures QueryFits(q, m, RecordIds(advisories)) <==> Answers(q, m, advisories)
  {
    assert forall id :: id in RecordIds(advisories) <==> exists a :: a in advisories && a.id == id;
    assert forall id :: id in Elements(q.advisories) <==> id in q.advisories;
  }

  lemma AllReferenced(queries: seq<Query>, advisories: seq<Advisory>)
    ensures (forall id :: id in RecordIds(advisories) ==> Referenced(queries, id)) <==>
              forall a :: a in advisories ==> exists q :: q in queries && a.id in q.advisories
  {
    forall id ensures Referenced(queries, id) <==> exists q :: q in queries && id in q.advisories {
      if q :| q in queries && id in q.advisories {
        var i :| 0 <= i < |queries| && queries[i] == q;
      }
    }
    assert forall a :: a in advisories ==> a.id in RecordIds(advisories);
  }

  /** Whatever the provider answered, a capture without errors is coherent with the inventory it was made for. */
  lemma CapturedIsCoherent(rules: Rules, modules: seq<Module>, answers: nat -> Reply, log: seq<Exchange>, s: Snapshot)
    requires Captured(rules, modules, answers, log, s) && s.errors == [] && s.schema == SCHEMA && s.provider == "OSV"
    ensures Coherent(s.identity, modules, s, rules)
  {
    hide IsIntegrityCode, Exchanged, Visits, Chain, LogVetted;
    forall a, b | 0 <= a < b < |s.advisories| ensures s.advisories[a].id != s.advisories[b].id {
      LessIrreflexive(s.advisories[a].id);
    }
    forall id ensures id in RecordIds(s.advisories) <==> Referenced(s.queries, id) {
    }
    forall i | 0 <= i < |modules| ensures QueryFits(s.queries[i], modules[i], RecordIds(s.advisories)) {
      var q := s.queries[i];
      assert CapturedQuery(q, modules[i], Visits(log, i));
      SortedIsDistinct(q.advisories);
      forall id | id in q.advisories ensures id in RecordIds(s.advisories) {
        assert Referenced(s.queries, id);
      }
      DistinctCount(q.advisories);
      FewRecords(s.advisories);
      SubsetCount(Elements(q.advisories), RecordIds(s.advisories));
    }
  }

  lemma SortedIsDistinct(s: seq<string>)
    requires StrictlySorted(s)
    ensures Distinct(s)
  {
    forall i, j | 0 <= i < j < |s| ensures s[i] != s[j] {
      LessIrreflexive(s[i]);
    }
  }

  lemma {:induction false} FewRecords(advisories: seq<Advisory>)
    ensures |RecordIds(advisories)| <= |advisories|
  {
    if advisories != [] {
      var init, last := advisories[..|advisories| - 1], advisories[|advisories| - 1];
      FewRecords(init);
      assert advisories == init + [last];
      assert RecordIds(advisories) == RecordIds(init) + {last.id};
    }
  }

  // ---------------------------------------------------------------- the index of records

  ghost predicate Indexes(index: map<string, Advisory>, advisories: seq<Advisory>) {
    && index.Keys == RecordIds(advisories)
    && forall id :: id in index ==> index[id].id == id && index[id] in advisories
  }

  lemma IndexesMore(index: map<string, Advisory>, advisories: seq<Advisory>, a: Advisory)
    requires Indexes(index, advisories)
    ensures Indexes(index[a.id := a], advisories + [a])
  {
  }

  lemma RecordsSnoc(advisories: seq<Advisory>, a: Advisory, rules: Rules)
    ensures Records(advisories + [a], rules) <==>
              Records(advisories, rules) && rules.validAdvisory(a) && a.id !in RecordIds(advisories)
  {
    var all := advisories + [a];
    assert all[|advisories|] == a && forall k :: 0 <= k < |advisories| ==> all[k] == advisories[k];
    if Records(all, rules) {
      forall k | 0 <= k < |advisories| ensures advisories[k].id != a.id {
        assert all[k].id != all[|advisories|].id;
      }
    }
  }

  lemma RecordsPrefix(advisories: seq<Advisory>, m: nat, n: nat, rules: Rules)
    requires m <= n <= |advisories|
    ensures Records(advisories[..n], rules) ==> Records(advisories[..m], rules)
  {
    var longer, shorter := advisories[..n], advisories[..m];
    assert forall k :: 0 <= k < m ==> longer[k] == shorter[k];
  }

  /** A record that the index takes was modified after the capture. */
  ghost predicate LateRecord(advisories: seq<Advisory>, rules: Rules, clock: Clock, captured: int, n: nat)
    requires n <= |advisories|
  {
    exists k :: 0 <= k < n && Records(advisories[..k + 1], rules)
                && clock.nanos(advisories[k].modified).GetOr(clock.zero) > captured
  }

  method IndexAdvisories(advisories: seq<Advisory>, rules: Rules, clock: Clock, captured: int)
    returns (ok: bool, index: map<string, Advisory>, quality: seq<string>)
    ensures ok <==> Records(advisories, rules)
    ensures ok ==> Indexes(index, advisories)
    ensures Raised(quality) <==> !ok
    ensures forall c :: c in quality <==>
              || (c == "ADVISORY_INVALID" && !ok)
              || (c == "ADVISORY_TIME_CONFLICT" && LateRecord(advisories, rules, clock, captured, |advisories|))
  {
    hide Records, Indexes, Raised, Raise;
    index, quality := map[], [];
    NoneRaised();
    NothingIndexed(rules);
    var i := 0;
    while i < |advisories|
      invariant 0 <= i <= |advisories| && Records(advisories[..i], rules) && Indexes(index, advisories[..i])
      invariant !Raised(quality)
      invariant forall c :: c in quality <==>
                  c == "ADVISORY_TIME_CONFLICT" && LateRecord(advisories, rules, clock, captured, i)
    {
      var a := advisories[i];
      assert advisories[..i + 1] == advisories[..i] + [a];
      RecordsSnoc(advisories[..i], a, rules);
      IndexKeys(index, advisories[..i]);
      if a.id in index || !rules.validAdvisory(a) {
        forall n | i < n <= |advisories| ensures !Records(advisories[..n], rules) {
          RecordsPrefix(advisories, i + 1, n, rules);
        }
        assert advisories[..|advisories|] == advisories;
        quality := Raise(quality, "ADVISORY_INVALID");
        return false, index, quality;
      }
      if clock.nanos(a.modified).GetOr(clock.zero) > captured {
        quality := Raise(quality, "ADVISORY_TIME_CONFLICT");
      }
      IndexesMore(index, advisories[..i], a);
      index := index[a.id := a];
      i := i + 1;
    }
    assert advisories[..i] == advisories;
    return true, index, quality;
  }

  lemma NothingIndexed(rules: Rules)
    ensures Records([], rules) && Indexes(map[], [])
  {
  }

  lemma IndexKeys(index: map<string, Advisory>, advisories: seq<Advisory>)
    requires Indexes(index, advisories)
    ensures index.Keys == RecordIds(advisories)
  {
  }

  // ---------------------------------------------------------------- one module

  /** The finding one record yields for a module. */
  ghost function FindingFor(a: Advisory, m: Module): Finding {
    var e := EvidenceOf(a, m);
    Finding(m, a.id, [a.id], a.aliases, e.severity, Priority(e.severity), e.status, e.fixes,
            if a.withdrawn != "" then "WITHDRAWN_REVIEW_REQUIRED" else "TRIAGE_REQUIRED",
            if e.fixes == [] then NO_FIX else REVIEW_UPGRADE)
  }

  /** What a finding tells of its record, read off the record. */
  lemma FindingIs(a: Advisory, m: Module)
    ensures var f := FindingFor(a, m);
            && f.mod == m && f.advisory == a.id && f.records == [a.id] && f.aliases == a.aliases
            && f.affected == (if Contradicts(a, m, m.version) then "AFFECTED" else "UNKNOWN")
            && f.disposition == (if a.withdrawn == "" then "TRIAGE_REQUIRED" else "WITHDRAWN_REVIEW_REQUIRED")
            && Advises(f) && f.priority == Priority(f.severity)
            && Gravity(f.severity) >= Gravity(a.severity)
  {
    hide Contradicts, EntrySeverity, EntryFixes, Union, SomeMatch, SomeInvalid, SomeConclusive, SomeMissing, Priority;
    EvidenceIsRead(a, m);
    GravestSeverity(a.severity, a.affected, m);
  }

  /** The advice goes with the fixes: an upgrade to review when one is reported, and none without. */
  predicate Advises(f: Finding) {
    f.remediation == if f.fixVersions == [] then "NO_CONFIRMED_FIX_REVIEW_MITIGATION" else "REVIEW_UPGRADE_OR_DOCUMENT_EXCEPTION"
  }

  method MakeFinding(a: Advisory, m: Module) returns (f: Finding)
    ensures f == FindingFor(a, m)
  {
    hide EvidenceOf, Priority;
    var e := SecurityVersionEvidence(a, m);
    f := Finding(m, a.id, [a.id], a.aliases, e.severity, Priority(e.severity), e.status, e.fixes, "TRIAGE_REQUIRED",
                 REVIEW_UPGRADE);
    if |e.fixes| == 0 {
      f := f.(remediation := NO_FIX);
    }
    if a.withdrawn != "" {
      f := f.(disposition := "WITHDRAWN_REVIEW_REQUIRED");
    }
  }

  /** The findings are the ones of these distinct ids, in whatever order. */
  ghost predicate FindingsOf(input: seq<Finding>, m: Module, index: map<string, Advisory>, ids: set<string>) {
    && ids <= index.Keys
    && (forall k :: 0 <= k < |input| ==> input[k].advisory in ids && input[k] == FindingFor(index[input[k].advisory], m))
    && (forall id :: id in ids ==> exists k :: 0 <= k < |input| && input[k].advisory == id)
    && (forall a, b :: 0 <= a < b < |input| ==> input[a].advisory != input[b].advisory)
  }

  lemma FindingsMore(input: seq<Finding>, m: Module, index: map<string, Advisory>, ids: set<string>, id: string,
                     f: Finding)
    requires FindingsOf(input, m, index, ids) && id in index && id !in ids && index[id].id == id
    requires f == FindingFor(index[id], m)
    ensures FindingsOf(input + [f], m, index, ids + {id})
  {
    hide EvidenceOf, Priority;
    var all := input + [f];
    assert all[|input|] == f && f.advisory == id;
    forall other | other in ids + {id} ensures exists k :: 0 <= k < |all| && all[k].advisory == other {
      if other != id {
        var k :| 0 <= k < |input| && input[k].advisory == other;
        assert all[k].advisory == other;
      }
    }
  }

  function AdvisoryKey(f: Finding): string {
    f.advisory
  }

  /** Sorting by advisory id keeps the findings. */
  lemma FindingsSorted(input: seq<Finding>, m: Module, index: map<string, Advisory>, ids: set<string>)
    requires FindingsOf(input, m, index, ids)
    ensures FindingsOf(Sorting.SortBy(AdvisoryKey, input), m, index, ids)
  {
    hide FindingFor;
    var sorted := Sorting.SortBy(AdvisoryKey, input);
    Sorting.SortAscends(AdvisoryKey, input);
    Sorting.AscendingDistinct(AdvisoryKey, sorted);
    forall k | 0 <= k < |sorted| ensures sorted[k].advisory in ids && sorted[k] == FindingFor(index[sorted[k].advisory], m) {
      assert sorted[k] in input;
    }
    forall id | id in ids ensures exists k :: 0 <= k < |sorted| && sorted[k].advisory == id {
      var k :| 0 <= k < |input| && input[k].advisory == id;
      assert input[k] in sorted;
    }
    forall a, b | 0 <= a < b < |sorted| ensures sorted[a].advisory != sorted[b].advisory {
      assert AdvisoryKey(sorted[a]) != AdvisoryKey(sorted[b]);
    }
  }

  lemma FindingsInitial(input: seq<Finding>, m: Module, index: map<string, Advisory>, ids: set<string>)
    requires FindingsOf(input, m, index, ids) && forall id :: id in index ==> index[id].id == id
    ensures Initial(input, m)
  {
  }

  /** What the assessment of one module contributes: what went into consolidation and what came out. */
  datatype Block = Block(mod: Module, input: seq<Finding>, parts: seq<seq<nat>>, result: seq<Finding>, codes: seq<string>)

  ghost predicate BlockSound(b: Block, index: map<string, Advisory>) {
    Initial(b.input, b.mod) && Outcome(b.input, index, b.parts, b.result, b.codes)
  }

  /** The records of one query: duplicates and unknown ids are reported and skipped. */
  method CollectFindings(q: Query, m: Module, index: map<string, Advisory>, used: set<string>)
    returns (input: seq<Finding>, quality: seq<string>, used': set<string>)
    requires forall id :: id in index ==> index[id].id == id
    ensures FindingsOf(input, m, index, Elements(q.advisories) * index.Keys)
    ensures used' == used + Elements(q.advisories) * index.Keys
    ensures Raised(quality) <==> !Fits(q.advisories, index.Keys)
    ensures forall c :: c in quality <==>
              || (c == "QUERY_DETAIL_MISSING_OR_DUPLICATE" && !Fits(q.advisories, index.Keys))
              || (c == "ADVISORY_MODULE_VERSION_UNCONFIRMED"
                  && Unconfirmed(m, index, Elements(q.advisories) * index.Keys))
  {
    hide FindingsOf, FindingFor, Raised, Raise, IsIntegrityCode, Distinct, Elements, Unconfirmed;
    var seen: set<string> := {};
    input, quality, used' := [], [], used;
    NoneRaised();
    NoFindings(m, index);
    FitsEmpty(index.Keys);
    NoneUnconfirmed(m, index);
    var i := 0;
    while i < |q.advisories|
      invariant 0 <= i <= |q.advisories| && seen == Elements(q.advisories[..i]) * index.Keys
      invariant FindingsOf(input, m, index, seen) && used' == used + seen
      invariant Raised(quality) <==> !Fits(q.advisories[..i], index.Keys)
      invariant forall c :: c in quality <==>
                  || (c == "QUERY_DETAIL_MISSING_OR_DUPLICATE" && !Fits(q.advisories[..i], index.Keys))
                  || (c == "ADVISORY_MODULE_VERSION_UNCONFIRMED" && Unconfirmed(m, index, seen))
    {
      var id := q.advisories[i];
      assert q.advisories[..i + 1] == q.advisories[..i] + [id];
      FitsSnoc(q.advisories[..i], index.Keys, id);
      if id !in index || id in seen {
        quality := Raise(quality, "QUERY_DETAIL_MISSING_OR_DUPLICATE");
        DetailCode();
      } else {
        used' := used' + {id};
        var a := index[id];
        var f := MakeFinding(a, m);
        if f.affected != "AFFECTED" {
          quality := Raise(quality, "ADVISORY_MODULE_VERSION_UNCONFIRMED");
          UnconfirmedCode();
        }
        FindingsMore(input, m, index, seen, id, f);
        UnconfirmedMore(m, index, seen, id, f);
        seen := seen + {id};
        input := input + [f];
      }
      i := i + 1;
    }
    assert q.advisories[..i] == q.advisories;
  }

  /** The evidence of one of these records does not confirm that the module's version is affected. */
  ghost predicate Unconfirmed(m: Module, index: map<string, Advisory>, ids: set<string>) {
    exists id :: id in ids && id in index && EvidenceOf(index[id], m).status != "AFFECTED"
  }

  lemma NoneUnconfirmed(m: Module, index: map<string, Advisory>)
    ensures !Unconfirmed(m, index, {})
  {
  }

  lemma UnconfirmedMore(m: Module, index: map<string, Advisory>, ids: set<string>, id: string, f: Finding)
    requires id in index && f == FindingFor(index[id], m)
    ensures Unconfirmed(m, index, ids + {id}) <==> Unconfirmed(m, index, ids) || f.affected != "AFFECTED"
  {
    hide EvidenceOf, Priority;
    if f.affected != "AFFECTED" {
      assert id in ids + {id};
    }
  }

  predicate Fits(ids: seq<string>, known: set<string>) {
    Distinct(ids) && Elements(ids) <= known
  }

  lemma FitsEmpty(known: set<string>)
    ensures Fits([], known) && Elements<string>([]) == {}
  {
  }

  lemma FitsSnoc(ids: seq<string>, known: set<string>, id: string)
    ensures Elements(ids + [id]) == Elements(ids) + {id}
    ensures Fits(ids + [id], known) <==> Fits(ids, known) && id in known && id !in Elements(ids)
  {
    var all := ids + [id];
    assert all[|ids|] == id && forall k :: 0 <= k < |ids| ==> all[k] == ids[k];
    assert forall x :: x in all <==> x in ids || x == id;
    if Distinct(all) {
      forall k | 0 <= k < |ids| ensures ids[k] != id {
        assert all[k] != all[|ids|];
      }
    }
    assert Elements(all) == Elements(ids) + {id};
  }

  lemma DetailCode()
    ensures IsIntegrityCode("QUERY_DETAIL_MISSING_OR_DUPLICATE")
  {
  }

  lemma UnconfirmedCode()
    ensures !IsIntegrityCode("ADVISORY_MODULE_VERSION_UNCONFIRMED")
  {
  }

  lemma NoFindings(m: Module, index: map<string, Advisory>)
    ensures FindingsOf([], m, index, {})
  {
  }

  /** The query is assessed: it is the module's own and not too long. */
  predicate Assesses(q: Query, m: Module) {
    q.name == m.name && q.version == m.version && |q.advisories| <= MAX_ADVISORIES
  }

  /** What an assessed query contributes: one consolidation of the findings of its known records. */
  ghost predicate TurnFits(q: Query, m: Module, index: map<string, Advisory>, turn: Option<Block>) {
    && (turn.Some? <==> Assesses(q, m))
    && (turn.Some? ==> turn.value.mod == m && BlockSound(turn.value, index)
                       && FindingsOf(turn.value.input, m, index, Elements(q.advisories) * index.Keys))
  }

  /** Why the turn of one module emits the code. */
  ghost predicate TurnCause(q: Query, m: Module, index: map<string, Advisory>, turn: Option<Block>, c: string) {
    var own := q.name == m.name && q.version == m.version;
    || (c == "INVENTORY_CLASSIFICATION_UNKNOWN" && (m.dependency == "UNKNOWN" || m.exposure == "UNKNOWN"))
    || (c == "QUERY_IDENTITY_MISMATCH" && !own)
    || (c == "QUERY_INCOMPLETE" && own && !q.complete)
    || (c == "QUERY_ADVISORY_LIMIT" && own && |q.advisories| > MAX_ADVISORIES)
    || (turn.Some?
        && (|| (c == "QUERY_DETAIL_MISSING_OR_DUPLICATE" && !Fits(q.advisories, index.Keys))
            || (c == "ADVISORY_MODULE_VERSION_UNCONFIRMED"
                && Unconfirmed(m, index, Elements(q.advisories) * index.Keys))
            || c in turn.value.codes))
  }

  function ResultOf(turn: Option<Block>): seq<Finding> {
    if turn.Some? then turn.value.result else []
  }

  /** One turn of the loop over the modules. */
  method AssessQuery(q: Query, m: Module, index: map<string, Advisory>, used: set<string>)
    returns (quality: seq<string>, used': set<string>, ghost turn: Option<Block>, findings: seq<Finding>)
    requires (forall id :: id in index ==> index[id].id == id) && used <= index.Keys
    ensures Raised(quality) <==> !QueryFits(q, m, index.Keys)
    ensures forall c :: c in quality <==> TurnCause(q, m, index, turn, c)
    ensures used' == used + (if Assesses(q, m) then Elements(q.advisories) * index.Keys else {})
    ensures TurnFits(q, m, index, turn) && findings == ResultOf(turn)
  {
    hide FindingsOf, Outcome, Raised, Raise, IsIntegrityCode, ReviewCodes, Distinct, Elements, Unconfirmed;
    quality, used', turn, findings := [], used, None, [];
    NoneRaised();
    ModuleCodes();
    if m.dependency == "UNKNOWN" || m.exposure == "UNKNOWN" {
      quality := Raise(quality, "INVENTORY_CLASSIFICATION_UNKNOWN");
    }
    if q.name != m.name || q.version != m.version {
      quality := Raise(quality, "QUERY_IDENTITY_MISMATCH");
      return;
    }
    if !q.complete {
      quality := Raise(quality, "QUERY_INCOMPLETE");
    }
    if |q.advisories| > MAX_ADVISORIES {
      quality := Raise(quality, "QUERY_ADVISORY_LIMIT");
      return;
    }
    var input, more;
    input, more, used' := CollectFindings(q, m, index, used);
    RaisedThen(quality, more);
    quality := quality + more;
    var codes;
    input, findings, codes, turn := Consolidated(q, m, index, input);
    ReviewDoesNotRaise(codes);
    RaisedThen(quality, codes);
    quality := quality + codes;
  }

  /** The tail of a turn: the findings in the order of their ids, consolidated. */
  method Consolidated(q: Query, m: Module, index: map<string, Advisory>, current: seq<Finding>)
    returns (input: seq<Finding>, result: seq<Finding>, codes: seq<string>, ghost turn: Option<Block>)
    requires (forall id :: id in index ==> index[id].id == id) && Assesses(q, m)
    requires FindingsOf(current, m, index, Elements(q.advisories) * index.Keys)
    ensures TurnFits(q, m, index, turn) && turn.Some? && turn.value.result == result && turn.value.codes == codes
    ensures ReviewCodes(codes)
  {
    hide FindingsOf, Outcome, ReviewCodes, Elements;
    ghost var ids := Elements(q.advisories) * index.Keys;
    FindingsSorted(current, m, index, ids);
    input := Sorting.SortBy(AdvisoryKey, current);
    FindingsInitial(input, m, index, ids);
    ghost var parts;
    result, codes, parts := SecurityConsolidateAliases(input, index);
    OutcomeIsReview(input, index, parts, result, codes);
    turn := Some(Block(m, input, parts, result, codes));
  }

  lemma ModuleCodes()
    ensures !IsIntegrityCode("INVENTORY_CLASSIFICATION_UNKNOWN") && IsIntegrityCode("QUERY_IDENTITY_MISMATCH")
    ensures IsIntegrityCode("QUERY_INCOMPLETE") && IsIntegrityCode("QUERY_ADVISORY_LIMIT")
  {
  }

  function Flat(turns: seq<Option<Block>>): seq<Finding> {
    if turns == [] then [] else Flat(turns[..|turns| - 1]) + ResultOf(turns[|turns| - 1])
  }

  // ---------------------------------------------------------------- the whole assessment

  ghost predicate QueriesFit(queries: seq<Query>, modules: seq<Module>, n: nat, ids: set<string>)
    requires n <= |queries| && n <= |modules|
  {
    forall i :: 0 <= i < n ==> QueryFits(queries[i], modules[i], ids)
  }

  function MentionedBy(queries: seq<Query>, n: nat): set<string>
    requires n <= |queries|
  {
    set i, id | 0 <= i < n && id in queries[i].advisories :: id
  }

  /** The known records that the assessed queries among the first n refer to. */
  function UsedBy(queries: seq<Query>, modules: seq<Module>, known: set<string>, n: nat): set<string>
    requires n <= |queries| && n <= |modules|
  {
    set i, id | 0 <= i < n && Assesses(queries[i], modules[i]) && id in queries[i].advisories && id in known :: id
  }

  lemma UsedNext(queries: seq<Query>, modules: seq<Module>, known: set<string>, n: nat)
    requires n < |queries| && n < |modules|
    ensures UsedBy(queries, modules, known, n + 1)
            == UsedBy(queries, modules, known, n)
               + (if Assesses(queries[n], modules[n]) then Elements(queries[n].advisories) * known else {})
  {
    hide Assesses;
  }

  ghost predicate TurnsFit(queries: seq<Query>, modules: seq<Module>, index: map<string, Advisory>,
                           turns: seq<Option<Block>>)
  {
    && |turns| <= |queries| && |turns| <= |modules|
    && forall i :: 0 <= i < |turns| ==> TurnFits(queries[i], modules[i], index, turns[i])
  }

  ghost predicate SomeTurn(queries: seq<Query>, modules: seq<Module>, index: map<string, Advisory>,
                           turns: seq<Option<Block>>, c: string)
    requires |turns| <= |queries| && |turns| <= |modules|
  {
    exists i :: 0 <= i < |turns| && TurnCause(queries[i], modules[i], index, turns[i], c)
  }

  lemma TurnsMore(queries: seq<Query>, modules: seq<Module>, index: map<string, Advisory>, turns: seq<Option<Block>>,
                  turn: Option<Block>)
    requires TurnsFit(queries, modules, index, turns) && |turns| < |queries| == |modules|
    requires TurnFits(queries[|turns|], modules[|turns|], index, turn)
    ensures TurnsFit(queries, modules, index, turns + [turn]) && Flat(turns + [turn]) == Flat(turns) + ResultOf(turn)
    ensures forall c :: SomeTurn(queries, modules, index, turns + [turn], c)
                        <==> SomeTurn(queries, modules, index, turns, c)
                             || TurnCause(queries[|turns|], modules[|turns|], index, turn, c)
  {
    hide TurnsFit, TurnFits, TurnCause, SomeTurn, ResultOf, Flat;
    MoreFit(queries, modules, index, turns, turn);
    FlatMore(turns, turn);
    forall c ensures SomeTurn(queries, modules, index, turns + [turn], c)
                     <==> SomeTurn(queries, modules, index, turns, c)
                          || TurnCause(queries[|turns|], modules[|turns|], index, turn, c)
    {
      OneMoreTurn(queries, modules, index, turns, turn, c);
    }
  }

  lemma MoreFit(queries: seq<Query>, modules: seq<Module>, index: map<string, Advisory>, turns: seq<Option<Block>>,
                turn: Option<Block>)
    requires TurnsFit(queries, modules, index, turns) && |turns| < |queries| == |modules|
    requires TurnFits(queries[|turns|], modules[|turns|], index, turn)
    ensures TurnsFit(queries, modules, index, turns + [turn])
  {
    hide TurnFits;
    var all := turns + [turn];
    forall i | 0 <= i < |all| ensures TurnFits(queries[i], modules[i], index, all[i]) {
      if i < |turns| {
        assert all[i] == turns[i];
      }
    }
  }

  lemma FlatMore(turns: seq<Option<Block>>, turn: Option<Block>)
    ensures Flat(turns + [turn]) == Flat(turns) + ResultOf(turn)
  {
    hide ResultOf;
    var all := turns + [turn];
    assert all[..|turns|] == turns && all[|turns|] == turn;
  }

  lemma OneMoreTurn(queries: seq<Query>, modules: seq<Module>, index: map<string, Advisory>, turns: seq<Option<Block>>,
                    turn: Option<Block>, c: string)
    requires |turns| < |queries| == |modules|
    ensures SomeTurn(queries, modules, index, turns + [turn], c)
            <==> SomeTurn(queries, modules, index, turns, c) || TurnCause(queries[|turns|], modules[|turns|], index, turn, c)
  {
    hide TurnCause;
    var all := turns + [turn];
    if i :| 0 <= i < |turns| && TurnCause(queries[i], modules[i], index, turns[i], c) {
      assert all[i] == turns[i];
    }
    assert all[|turns|] == turn;
  }

  /** The loop over the modules. */
  method AssessModules(queries: seq<Query>, modules: seq<Module>, index: map<string, Advisory>)
    returns (quality: seq<string>, used: set<string>, ghost turns: seq<Option<Block>>, findings: seq<Finding>)
    requires |queries| == |modules| && forall id :: id in index ==> index[id].id == id
    ensures Raised(quality) <==> !QueriesFit(queries, modules, |modules|, index.Keys)
    ensures |turns| == |modules| && TurnsFit(queries, modules, index, turns) && findings == Flat(turns)
    ensures forall c :: c in quality <==> SomeTurn(queries, modules, index, turns, c)
    ensures used == UsedBy(queries, modules, index.Keys, |modules|)
  {
    hide Raised, QueryFits, TurnFits, TurnsFit, SomeTurn, TurnCause, ResultOf, Elements, Flat, UsedBy, Assesses;
    quality, used, turns, findings := [], {}, [], [];
    NoneRaised();
    NoTurns(queries, modules, index);
    var i := 0;
    while i < |modules|
      invariant 0 <= i <= |modules| && |turns| == i
      invariant Raised(quality) <==> !QueriesFit(queries, modules, i, index.Keys)
      invariant TurnsFit(queries, modules, index, turns) && findings == Flat(turns)
      invariant forall c :: c in quality <==> SomeTurn(queries, modules, index, turns, c)
      invariant used == UsedBy(queries, modules, index.Keys, i) && used <= index.Keys
    {
      ghost var turn;
      var codes, more;
      codes, used, turn, more := AssessQuery(queries[i], modules[i], index, used);
      RaisedThen(quality, codes);
      TurnsMore(queries, modules, index, turns, turn);
      UsedNext(queries, modules, index.Keys, i);
      quality, turns, findings := quality + codes, turns + [turn], findings + more;
      i := i + 1;
    }
  }

  lemma NoTurns(queries: seq<Query>, modules: seq<Module>, index: map<string, Advisory>)
    requires |queries| == |modules|
    ensures TurnsFit(queries, modules, index, []) && Flat([]) == [] && UsedBy(queries, modules, index.Keys, 0) == {}
    ensures forall c :: !SomeTurn(queries, modules, index, [], c)
  {
  }

  /** The snapshot says it is of this provider and for this inventory. */
  predicate Names(identity: Identity, s: Snapshot) {
    s.schema == SCHEMA && s.provider == "OSV" && s.identity == identity
  }

  /** Why the assessment emits the code. */
  ghost predicate AssessmentCause(identity: Identity, modules: seq<Module>, s: Snapshot, rules: Rules, clock: Clock,
                                  index: map<string, Advisory>, turns: seq<Option<Block>>, c: string)
  {
    var captured := clock.seconds(s.capturedAt);
    if !Names(identity, s) then c == "SNAPSHOT_IDENTITY_MISMATCH"
    else
      || (c == "SNAPSHOT_TIME_INVALID" && (captured.None? || captured.value > clock.now))
      || (c == "SNAPSHOT_STALE" && captured.Some? && clock.now - captured.value > DAY)
      || (c == "PROVIDER_INCOMPLETE" && s.errors != [])
      || (c == "SNAPSHOT_SHAPE_INVALID" && !Shape(modules, s))
      || (Shape(modules, s)
          && (|| (c == "ADVISORY_INVALID" && !Records(s.advisories, rules))
              || (c == "ADVISORY_TIME_CONFLICT"
                  && LateRecord(s.advisories, rules, clock, captured.GetOr(clock.zero), |s.advisories|))
              || (Records(s.advisories, rules) && |turns| == |modules|
                  && (|| SomeTurn(s.queries, modules, index, turns, c)
                      || (c == "UNQUERIED_ADVISORY_DETAIL"
                          && RecordIds(s.advisories) != UsedBy(s.queries, modules, index.Keys, |modules|))))))
  }

  /**
   assessSecurity up to triage. It raises an integrity code exactly when the snapshot is not coherent with the
   inventory, and every finding comes out of a consolidation of one module's own records.
   */
  method AssessSecurity(identity: Identity, modules: seq<Module>, s: Snapshot, rules: Rules, clock: Clock)
    returns (findings: seq<Finding>, quality: seq<string>, freshness: string, ghost index: map<string, Advisory>,
             ghost turns: seq<Option<Block>>)
    ensures Raised(quality) <==> !Coherent(identity, modules, s, rules)
    ensures forall c :: c in quality <==> AssessmentCause(identity, modules, s, rules, clock, index, turns, c)
    ensures findings == Flat(turns)
    ensures if Names(identity, s) && Shape(modules, s) && Records(s.advisories, rules)
            then Indexes(index, s.advisories) && |turns| == |modules| && TurnsFit(s.queries, modules, index, turns)
            else turns == []
    ensures freshness == if !Names(identity, s) || clock.seconds(s.capturedAt).None?
                            || clock.seconds(s.capturedAt).value > clock.now then "UNKNOWN"
                         else if clock.now - clock.seconds(s.capturedAt).value > 24 * 60 * 60 * 1000000000 then "STALE"
                         else "FRESH"
  {
    hide Raised, Raise, IsIntegrityCode, Records, Indexes, QueryFits, TurnsFit, SomeTurn, LateRecord, UsedBy;
    findings, quality, freshness, index, turns := [], [], "UNKNOWN", map[], [];
    NoneRaised();
    SnapshotCodes();
    if s.schema != SCHEMA || s.provider != "OSV" || s.identity != identity {
      quality := Raise(quality, "SNAPSHOT_IDENTITY_MISMATCH");
      return;
    }
    var captured := clock.seconds(s.capturedAt);
    if captured.None? || captured.value > clock.now {
      quality := Raise(quality, "SNAPSHOT_TIME_INVALID");
    } else if clock.now - captured.value > DAY {
      freshness := "STALE";
      quality := Raise(quality, "SNAPSHOT_STALE");
    } else {
      freshness := "FRESH";
    }
    if |s.errors| > 0 {
      quality := Raise(quality, "PROVIDER_INCOMPLETE");
    }
    if !Shape(modules, s) {
      quality := Raise(quality, "SNAPSHOT_SHAPE_INVALID");
      return;
    }
    var more;
    findings, more, index, turns := AssessRecords(modules, s, rules, clock, captured.GetOr(clock.zero));
    RaisedThen(quality, more);
    quality := quality + more;
  }

  /** The rest of the assessment, once the snapshot has the right shape. */
  method AssessRecords(modules: seq<Module>, s: Snapshot, rules: Rules, clock: Clock, captured: int)
    returns (findings: seq<Finding>, quality: seq<string>, ghost index: map<string, Advisory>,
             ghost turns: seq<Option<Block>>)
    requires Shape(modules, s)
    ensures Raised(quality) <==>
              !(&& Records(s.advisories, rules)
                && (forall i :: 0 <= i < |modules| ==> QueryFits(s.queries[i], modules[i], RecordIds(s.advisories)))
                && (forall id :: id in RecordIds(s.advisories) ==> Referenced(s.queries, id)))
    ensures findings == Flat(turns)
    ensures if Records(s.advisories, rules)
            then Indexes(index, s.advisories) && |turns| == |modules| && TurnsFit(s.queries, modules, index, turns)
            else turns == []
    ensures forall c :: c in quality <==>
              || (c == "ADVISORY_INVALID" && !Records(s.advisories, rules))
              || (c == "ADVISORY_TIME_CONFLICT" && LateRecord(s.advisories, rules, clock, captured, |s.advisories|))
              || (Records(s.advisories, rules) && |turns| == |modules|
                  && (|| SomeTurn(s.queries, modules, index, turns, c)
                      || (c == "UNQUERIED_ADVISORY_DETAIL"
                          && RecordIds(s.advisories) != UsedBy(s.queries, modules, index.Keys, |modules|))))
  {
    hide Raised, Raise, IsIntegrityCode, Records, Indexes, QueryFits, TurnsFit, SomeTurn, LateRecord, UsedBy, Flat;
    findings, index, turns := [], map[], [];
    NoTurns([], [], map[]);
    SnapshotCodes();
    var ok, known;
    ok, known, quality := IndexAdvisories(s.advisories, rules, clock, captured);
    if !ok {
      return;
    }
    index := known;
    IndexKeys(index, s.advisories);
    IndexedIds(index, s.advisories);
    var more, used;
    more, used, turns, findings := AssessModules(s.queries, modules, known);
    RaisedThen(quality, more);
    quality := quality + more;
    QueriesUse(s.queries, modules, known.Keys);
    AllMentioned(s.queries, used, known.Keys);
    if |used| != |known.Keys| {
      quality := Raise(quality, "UNQUERIED_ADVISORY_DETAIL");
    } else {
      UsedIsKnown(s.queries, modules, known.Keys);
      SubsetOfSameSize(used, known.Keys);
    }
  }

  lemma UsedIsKnown(queries: seq<Query>, modules: seq<Module>, known: set<string>)
    requires |queries| == |modules|
    ensures UsedBy(queries, modules, known, |modules|) <= known
  {
  }

  /** When every query fits, the used records are the ones referred to. */
  lemma QueriesUse(queries: seq<Query>, modules: seq<Module>, known: set<string>)
    requires |queries| == |modules|
    ensures UsedBy(queries, modules, known, |modules|) <= known
    ensures QueriesFit(queries, modules, |modules|, known) ==>
              UsedBy(queries, modules, known, |modules|) == MentionedBy(queries, |queries|)
  {
    if QueriesFit(queries, modules, |modules|, known) {
      var used := UsedBy(queries, modules, known, |modules|);
      forall id | id in MentionedBy(queries, |queries|) ensures id in used {
        var i :| 0 <= i < |queries| && id in queries[i].advisories;
        assert QueryFits(queries[i], modules[i], known) && id in Elements(queries[i].advisories);
        assert Assesses(queries[i], modules[i]) && id in known;
      }
    }
  }

  /** Counting the used records tells whether any record is referred to by no query. */
  lemma AllMentioned(queries: seq<Query>, used: set<string>, ids: set<string>)
    requires used <= ids
    ensures used == MentionedBy(queries, |queries|) ==>
              (|used| == |ids| <==> forall id :: id in ids ==> Referenced(queries, id))
  {
    MentionedAre(queries);
    if |used| == |ids| {
      SubsetOfSameSize(used, ids);
    }
    if used == MentionedBy(queries, |queries|) && (forall id :: id in ids ==> Referenced(queries, id)) {
      assert used == ids;
    }
  }

  lemma SnapshotCodes()
    ensures IsIntegrityCode("SNAPSHOT_IDENTITY_MISMATCH") && IsIntegrityCode("PROVIDER_INCOMPLETE")
    ensures IsIntegrityCode("SNAPSHOT_SHAPE_INVALID") && IsIntegrityCode("UNQUERIED_ADVISORY_DETAIL")
    ensures !IsIntegrityCode("SNAPSHOT_TIME_INVALID") && !IsIntegrityCode("SNAPSHOT_STALE")
  {
  }

  lemma IndexedIds(index: map<string, Advisory>, advisories: seq<Advisory>)
    requires Indexes(index, advisories)
    ensures forall id :: id in index ==> index[id].id == id
  {
  }

  lemma MentionedAre(queries: seq<Query>)
    ensures forall id :: id in MentionedBy(queries, |queries|) <==> Referenced(queries, id)
  {
  }

  // ---------------------------------------------------------------- end to end

  /** Every fix reported for any finding is confirmed by every record the finding carries. */
  lemma {:induction false} AssessedFixesConfirmed(queries: seq<Query>, modules: seq<Module>,
                                                  index: map<string, Advisory>, turns: seq<Option<Block>>, f: Finding,
                                                  id: string, fix: string)
    requires TurnsFit(queries, modules, index, turns) && f in Flat(turns)
    requires id in f.records && fix in f.fixVersions
    ensures id in index && f.priority == Priority(f.severity)
    ensures forall e :: e in index[id].affected && e.package == Package(f.mod.name, "Go") ==>
              !EntryMatches(e, fix) && !EntryInvalid(e, fix)
    ensures exists e :: e in index[id].affected && e.package == Package(f.mod.name, "Go") && EntryConclusive(e, fix)
  {
    hide Outcome, Confirms, Priority, FindingsOf, EntryMatches, EntryInvalid, EntryConclusive;
    var n := |turns| - 1;
    if f in ResultOf(turns[n]) {
      var last := turns[n].value;
      var k :| 0 <= k < |last.result| && last.result[k] == f;
      ReportedFixesConfirmed(last.input, last.mod, index, last.parts, last.result, last.codes, k, id, fix);
      ReportedSeverity(last.input, last.mod, index, last.parts, last.result, last.codes, k);
    } else {
      AssessedFixesConfirmed(queries, modules, index, turns[..n], f, id, fix);
    }
  }

  /** The advice given with a reported finding goes with the fixes that are left. */
  lemma {:induction false} AssessedAdvice(queries: seq<Query>, modules: seq<Module>, index: map<string, Advisory>,
                                          turns: seq<Option<Block>>, f: Finding)
    requires TurnsFit(queries, modules, index, turns) && f in Flat(turns)
    ensures Advises(f)
  {
    hide Outcome, FindingFor, Advises;
    var n := |turns| - 1;
    if f in ResultOf(turns[n]) {
      var last := turns[n].value;
      assert TurnFits(queries[n], modules[n], index, turns[n]);
      var k :| 0 <= k < |last.result| && last.result[k] == f;
      forall i | 0 <= i < |last.input| ensures Advises(last.input[i]) {
        FindingIs(index[last.input[i].advisory], modules[n]);
      }
      AdviceStays(last.input, index, last.parts, last.result, last.codes, k);
    } else {
      AssessedAdvice(queries, modules, index, turns[..n], f);
    }
  }

  lemma AdviceStays(input: seq<Finding>, index: map<string, Advisory>, parts: seq<seq<nat>>, result: seq<Finding>,
                    codes: seq<string>, k: nat)
    requires Outcome(input, index, parts, result, codes) && k < |result|
    requires forall i :: 0 <= i < |input| ==> Advises(input[i])
    ensures Advises(result[k])
  {
    hide Outcome, Confirms, Unanimous, Carries, Highest;
    PartOutcome(input, index, parts, result, codes, k);
    var fs, part := AllValidated(input, index), parts[k];
    assert Produced(fs, index, part, result[k]);
    var first := part[0];
    AdviceValidated(input[first], Lookup(index, input[first].advisory));
    if result[k] != fs[first] {
      MergeCarries(fs, part, |part|);
      AdviceMerged(fs, part);
    }
  }

  lemma AdviceValidated(f: Finding, a: Advisory)
    requires Advises(f)
    ensures Advises(Validated(f, a))
  {
    hide Confirms, Union;
    ValidatedFixesConfirmed(f, a);
    var v := Validated(f, a);
    if v.fixVersions != [] {
      assert v.fixVersions[0] in v.fixVersions;
    }
  }

  lemma AdviceMerged(fs: seq<Finding>, part: seq<nat>)
    requires part != [] && (forall k :: 0 <= k < |part| ==> part[k] < |fs|) && Advises(fs[part[0]])
    requires Carries(fs, part, |part|, MergeFirst(fs, part, |part|))
    requires MergeFirst(fs, part, |part|).remediation == fs[part[0]].remediation
    ensures Advises(Merged(fs, part))
  {
    hide MergeFirst;
    var m := MergeFirst(fs, part, |part|);
    if fs[part[0]].fixVersions != [] {
      assert fs[part[0]].fixVersions[0] in m.fixVersions;
    }
  }
}
