/** Paged capture of advisories for an inventory: one query per module, up to 16 modules and 16 pages a batch. */
module Capture {
  import opened Text
  import opened Evidence
  import Sorting

  const MAX_ADVISORIES := 256
  const MAX_MODULES := 128
  const MAX_PAGES := 16
  const BATCH := 16
  const MAX_TOKEN := 2048

  datatype Identity = Identity(version: string, commit: string, manifest: string, index: string, sbom: string, goMod: string)

  datatype Query = Query(name: string, version: string, complete: bool, advisories: seq<string>)

  datatype Snapshot = Snapshot(schema: string, provider: string, capturedAt: string, identity: Identity,
                               queries: seq<Query>, advisories: seq<Advisory>, errors: seq<string>)

  const SCHEMA := "flashgate-security-snapshot/v1"

  datatype Hit = Hit(id: string, modified: string)

  datatype Page = Page(hits: seq<Hit>, next: string)

  /** A batch answer: a transport or decoding failure, or one result a query, null where the provider sent null. */
  datatype Reply = Failed(code: string) | Results(results: seq<Option<Page>>)

  datatype Detail = Missing(code: string) | Found(advisory: Advisory)

  /** Patterns, timestamps, record validation and the encoded size, left open. */
  datatype Rules = Rules(idPattern: string -> bool, timestamp: string -> bool, validAdvisory: Advisory -> bool,
                         oversized: Snapshot -> bool)

  /** One query of a batch request: the position of its module in the inventory and what was sent for it. */
  datatype Ask = Ask(mod: nat, name: string, version: string, token: string)

  datatype Exchange = Exchange(asks: seq<Ask>, results: seq<Option<Page>>)

  /** One page read for a module, and the token it was asked with. */
  datatype Visit = Visit(token: string, page: Page)

  // ---------------------------------------------------------------- what the provider returned for a module

  /** The pages answered for module i among the first n answers of an exchange. */
  function Within(x: Exchange, i: nat, n: nat): seq<Visit>
    requires n <= |x.asks| && n <= |x.results|
  {
    if n == 0 then []
    else Within(x, i, n - 1)
         + if x.asks[n - 1].mod == i && x.results[n - 1].Some? then [Visit(x.asks[n - 1].token, x.results[n - 1].value)]
           else []
  }

  ghost predicate Shaped(log: seq<Exchange>) {
    forall k :: 0 <= k < |log| ==> |log[k].asks| == |log[k].results|
  }

  /** All pages answered for module i, in order. */
  function Visits(log: seq<Exchange>, i: nat): seq<Visit>
    requires Shaped(log)
  {
    if log == [] then []
    else Visits(log[..|log| - 1], i) + Within(log[|log| - 1], i, |log[|log| - 1].asks|)
  }

  function HitIds(hits: seq<Hit>): (r: seq<string>)
    ensures |r| == |hits| && forall k :: 0 <= k < |r| ==> r[k] == hits[k].id
  {
    seq(|hits|, k requires 0 <= k < |hits| => hits[k].id)
  }

  lemma HitIdsMore(hits: seq<Hit>, h: nat)
    requires h < |hits|
    ensures HitIds(hits[..h + 1]) == HitIds(hits[..h]) + [hits[h].id]
  {
  }

  /** The ids on all these pages, in order. */
  function IdsOf(v: seq<Visit>): seq<string> {
    if v == [] then [] else IdsOf(v[..|v| - 1]) + HitIds(v[|v| - 1].page.hits)
  }

  /** Each page was asked for with the token of the one before it, and no token came twice. */
  ghost predicate Chain(v: seq<Visit>) {
    && (v != [] ==> v[0].token == "")
    && (forall k :: 0 <= k < |v| - 1 ==> v[k + 1].token == v[k].page.next && v[k].page.next != "")
    && (forall a, b :: 0 <= a < b < |v| ==> v[a].page.next != v[b].page.next)
  }

  /** The last page read names no further page. */
  predicate Finished(v: seq<Visit>) {
    v != [] && v[|v| - 1].page.next == ""
  }

  function NextToken(v: seq<Visit>): string {
    if v == [] then "" else v[|v| - 1].page.next
  }

  // ---------------------------------------------------------------- the bookkeeping of one module

  /** What the capture keeps for one module: the ids and tokens seen, and the next token. */
  datatype Cursor = Cursor(seenIDs: set<string>, token: string, seenTokens: set<string>)

  ghost predicate TokensSeen(seen: set<string>, v: seq<Visit>) {
    && (forall t :: t in seen ==> exists k :: 0 <= k < |v| && v[k].page.next == t)
    && (forall k :: 0 <= k < |v| && v[k].page.next != "" ==> v[k].page.next in seen)
  }

  /** Query and cursor say what the pages v amount to. */
  ghost predicate Tracks(q: Query, c: Cursor, v: seq<Visit>) {
    && q.advisories == IdsOf(v) && Distinct(q.advisories) && c.seenIDs == Elements(q.advisories)
    && Chain(v) && q.complete == Finished(v) && TokensSeen(c.seenTokens, v)
    && (!Finished(v) ==> c.token == NextToken(v))
  }

  lemma NothingTracked(q: Query)
    requires q.advisories == [] && !q.complete
    ensures Tracks(q, Cursor({}, "", {}), [])
  {
  }

  lemma ChainSnoc(v: seq<Visit>, x: Visit, seen: set<string>)
    requires Chain(v) && !Finished(v) && x.token == NextToken(v) && TokensSeen(seen, v)
    ensures x.page.next != "" && x.page.next !in seen ==> Chain(v + [x]) && TokensSeen(seen + {x.page.next}, v + [x])
    ensures x.page.next == "" ==> Chain(v + [x]) && TokensSeen(seen, v + [x]) && Finished(v + [x])
  {
    if x.page.next == "" || x.page.next !in seen {
      ChainGrows(v, x, seen);
    }
    if x.page.next != "" && x.page.next !in seen {
      SeenGrows(v, x, seen);
    } else if x.page.next == "" {
      SeenStays(v, x, seen);
    }
  }

  lemma NamesNext(v: seq<Visit>, k: nat)
    requires Chain(v) && !Finished(v) && k < |v|
    ensures v[k].page.next != ""
  {
    if k < |v| - 1 {
      assert v[k + 1].token == v[k].page.next;
    }
  }

  lemma ChainGrows(v: seq<Visit>, x: Visit, seen: set<string>)
    requires Chain(v) && !Finished(v) && x.token == NextToken(v) && TokensSeen(seen, v)
    requires x.page.next == "" || x.page.next !in seen
    ensures Chain(v + [x])
  {
    var w := v + [x];
    forall k | 0 <= k < |w| - 1 ensures w[k + 1].token == w[k].page.next && w[k].page.next != "" {
      NamesNext(v, k);
      if k < |v| - 1 {
        assert w[k + 1] == v[k + 1];
      }
    }
    forall a, b | 0 <= a < b < |w| ensures w[a].page.next != w[b].page.next {
      NamesNext(v, a);
      if b < |v| {
        assert v[a].page.next != v[b].page.next;
      } else {
        assert v[a].page.next in seen;
      }
    }
  }

  lemma SeenGrows(v: seq<Visit>, x: Visit, seen: set<string>)
    requires TokensSeen(seen, v)
    ensures TokensSeen(seen + {x.page.next}, v + [x])
  {
    var w, more := v + [x], seen + {x.page.next};
    forall t | t in more ensures exists k :: 0 <= k < |w| && w[k].page.next == t {
      if t == x.page.next {
        assert w[|v|].page.next == t;
      } else {
        var k :| 0 <= k < |v| && v[k].page.next == t;
        assert w[k].page.next == t;
      }
    }
  }

  lemma SeenStays(v: seq<Visit>, x: Visit, seen: set<string>)
    requires TokensSeen(seen, v) && x.page.next == ""
    ensures TokensSeen(seen, v + [x])
  {
    var w := v + [x];
    forall t | t in seen ensures exists k :: 0 <= k < |w| && w[k].page.next == t {
      var k :| 0 <= k < |v| && v[k].page.next == t;
      assert w[k].page.next == t;
    }
  }

  /** One more page for a module that is not finished. */
  lemma PageRead(q: Query, c: Cursor, v: seq<Visit>, page: Page, q': Query, seenIDs: set<string>)
    requires Tracks(q, c, v) && !q.complete
    requires q'.advisories == q.advisories + HitIds(page.hits) && Distinct(q'.advisories)
    requires seenIDs == Elements(q'.advisories) && q'.complete == (page.next == "")
    requires page.next != "" ==> page.next !in c.seenTokens
    ensures var w := v + [Visit(c.token, page)];
            && (page.next != "" ==> Tracks(q', Cursor(seenIDs, page.next, c.seenTokens + {page.next}), w))
            && (page.next == "" ==> Tracks(q', Cursor(seenIDs, c.token, c.seenTokens), w))
  {
    hide Chain, TokensSeen, Distinct, Elements;
    var w := v + [Visit(c.token, page)];
    assert w[..|w| - 1] == v;
    ChainSnoc(v, Visit(c.token, page), c.seenTokens);
  }

  // ---------------------------------------------------------------- the collected records

  /** The details fetched so far: valid, at most 256, listed once each. */
  ghost predicate Listing(rules: Rules, details: map<string, Advisory>, advisories: seq<Advisory>) {
    && |details| == |advisories| <= MAX_ADVISORIES
    && (forall id :: id in details ==> details[id].id == id && rules.validAdvisory(details[id]) && Lists(advisories, id))
    && (forall k :: 0 <= k < |advisories| ==> advisories[k].id in details && details[advisories[k].id] == advisories[k])
    && (forall a, b :: 0 <= a < b < |advisories| ==> advisories[a].id != advisories[b].id)
  }

  predicate Lists(advisories: seq<Advisory>, id: string) {
    exists k :: 0 <= k < |advisories| && advisories[k].id == id
  }

  /** The ids with details are exactly those some query refers to. */
  ghost predicate Refers(ids: set<string>, queries: seq<Query>) {
    && (forall i :: 0 <= i < |queries| ==> Elements(queries[i].advisories) <= ids)
    && (forall id :: id in ids ==> Referenced(queries, id))
  }

  ghost predicate Catalog(rules: Rules, details: map<string, Advisory>, advisories: seq<Advisory>,
                          queries: seq<Query>) {
    Listing(rules, details, advisories) && Refers(details.Keys, queries)
  }

  predicate Referenced(queries: seq<Query>, id: string) {
    exists i :: 0 <= i < |queries| && id in queries[i].advisories
  }

  function WithHit(queries: seq<Query>, i: nat, id: string): seq<Query>
    requires i < |queries|
  {
    queries[i := queries[i].(advisories := queries[i].advisories + [id])]
  }

  /** The retained form of an oversized capture. */
  function Emptied(queries: seq<Query>): (r: seq<Query>)
    ensures |r| == |queries|
    ensures forall k :: 0 <= k < |r| ==> r[k] == Query(queries[k].name, queries[k].version, false, [])
  {
    seq(|queries|, k requires 0 <= k < |queries| => queries[k].(complete := false, advisories := []))
  }

  lemma StillReferenced(queries: seq<Query>, i: nat, id: string, other: string)
    requires i < |queries| && (Referenced(queries, other) || other == id)
    ensures Referenced(WithHit(queries, i, id), other)
  {
    var after := WithHit(queries, i, id);
    if other == id {
      assert id in after[i].advisories;
    } else {
      var k :| 0 <= k < |queries| && other in queries[k].advisories;
      assert other in after[k].advisories;
    }
  }

  lemma RefersMore(ids: set<string>, queries: seq<Query>, i: nat, id: string)
    requires Refers(ids, queries) && i < |queries|
    ensures Refers(ids + {id}, WithHit(queries, i, id))
  {
    hide Referenced;
    var after := WithHit(queries, i, id);
    forall other | other in ids + {id} ensures Referenced(after, other) {
      StillReferenced(queries, i, id, other);
    }
    assert Elements(after[i].advisories) == Elements(queries[i].advisories) + {id};
  }

  /** A hit on a record already fetched. */
  lemma KnownHit(rules: Rules, details: map<string, Advisory>, advisories: seq<Advisory>, queries: seq<Query>, i: nat,
                 id: string)
    requires Catalog(rules, details, advisories, queries) && i < |queries| && id in details
    ensures Catalog(rules, details, advisories, WithHit(queries, i, id))
  {
    hide Listing, Refers;
    RefersMore(details.Keys, queries, i, id);
    assert details.Keys + {id} == details.Keys;
  }

  lemma ListsMore(advisories: seq<Advisory>, a: Advisory, id: string)
    ensures Lists(advisories + [a], id) <==> Lists(advisories, id) || id == a.id
  {
    var all := advisories + [a];
    assert all[|advisories|] == a;
    if Lists(advisories, id) {
      var k :| 0 <= k < |advisories| && advisories[k].id == id;
      assert all[k].id == id;
    }
  }

  lemma ListingMore(rules: Rules, details: map<string, Advisory>, advisories: seq<Advisory>, a: Advisory)
    requires Listing(rules, details, advisories) && a.id !in details
    requires |details| < MAX_ADVISORIES && rules.validAdvisory(a)
    ensures Listing(rules, details[a.id := a], advisories + [a])
  {
    hide Lists;
    var more, all := details[a.id := a], advisories + [a];
    assert more.Keys == details.Keys + {a.id};
    forall id | id in more ensures more[id].id == id && rules.validAdvisory(more[id]) && Lists(all, id) {
      ListsMore(advisories, a, id);
    }
    forall k | 0 <= k < |all| ensures all[k].id in more && more[all[k].id] == all[k] {
      if k < |advisories| {
        assert all[k] == advisories[k];
      }
    }
    forall i, j | 0 <= i < j < |all| ensures all[i].id != all[j].id {
      assert all[i] == advisories[i];
      if j < |advisories| {
        assert all[j] == advisories[j];
      }
    }
  }

  /** A hit whose record has just been fetched. */
  lemma FetchedHit(rules: Rules, details: map<string, Advisory>, advisories: seq<Advisory>, queries: seq<Query>, i: nat,
                   a: Advisory)
    requires Catalog(rules, details, advisories, queries) && i < |queries| && a.id !in details
    requires |details| < MAX_ADVISORIES && rules.validAdvisory(a)
    ensures Catalog(rules, details[a.id := a], advisories + [a], WithHit(queries, i, a.id))
  {
    hide Listing, Refers;
    RefersMore(details.Keys, queries, i, a.id);
    ListingMore(rules, details, advisories, a);
    assert details[a.id := a].Keys == details.Keys + {a.id};
  }

  // ---------------------------------------------------------------- what was checked about each page

  /** The hit is well formed and a collected record has its id and modification time. */
  ghost predicate HitVetted(rules: Rules, advisories: seq<Advisory>, h: Hit) {
    && rules.idPattern(h.id) && rules.timestamp(h.modified)
    && exists a :: a in advisories && a.id == h.id && a.modified == h.modified
  }

  ghost predicate PageVetted(rules: Rules, advisories: seq<Advisory>, r: Option<Page>) {
    r.Some? && |r.value.next| <= 2048 && |r.value.hits| <= 256 && HitsVetted(rules, advisories, r.value.hits)
  }

  ghost predicate HitsVetted(rules: Rules, advisories: seq<Advisory>, hits: seq<Hit>) {
    forall k :: 0 <= k < |hits| ==> HitVetted(rules, advisories, hits[k])
  }

  ghost predicate PagesVetted(rules: Rules, advisories: seq<Advisory>, results: seq<Option<Page>>) {
    forall m :: 0 <= m < |results| ==> PageVetted(rules, advisories, results[m])
  }

  ghost predicate LogVetted(rules: Rules, advisories: seq<Advisory>, log: seq<Exchange>) {
    forall k :: 0 <= k < |log| ==> PagesVetted(rules, advisories, log[k].results)
  }

  ghost predicate AllIn(a: seq<Advisory>, b: seq<Advisory>) {
    forall x :: x in a ==> x in b
  }

  lemma PagesStayVetted(rules: Rules, a: seq<Advisory>, b: seq<Advisory>, results: seq<Option<Page>>)
    requires PagesVetted(rules, a, results) && AllIn(a, b)
    ensures PagesVetted(rules, b, results)
  {
  }

  lemma LogStaysVetted(rules: Rules, a: seq<Advisory>, b: seq<Advisory>, log: seq<Exchange>)
    requires LogVetted(rules, a, log) && AllIn(a, b)
    ensures LogVetted(rules, b, log)
  {
  }

  lemma NoHits(rules: Rules, a: seq<Advisory>, hits: seq<Hit>)
    ensures HitsVetted(rules, a, hits[..0])
  {
  }

  lemma HitsMore(rules: Rules, a: seq<Advisory>, b: seq<Advisory>, hits: seq<Hit>, h: nat)
    requires h < |hits| && HitsVetted(rules, a, hits[..h]) && AllIn(a, b) && HitVetted(rules, b, hits[h])
    ensures HitsVetted(rules, b, hits[..h + 1])
  {
    forall k | 0 <= k < h ensures HitVetted(rules, b, hits[k]) {
      assert hits[k] == hits[..h][k];
    }
  }

  lemma WithinSelf(a: seq<Advisory>)
    ensures AllIn(a, a)
  {
  }

  lemma PrefixWithin(a: seq<Advisory>, b: seq<Advisory>)
    requires a <= b
    ensures AllIn(a, b)
  {
  }

  lemma WithinTransitive(a: seq<Advisory>, b: seq<Advisory>, c: seq<Advisory>)
    requires AllIn(a, b) && AllIn(b, c)
    ensures AllIn(a, c)
  {
  }

  // ---------------------------------------------------------------- when a hit is taken, and when it stops the run

  /** The records in the order they were asked for, one for every id some query refers to. */
  ghost predicate Fetched(answers: (nat, string) -> Detail, advisories: seq<Advisory>) {
    forall f :: 0 <= f < |advisories| ==> answers(f, advisories[f].id) == Found(advisories[f])
  }

  ghost predicate Collected(answers: (nat, string) -> Detail, s: Snapshot) {
    && Fetched(answers, s.advisories)
    && (forall a, b :: 0 <= a < b < |s.advisories| ==> s.advisories[a].id != s.advisories[b].id)
    && (forall id :: Lists(s.advisories, id) <==> Referenced(s.queries, id))
  }

  predicate WellFormed(rules: Rules, s: Snapshot, i: nat, hit: Hit)
    requires i < |s.queries|
  {
    rules.idPattern(hit.id) && rules.timestamp(hit.modified) && hit.id !in s.queries[i].advisories
  }

  /** The record of a hit: the collected one, or else the answer to the next request for a record. */
  ghost predicate RecordFor(rules: Rules, answers: (nat, string) -> Detail, s: Snapshot, hit: Hit, a: Advisory) {
    if Lists(s.advisories, hit.id) then a in s.advisories && a.id == hit.id
    else
      && |s.advisories| < MAX_ADVISORIES && answers(|s.advisories|, hit.id) == Found(a)
      && a.id == hit.id && rules.validAdvisory(a)
  }

  /** No record: too many, or the request failed, or its answer is another record or an invalid one. */
  predicate NoRecord(rules: Rules, answers: (nat, string) -> Detail, s: Snapshot, hit: Hit, code: string) {
    && !Lists(s.advisories, hit.id)
    && if |s.advisories| >= MAX_ADVISORIES then code == "OSV_ADVISORY_LIMIT"
       else
         match answers(|s.advisories|, hit.id)
         case Missing(why) => code == why
         case Found(a) => (a.id != hit.id || !rules.validAdvisory(a)) && code == "OSV_DETAIL_ID_OR_SHAPE"
  }

  function WithRecord(advisories: seq<Advisory>, a: Advisory): seq<Advisory> {
    if Lists(advisories, a.id) then advisories else advisories + [a]
  }

  /** The snapshot with the hit of module i and its record. */
  function Taken(s: Snapshot, i: nat, hit: Hit, a: Advisory): Snapshot
    requires i < |s.queries|
  {
    s.(queries := WithHit(s.queries, i, hit.id), advisories := WithRecord(s.advisories, a))
  }

  /** The hit is taken: well formed, new, its record to be had under the same date, and the snapshot stays in bounds. */
  ghost predicate HitAccepted(rules: Rules, answers: (nat, string) -> Detail, s: Snapshot, i: nat, hit: Hit)
    requires i < |s.queries|
  {
    && WellFormed(rules, s, i, hit)
    && exists a :: RecordFor(rules, answers, s, hit, a) && a.modified == hit.modified && !rules.oversized(Taken(s, i, hit, a))
  }

  function Stopping(s: Snapshot, code: string): Snapshot {
    s.(errors := s.errors + [code])
  }

  /** The hit stops the run: the first objection to it, and the snapshot that is left. */
  ghost predicate HitObjected(rules: Rules, answers: (nat, string) -> Detail, s: Snapshot, i: nat, hit: Hit,
                              after: Snapshot)
    requires i < |s.queries|
  {
    if !WellFormed(rules, s, i, hit) then after == Stopping(s, "OSV_HIT_INVALID")
    else
      || (exists code :: NoRecord(rules, answers, s, hit, code) && after == Stopping(s, code))
      || exists a :: RecordFor(rules, answers, s, hit, a) && RecordObjected(rules, s, i, hit, a, after)
  }

  /** The record has another date, or the snapshot gets too large; then its contents are dropped. */
  predicate RecordObjected(rules: Rules, s: Snapshot, i: nat, hit: Hit, a: Advisory, after: Snapshot)
    requires i < |s.queries|
  {
    if a.modified != hit.modified then
      after == Stopping(s.(advisories := WithRecord(s.advisories, a)), "OSV_DETAIL_MODIFIED_CONFLICT")
    else
      && rules.oversized(Taken(s, i, hit, a))
      && after == Stopping(s.(queries := Emptied(WithHit(s.queries, i, hit.id)), advisories := []), "OSV_SNAPSHOT_SIZE_LIMIT")
  }

  lemma CatalogCollects(rules: Rules, answers: (nat, string) -> Detail, details: map<string, Advisory>, s: Snapshot)
    requires Catalog(rules, details, s.advisories, s.queries) && Fetched(answers, s.advisories)
    ensures Collected(answers, s) && |details| == |s.advisories| <= MAX_ADVISORIES
    ensures forall id :: id in details <==> Lists(s.advisories, id)
    ensures forall id :: id in details ==> details[id] in s.advisories && details[id].id == id
  {
    forall id | Referenced(s.queries, id) ensures id in details {
      var i :| 0 <= i < |s.queries| && id in s.queries[i].advisories;
      assert id in Elements(s.queries[i].advisories);
    }
  }

  lemma OneRecord(rules: Rules, answers: (nat, string) -> Detail, s: Snapshot, hit: Hit, a: Advisory, b: Advisory)
    requires Collected(answers, s) && RecordFor(rules, answers, s, hit, a) && RecordFor(rules, answers, s, hit, b)
    ensures a == b
  {
  }

  /** Every record is what the provider answered to a request for its id. */
  ghost predicate Provided(answers: (nat, string) -> Detail, advisories: seq<Advisory>) {
    forall a :: a in advisories ==> exists f: nat :: answers(f, a.id) == Found(a)
  }

  lemma FetchedProvided(answers: (nat, string) -> Detail, advisories: seq<Advisory>, sorted: seq<Advisory>)
    requires Fetched(answers, advisories) && forall a :: a in sorted <==> a in advisories
    ensures Provided(answers, sorted)
  {
    forall a | a in sorted ensures exists f: nat :: answers(f, a.id) == Found(a) {
      var f :| 0 <= f < |advisories| && advisories[f] == a;
      assert answers(f, a.id) == Found(a);
    }
  }

  lemma FetchedMore(answers: (nat, string) -> Detail, advisories: seq<Advisory>, a: Advisory)
    requires Fetched(answers, advisories) && answers(|advisories|, a.id) == Found(a)
    ensures Fetched(answers, advisories + [a])
  {
  }

  // ---------------------------------------------------------------- when a page is taken, and when it stops the run

  /** Only module i changed: these ids were added to its query, and to the ids seen for it. */
  ghost predicate Listed(q0: seq<Query>, c0: seq<Cursor>, q: seq<Query>, c: seq<Cursor>, i: nat, ids: seq<string>)
    requires i < |q0| == |c0|
  {
    && |q| == |q0| && |c| == |c0| && q == q0[i := q[i]] && c == c0[i := c[i]]
    && q[i] == q0[i].(advisories := q0[i].advisories + ids) && Distinct(q[i].advisories)
    && c[i] == c0[i].(seenIDs := Elements(q[i].advisories))
  }

  lemma NoneListed(q: seq<Query>, c: seq<Cursor>, i: nat)
    requires i < |q| == |c| && Distinct(q[i].advisories) && c[i].seenIDs == Elements(q[i].advisories)
    ensures Listed(q, c, q, c, i, [])
  {
    assert q[i].advisories + [] == q[i].advisories;
  }

  lemma ListedSizes(q0: seq<Query>, c0: seq<Cursor>, q: seq<Query>, c: seq<Cursor>, i: nat, ids: seq<string>)
    requires i < |q0| == |c0| && Listed(q0, c0, q, c, i, ids)
    ensures |q| == |q0| && |c| == |c0| && c[i].seenIDs == Elements(q[i].advisories)
  {
  }

  lemma ListedMore(q0: seq<Query>, c0: seq<Cursor>, q: seq<Query>, c: seq<Cursor>, i: nat, ids: seq<string>, id: string)
    requires i < |q0| == |c0| && Listed(q0, c0, q, c, i, ids) && id !in q[i].advisories
    ensures Listed(q0, c0, WithHit(q, i, id), c[i := c[i].(seenIDs := c[i].seenIDs + {id})], i, ids + [id])
  {
    hide Elements;
    ElementsSnoc(q[i].advisories, id);
    assert q0[i].advisories + ids + [id] == q0[i].advisories + (ids + [id]);
  }

  /** s after these ids were listed for module i, with the records they needed. */
  ghost predicate Between(answers: (nat, string) -> Detail, s: Snapshot, i: nat, ids: seq<string>, mid: Snapshot)
    requires i < |s.queries|
  {
    && mid == s.(queries := s.queries[i := s.queries[i].(advisories := s.queries[i].advisories + ids)],
                 advisories := mid.advisories)
    && Collected(answers, mid)
  }

  /** Some hit stops the run, those before it having been taken. */
  ghost predicate HitsObjected(rules: Rules, answers: (nat, string) -> Detail, s: Snapshot, i: nat, hits: seq<Hit>,
                               after: Snapshot)
    requires i < |s.queries|
  {
    exists h, mid :: 0 <= h < |hits| && Between(answers, s, i, HitIds(hits[..h]), mid)
                     && HitObjected(rules, answers, mid, i, hits[h], after)
  }

  predicate InBounds(r: Option<Page>) {
    r.Some? && |r.value.next| <= MAX_TOKEN && |r.value.hits| <= MAX_ADVISORIES
  }

  predicate Repeats(v: seq<Visit>, token: string) {
    token != "" && exists k :: 0 <= k < |v| && v[k].page.next == token
  }

  /** The result stops the run: out of bounds, or a hit does, or its token names a page of the module again. */
  ghost predicate PageObjected(rules: Rules, answers: (nat, string) -> Detail, s: Snapshot, i: nat, v: seq<Visit>,
                               r: Option<Page>, after: Snapshot)
    requires i < |s.queries|
  {
    if !InBounds(r) then after == Stopping(s, "OSV_RESULT_SHAPE")
    else
      || HitsObjected(rules, answers, s, i, r.value.hits, after)
      || (Repeats(v, r.value.next)
          && exists mid :: Between(answers, s, i, HitIds(r.value.hits), mid) && after == Stopping(mid, "OSV_PAGE_TOKEN_CYCLE"))
  }

  lemma BetweenNone(answers: (nat, string) -> Detail, s: Snapshot, i: nat)
    requires i < |s.queries| && Collected(answers, s)
    ensures Between(answers, s, i, [], s)
  {
    assert s.queries[i].advisories + [] == s.queries[i].advisories;
  }

  lemma BetweenMore(answers: (nat, string) -> Detail, s: Snapshot, i: nat, hits: seq<Hit>, h: nat, mid: Snapshot,
                    next: Snapshot)
    requires i < |s.queries| && h < |hits| && Between(answers, s, i, HitIds(hits[..h]), mid) && Collected(answers, next)
    requires next == mid.(queries := WithHit(mid.queries, i, hits[h].id), advisories := next.advisories)
    ensures Between(answers, s, i, HitIds(hits[..h + 1]), next)
  {
    hide Collected;
    HitIdsMore(hits, h);
    assert s.queries[i].advisories + HitIds(hits[..h]) + [hits[h].id] == s.queries[i].advisories + HitIds(hits[..h + 1]);
  }

  // ---------------------------------------------------------------- all modules together

  /** After the exchanges before and the first n answers of x, every module is tracked. */
  ghost predicate Tracked(queries: seq<Query>, cursors: seq<Cursor>, before: seq<Exchange>, x: Exchange, n: nat)
    requires Shaped(before) && n <= |x.asks| == |x.results|
  {
    && |queries| == |cursors|
    && forall i :: 0 <= i < |queries| ==> Tracks(queries[i], cursors[i], Visits(before, i) + Within(x, i, n))
  }

  ghost predicate AllTracked(queries: seq<Query>, cursors: seq<Cursor>, log: seq<Exchange>)
    requires Shaped(log)
  {
    |queries| == |cursors| && forall i :: 0 <= i < |queries| ==> Tracks(queries[i], cursors[i], Visits(log, i))
  }

  lemma TrackedStart(queries: seq<Query>, cursors: seq<Cursor>, before: seq<Exchange>, x: Exchange)
    requires Shaped(before) && |x.asks| == |x.results| && AllTracked(queries, cursors, before)
    ensures Tracked(queries, cursors, before, x, 0)
  {
    hide Tracks;
    forall i | 0 <= i < |queries| ensures Visits(before, i) + Within(x, i, 0) == Visits(before, i) {
    }
  }

  lemma TrackedEnd(queries: seq<Query>, cursors: seq<Cursor>, before: seq<Exchange>, x: Exchange)
    requires Shaped(before) && |x.asks| == |x.results| && Tracked(queries, cursors, before, x, |x.asks|)
    ensures Shaped(before + [x]) && AllTracked(queries, cursors, before + [x])
  {
  }

  /** The open modules of an exchange from position n on, with the tokens that were sent for them. */
  ghost predicate Waiting(queries: seq<Query>, cursors: seq<Cursor>, x: Exchange, n: nat) {
    && |queries| == |cursors|
    && (forall m :: 0 <= m < |x.asks| ==> x.asks[m].mod < |queries|)
    && (forall a, b :: 0 <= a < b < |x.asks| ==> x.asks[a].mod < x.asks[b].mod)
    && (forall m :: n <= m < |x.asks| ==>
          !queries[x.asks[m].mod].complete && x.asks[m].token == cursors[x.asks[m].mod].token)
  }

  lemma TrackedStep(queries: seq<Query>, cursors: seq<Cursor>, before: seq<Exchange>, x: Exchange, n: nat,
                    queries': seq<Query>, cursors': seq<Cursor>)
    requires Shaped(before) && n < |x.asks| == |x.results| && x.results[n].Some?
    requires Tracked(queries, cursors, before, x, n) && Waiting(queries, cursors, x, n)
    requires var i := x.asks[n].mod;
             && |queries'| == |queries| && |cursors'| == |cursors|
             && queries' == queries[i := queries'[i]] && cursors' == cursors[i := cursors'[i]]
             && Tracks(queries'[i], cursors'[i],
                       Visits(before, i) + Within(x, i, n) + [Visit(cursors[i].token, x.results[n].value)])
    ensures Tracked(queries', cursors', before, x, n + 1) && Waiting(queries', cursors', x, n + 1)
  {
    hide Tracks;
    var i := x.asks[n].mod;
    forall j | 0 <= j < |queries'| ensures Tracks(queries'[j], cursors'[j], Visits(before, j) + Within(x, j, n + 1)) {
      if j == i {
        assert Visits(before, i) + Within(x, i, n) + [Visit(cursors[i].token, x.results[n].value)]
            == Visits(before, i) + Within(x, i, n + 1);
      } else {
        assert Within(x, j, n + 1) == Within(x, j, n);
      }
    }
  }

  // ---------------------------------------------------------------- what is asked, and what stops the run

  /** What the pages v amount to for a module. */
  function QueryOf(m: Module, v: seq<Visit>): Query {
    Query(m.name, m.version, Finished(v), IdsOf(v))
  }

  function QueriesAt(modules: seq<Module>, before: seq<Exchange>, x: Exchange, n: nat): (r: seq<Query>)
    requires Shaped(before) && n <= |x.asks| == |x.results|
    ensures |r| == |modules|
    ensures forall i :: 0 <= i < |r| ==> r[i] == QueryOf(modules[i], Visits(before, i) + Within(x, i, n))
  {
    seq(|modules|, i requires 0 <= i < |modules| => QueryOf(modules[i], Visits(before, i) + Within(x, i, n)))
  }

  function QueriesAfter(modules: seq<Module>, log: seq<Exchange>): (r: seq<Query>)
    requires Shaped(log)
    ensures |r| == |modules| && forall i :: 0 <= i < |r| ==> r[i] == QueryOf(modules[i], Visits(log, i))
  {
    seq(|modules|, i requires 0 <= i < |modules| => QueryOf(modules[i], Visits(log, i)))
  }

  /** The snapshot with these queries and the records they refer to. */
  ghost predicate Amounts(answers: (nat, string) -> Detail, frame: Snapshot, queries: seq<Query>, s: Snapshot) {
    s == frame.(queries := queries, advisories := s.advisories) && Collected(answers, s)
  }

  /**
   The modules a request is due for: the unfinished ones of the first batch of 16 that has any, each by name and
   version and with the token its last page named.
   */
  ghost predicate Due(modules: seq<Module>, before: seq<Exchange>, asks: seq<Ask>)
    requires Shaped(before)
  {
    && asks != [] && (forall a, b :: 0 <= a < b < |asks| ==> asks[a].mod < asks[b].mod)
    && (forall m :: 0 <= m < |asks| ==>
          var i := asks[m].mod;
          i < |modules| && asks[m] == Ask(i, modules[i].name, modules[i].version, NextToken(Visits(before, i))))
    && exists start: nat :: DueFrom(modules, before, asks, start)
  }

  ghost predicate DueFrom(modules: seq<Module>, before: seq<Exchange>, asks: seq<Ask>, start: nat)
    requires Shaped(before)
  {
    && start % BATCH == 0 && (forall i: nat :: i < start && i < |modules| ==> Finished(Visits(before, i)))
    && forall i: nat :: i < |modules| ==>
         (Asked(asks, i) <==> start <= i < start + BATCH && !Finished(Visits(before, i)))
  }

  predicate Asked(asks: seq<Ask>, i: nat) {
    exists m :: 0 <= m < |asks| && asks[m].mod == i
  }

  /** Some result of the exchange stops the run, those before it having been taken. */
  ghost predicate AnswerObjected(rules: Rules, answers: (nat, string) -> Detail, modules: seq<Module>,
                                 before: seq<Exchange>, x: Exchange, frame: Snapshot, after: Snapshot)
    requires Shaped(before) && |x.asks| == |x.results|
  {
    exists m, s :: ResultObjected(rules, answers, modules, before, x, m, frame, s, after)
  }

  ghost predicate ResultObjected(rules: Rules, answers: (nat, string) -> Detail, modules: seq<Module>,
                                 before: seq<Exchange>, x: Exchange, m: nat, frame: Snapshot, s: Snapshot, after: Snapshot)
    requires Shaped(before) && |x.asks| == |x.results|
  {
    && m < |x.asks| && x.asks[m].mod < |modules| && Amounts(answers, frame, QueriesAt(modules, before, x, m), s)
    && PageObjected(rules, answers, s, x.asks[m].mod, Visits(before, x.asks[m].mod) + Within(x, x.asks[m].mod, m),
                    x.results[m], after)
  }

  /** The next request fails, or is answered with another number of results than were asked for. */
  ghost predicate ReplyObjected(batches: nat -> Reply, modules: seq<Module>, log: seq<Exchange>, s: Snapshot,
                                after: Snapshot)
    requires Shaped(log)
  {
    exists asks :: Due(modules, log, asks)
                   && match batches(|log|)
                      case Failed(code) => after == Stopping(s, code)
                      case Results(results) => |results| != |asks| && after == Stopping(s, "OSV_RESULT_COUNT")
  }

  /** After 16 pages a module names a further one. */
  ghost predicate PagesExceeded(modules: seq<Module>, log: seq<Exchange>, s: Snapshot, after: Snapshot)
    requires Shaped(log)
  {
    && (exists i: nat :: i < |modules| && |Visits(log, i)| >= MAX_PAGES && !Finished(Visits(log, i)))
    && after == Stopping(s, "OSV_PAGE_LIMIT")
  }

  /** Why a run stopped after the exchanges of the log, and the snapshot it left. */
  ghost predicate RunObjected(rules: Rules, batches: nat -> Reply, answers: (nat, string) -> Detail, modules: seq<Module>,
                              log: seq<Exchange>, frame: Snapshot, after: Snapshot)
    requires Shaped(log)
  {
    if !(0 < |modules| <= MAX_MODULES) then after == Stopping(frame, "QUERY_MODULE_LIMIT")
    else
      || (log != [] && AnswerObjected(rules, answers, modules, log[..|log| - 1], log[|log| - 1], frame, after))
      || exists s :: Amounts(answers, frame, QueriesAfter(modules, log), s)
                     && (ReplyObjected(batches, modules, log, s, after) || PagesExceeded(modules, log, s, after))
  }

  lemma QueriesTracked(queries: seq<Query>, cursors: seq<Cursor>, modules: seq<Module>, before: seq<Exchange>,
                       x: Exchange, n: nat)
    requires Shaped(before) && n <= |x.asks| == |x.results| && Tracked(queries, cursors, before, x, n)
    requires Named(queries, modules)
    ensures queries == QueriesAt(modules, before, x, n)
  {
    hide Visits, Within, Chain, TokensSeen, IdsOf, Finished;
  }

  lemma QueriesAllTracked(queries: seq<Query>, cursors: seq<Cursor>, modules: seq<Module>, log: seq<Exchange>)
    requires Shaped(log) && AllTracked(queries, cursors, log) && Named(queries, modules)
    ensures queries == QueriesAfter(modules, log)
  {
    hide Visits, Within, Chain, TokensSeen, IdsOf, Finished;
  }

  /** One request's asks for the pending modules of a batch are what is due. */
  lemma PendingIsDue(modules: seq<Module>, queries: seq<Query>, cursors: seq<Cursor>, log: seq<Exchange>, start: nat,
                     pending: seq<nat>)
    requires Shaped(log) && AllTracked(queries, cursors, log) && |queries| == |modules|
    requires pending != [] && Ascending(pending) && start % BATCH == 0
    requires forall i: nat :: i < start && i < |queries| ==> queries[i].complete
    requires forall i: nat :: i in pending <==> start <= i < start + BATCH && i < |queries| && !queries[i].complete
    ensures |cursors| == |modules| && (forall m :: 0 <= m < |pending| ==> pending[m] < |modules|)
    ensures Due(modules, log, AsksFor(pending, modules, cursors))
  {
    hide Chain, TokensSeen, Visits, IdsOf;
    forall m | 0 <= m < |pending| ensures pending[m] < |modules| && !queries[pending[m]].complete {
      assert pending[m] in pending;
    }
    var asks := AsksFor(pending, modules, cursors);
    forall i: nat | i < |modules| ensures Asked(asks, i) <==> start <= i < start + BATCH && !Finished(Visits(log, i)) {
      assert Tracks(queries[i], cursors[i], Visits(log, i));
      if i in pending {
        var m :| 0 <= m < |pending| && pending[m] == i;
        assert asks[m].mod == i;
      }
    }
    forall m | 0 <= m < |asks| ensures asks[m].token == NextToken(Visits(log, asks[m].mod)) {
      assert Tracks(queries[asks[m].mod], cursors[asks[m].mod], Visits(log, asks[m].mod));
    }
    assert DueFrom(modules, log, asks, start);
  }

  // ---------------------------------------------------------------- the run

  // ---------------------------------------------------------------- an orderly provider stops nothing

  /** Hit j of the m-th result of the k-th exchange. */
  ghost predicate HitAt(log: seq<Exchange>, k: nat, m: nat, j: nat, h: Hit) {
    && k < |log| && m < |log[k].results| && log[k].results[m].Some?
    && j < |log[k].results[m].value.hits| && log[k].results[m].value.hits[j] == h
  }

  ghost predicate OnLog(log: seq<Exchange>, h: Hit) {
    exists k: nat, m: nat, j: nat :: HitAt(log, k, m, j, h)
  }

  /** Whenever it is asked for, the record of the hit is had, valid and under the hit's date. */
  ghost predicate Obtainable(rules: Rules, answers: (nat, string) -> Detail, h: Hit) {
    && rules.idPattern(h.id) && rules.timestamp(h.modified)
    && forall f: nat ::
         match answers(f, h.id)
         case Missing(_) => false
         case Found(a) => a.id == h.id && a.modified == h.modified && rules.validAdvisory(a)
  }

  ghost predicate HitsObtainable(rules: Rules, answers: (nat, string) -> Detail, log: seq<Exchange>) {
    forall h :: OnLog(log, h) ==> Obtainable(rules, answers, h)
  }

  /** At most 256 different ids are referred to. */
  ghost predicate FewIds(log: seq<Exchange>) {
    exists ids: set<string> :: |ids| <= 256 && forall h :: OnLog(log, h) ==> h.id in ids
  }

  /** Every request that is due is answered with one result in bounds for each module asked for. */
  ghost predicate Answered(batches: nat -> Reply, modules: seq<Module>, log: seq<Exchange>)
    requires Shaped(log)
  {
    forall k, asks :: 0 <= k <= |log| && Due(modules, log[..k], asks) ==> AnswersAll(batches(k), asks)
  }

  predicate AnswersAll(reply: Reply, asks: seq<Ask>) {
    && reply.Results? && |reply.results| == |asks|
    && forall m :: 0 <= m < |asks| ==>
         reply.results[m].Some? && |reply.results[m].value.next| <= 2048 && |reply.results[m].value.hits| <= 256
  }

  /** No module's hits or tokens repeat, and its pages end within 16. */
  ghost predicate PagedWell(v: seq<Visit>) {
    && Distinct(IdsOf(v)) && (forall a, b :: 0 <= a < b < |v| ==> v[a].page.next != v[b].page.next)
    && (|v| >= 16 ==> Finished(v))
  }

  /** The snapshot after some first hits of a result were taken. */
  ghost predicate OnTheWay(answers: (nat, string) -> Detail, modules: seq<Module>, log: seq<Exchange>, frame: Snapshot,
                           k: nat, m: nat, n: nat, s: Snapshot)
    requires Shaped(log)
  {
    && k < |log| && m < |log[k].asks| && log[k].asks[m].mod < |modules| && log[k].results[m].Some?
    && n <= |log[k].results[m].value.hits|
    && var i, q := log[k].asks[m].mod, QueriesAt(modules, log[..k], log[k], m);
       Amounts(answers, frame,
               q[i := q[i].(advisories := q[i].advisories + HitIds(log[k].results[m].value.hits[..n]))], s)
  }

  ghost predicate NeverOversized(rules: Rules, answers: (nat, string) -> Detail, modules: seq<Module>, log: seq<Exchange>,
                                 frame: Snapshot)
    requires Shaped(log)
  {
    forall k: nat, m: nat, n: nat, s :: OnTheWay(answers, modules, log, frame, k, m, n, s) ==> !rules.oversized(s)
  }

  /** What an orderly provider answers, as far as the log goes. */
  ghost predicate Orderly(rules: Rules, batches: nat -> Reply, answers: (nat, string) -> Detail, modules: seq<Module>,
                          log: seq<Exchange>, frame: Snapshot)
    requires Shaped(log)
  {
    && 1 <= |modules| <= 128 && Answered(batches, modules, log)
    && (forall i: nat :: i < |modules| ==> PagedWell(Visits(log, i)))
    && HitsObtainable(rules, answers, log) && FewIds(log) && NeverOversized(rules, answers, modules, log, frame)
  }

  lemma {:induction false} IdsThen(v: seq<Visit>, w: seq<Visit>)
    ensures IdsOf(v + w) == IdsOf(v) + IdsOf(w)
    decreases |w|
  {
    if w == [] {
      assert v + w == v;
    } else {
      var init, last := w[..|w| - 1], w[|w| - 1];
      IdsThen(v, init);
      IdsSnoc(v + init, last);
      IdsSnoc(init, last);
      assert v + w == v + init + [last] && w == init + [last];
      assert IdsOf(v) + IdsOf(init) + HitIds(last.page.hits) == IdsOf(v) + (IdsOf(init) + HitIds(last.page.hits));
    }
  }

  lemma IdsSnoc(v: seq<Visit>, x: Visit)
    ensures IdsOf(v + [x]) == IdsOf(v) + HitIds(x.page.hits)
  {
    assert (v + [x])[..|v|] == v;
  }

  lemma {:induction false} WithinGrows(x: Exchange, i: nat, m: nat, n: nat)
    requires m <= n <= |x.asks| == |x.results|
    ensures Within(x, i, m) <= Within(x, i, n)
    ensures m < n && x.asks[m].mod == i && x.results[m].Some? ==>
              Within(x, i, m) + [Visit(x.asks[m].token, x.results[m].value)] <= Within(x, i, n)
    decreases n
  {
    if m < n {
      WithinGrows(x, i, m, n - 1);
    }
  }

  /** What module i was sent before position m of the last exchange starts what it was sent in all. */
  lemma VisitsReach(log: seq<Exchange>, i: nat, m: nat)
    requires Shaped(log) && log != [] && m <= |log[|log| - 1].asks|
    ensures var before, x := log[..|log| - 1], log[|log| - 1];
            && Visits(before, i) + Within(x, i, m) <= Visits(log, i)
            && (m < |x.asks| && x.asks[m].mod == i && x.results[m].Some? ==>
                  Visits(before, i) + Within(x, i, m) + [Visit(x.asks[m].token, x.results[m].value)] <= Visits(log, i))
  {
    var before, x := log[..|log| - 1], log[|log| - 1];
    WithinGrows(x, i, m, |x.asks|);
    var start, some, all := Visits(before, i), Within(x, i, m), Within(x, i, |x.asks|);
    assert start + all == start + some + all[|some|..];
    if m < |x.asks| && x.asks[m].mod == i && x.results[m].Some? {
      var next := Visit(x.asks[m].token, x.results[m].value);
      assert start + all == start + some + [next] + all[|some| + 1..];
    }
  }

  ghost predicate Hits(x: Exchange, m: nat, j: nat, id: string) {
    m < |x.results| && x.results[m].Some? && j < |x.results[m].value.hits| && x.results[m].value.hits[j].id == id
  }

  lemma {:induction false} WithinIds(x: Exchange, i: nat, n: nat, id: string)
    requires n <= |x.asks| == |x.results| && id in IdsOf(Within(x, i, n))
    ensures exists m: nat, j: nat :: Hits(x, m, j, id)
  {
    hide HitIds, IdsOf;
    NoIds();
    var before := Within(x, i, n - 1);
    if x.asks[n - 1].mod == i && x.results[n - 1].Some? {
      var page := x.results[n - 1].value;
      IdsSnoc(before, Visit(x.asks[n - 1].token, page));
      if id in HitIds(page.hits) {
        var j :| 0 <= j < |page.hits| && HitIds(page.hits)[j] == id;
        assert Hits(x, n - 1, j, id);
      } else {
        WithinIds(x, i, n - 1, id);
      }
    } else {
      assert Within(x, i, n) == before;
      WithinIds(x, i, n - 1, id);
    }
  }

  lemma NoIds()
    ensures IdsOf([]) == []
  {
  }

  lemma OneVisit(v: Visit)
    ensures IdsOf([v]) == HitIds(v.page.hits)
  {
    assert [v][..0] == [];
  }

  lemma {:induction false} IdsOnLog(log: seq<Exchange>, i: nat, id: string)
    requires Shaped(log) && id in IdsOf(Visits(log, i))
    ensures exists h :: OnLog(log, h) && h.id == id
  {
    var last := |log| - 1;
    var before, x := log[..last], log[last];
    IdsThen(Visits(before, i), Within(x, i, |x.asks|));
    if id in IdsOf(Visits(before, i)) {
      IdsOnLog(before, i, id);
      var h :| OnLog(before, h) && h.id == id;
      var k: nat, m: nat, j: nat :| HitAt(before, k, m, j, h);
      assert HitAt(log, k, m, j, h);
    } else {
      WithinIds(x, i, |x.asks|, id);
      var m: nat, j: nat :| Hits(x, m, j, id);
      assert HitAt(log, last, m, j, x.results[m].value.hits[j]);
    }
  }

  /** Nothing is objected to what an orderly provider answers. */
  lemma OrderlyStopsNothing(rules: Rules, batches: nat -> Reply, answers: (nat, string) -> Detail, modules: seq<Module>,
                            log: seq<Exchange>, frame: Snapshot, after: Snapshot)
    requires Shaped(log) && Exchanged(log, modules, batches) && Orderly(rules, batches, answers, modules, log, frame)
    ensures !RunObjected(rules, batches, answers, modules, log, frame, after)
  {
    hide AnswerObjected, Amounts, Due, Exchanged, HitsObtainable, FewIds, NeverOversized, QueriesAfter;
    if log != [] {
      OrderlyAnswer(rules, batches, answers, modules, log, frame, after);
    }
    assert log[..|log|] == log;
    forall s ensures !ReplyObjected(batches, modules, log, s, after) && !PagesExceeded(modules, log, s, after) {
    }
  }

  lemma OrderlyAnswer(rules: Rules, batches: nat -> Reply, answers: (nat, string) -> Detail, modules: seq<Module>,
                      log: seq<Exchange>, frame: Snapshot, after: Snapshot)
    requires Shaped(log) && Exchanged(log, modules, batches) && Orderly(rules, batches, answers, modules, log, frame)
    requires log != []
    ensures !AnswerObjected(rules, answers, modules, log[..|log| - 1], log[|log| - 1], frame, after)
  {
    hide Exchanged, Orderly, PageObjected, Amounts;
    var before, x := log[..|log| - 1], log[|log| - 1];
    forall m: nat, s ensures !ResultObjected(rules, answers, modules, before, x, m, frame, s, after) {
      if ResultObjected(rules, answers, modules, before, x, m, frame, s, after) {
        OrderlyResult(rules, batches, answers, modules, log, m, frame, s, after);
      }
    }
  }

  lemma OrderlyResult(rules: Rules, batches: nat -> Reply, answers: (nat, string) -> Detail, modules: seq<Module>,
                      log: seq<Exchange>, m: nat, frame: Snapshot, s: Snapshot, after: Snapshot)
    requires Shaped(log) && Exchanged(log, modules, batches) && Orderly(rules, batches, answers, modules, log, frame)
    requires log != []
    ensures !ResultObjected(rules, answers, modules, log[..|log| - 1], log[|log| - 1], m, frame, s, after)
  {
    hide Due, HitsObjected, Between, Amounts, HitsObtainable, FewIds, NeverOversized, IdsOf, Visits;
    var last := |log| - 1;
    var before, x := log[..last], log[last];
    assert Due(modules, log[..last], log[last].asks);
    if ResultObjected(rules, answers, modules, before, x, m, frame, s, after) {
      var i, r := x.asks[m].mod, x.results[m];
      assert InBounds(r);
      TokenIsNew(log, i, m);
      OrderlyHits(rules, batches, answers, modules, log, m, frame, s, after);
    }
  }

  lemma TokenIsNew(log: seq<Exchange>, i: nat, m: nat)
    requires Shaped(log) && log != [] && m < |log[|log| - 1].asks| && PagedWell(Visits(log, i))
    requires log[|log| - 1].asks[m].mod == i && log[|log| - 1].results[m].Some?
    ensures !Repeats(Visits(log[..|log| - 1], i) + Within(log[|log| - 1], i, m), log[|log| - 1].results[m].value.next)
  {
    hide IdsOf, Finished;
    VisitsReach(log, i, m);
    var v, next := Visits(log[..|log| - 1], i) + Within(log[|log| - 1], i, m), log[|log| - 1].results[m].value.next;
    assert Visits(log, i)[|v|].page.next == next;
    forall k | 0 <= k < |v| ensures v[k].page.next != next {
      assert Visits(log, i)[k] == v[k];
    }
  }

  lemma OrderlyHits(rules: Rules, batches: nat -> Reply, answers: (nat, string) -> Detail, modules: seq<Module>,
                    log: seq<Exchange>, m: nat, frame: Snapshot, s: Snapshot, after: Snapshot)
    requires Shaped(log) && Orderly(rules, batches, answers, modules, log, frame) && log != []
    requires var x := log[|log| - 1];
             && m < |x.asks| && x.asks[m].mod < |modules| && x.results[m].Some?
             && Amounts(answers, frame, QueriesAt(modules, log[..|log| - 1], x, m), s)
    ensures var x := log[|log| - 1];
            !HitsObjected(rules, answers, s, x.asks[m].mod, x.results[m].value.hits, after)
  {
    hide Orderly, HitObjected, Amounts, Collected;
    var x := log[|log| - 1];
    var i, hits := x.asks[m].mod, x.results[m].value.hits;
    AmountsSizes(answers, frame, QueriesAt(modules, log[..|log| - 1], x, m), s);
    forall h, mid | 0 <= h < |hits| && Between(answers, s, i, HitIds(hits[..h]), mid)
      ensures !HitObjected(rules, answers, mid, i, hits[h], after)
    {
      OrderlyHit(rules, batches, answers, modules, log, m, frame, s, h, mid, after);
    }
  }

  lemma AmountsSizes(answers: (nat, string) -> Detail, frame: Snapshot, queries: seq<Query>, s: Snapshot)
    requires Amounts(answers, frame, queries, s)
    ensures s.queries == queries
  {
  }

  lemma OrderlyHit(rules: Rules, batches: nat -> Reply, answers: (nat, string) -> Detail, modules: seq<Module>,
                   log: seq<Exchange>, m: nat, frame: Snapshot, s: Snapshot, h: nat, mid: Snapshot, after: Snapshot)
    requires Shaped(log) && Orderly(rules, batches, answers, modules, log, frame) && log != []
    requires var x := log[|log| - 1];
             && m < |x.asks| && x.asks[m].mod < |modules| && x.results[m].Some? && h < |x.results[m].value.hits|
             && Amounts(answers, frame, QueriesAt(modules, log[..|log| - 1], x, m), s)
             && Between(answers, s, x.asks[m].mod, HitIds(x.results[m].value.hits[..h]), mid)
    ensures var x := log[|log| - 1];
            !HitObjected(rules, answers, mid, x.asks[m].mod, x.results[m].value.hits[h], after)
  {
    hide Visits, Within, IdsOf, Answered, PagedWell, NeverOversized, FewIds, Collected, Obtainable;
    var last := |log| - 1;
    var x := log[last];
    var i, hit := x.asks[m].mod, x.results[m].value.hits[h];
    assert HitAt(log, last, m, h, hit);
    assert Obtainable(rules, answers, hit);
    NewOnLog(rules, answers, modules, log, m, frame, s, h, mid);
    assert Obtainable(rules, answers, hit) && WellFormed(rules, mid, i, hit) by {
      ObtainableForms(rules, answers, hit);
    }
    forall code ensures !NoRecord(rules, answers, mid, hit, code) {
      RoomOnLog(rules, answers, modules, log, m, frame, s, h, mid);
      ObtainableIs(rules, answers, hit, |mid.advisories|);
    }
    forall a | RecordFor(rules, answers, mid, hit, a) ensures !RecordObjected(rules, mid, i, hit, a, after) {
      RecordDated(rules, answers, mid, hit, a);
      TakenOnTheWay(rules, answers, modules, log, m, frame, s, h, mid, a);
    }
  }

  lemma ObtainableForms(rules: Rules, answers: (nat, string) -> Detail, hit: Hit)
    requires Obtainable(rules, answers, hit)
    ensures rules.idPattern(hit.id) && rules.timestamp(hit.modified)
  {
  }

  lemma ObtainableIs(rules: Rules, answers: (nat, string) -> Detail, hit: Hit, f: nat)
    requires Obtainable(rules, answers, hit)
    ensures answers(f, hit.id).Found?
    ensures var a := answers(f, hit.id).advisory; a.id == hit.id && a.modified == hit.modified && rules.validAdvisory(a)
  {
  }

  lemma RecordDated(rules: Rules, answers: (nat, string) -> Detail, mid: Snapshot, hit: Hit, a: Advisory)
    requires Obtainable(rules, answers, hit) && Collected(answers, mid) && RecordFor(rules, answers, mid, hit, a)
    ensures a.id == hit.id && a.modified == hit.modified
  {
    hide Obtainable, Referenced;
    if Lists(mid.advisories, hit.id) {
      var f :| 0 <= f < |mid.advisories| && mid.advisories[f] == a;
      ObtainableIs(rules, answers, hit, f);
    } else {
      ObtainableIs(rules, answers, hit, |mid.advisories|);
    }
  }

  /** A module's ids do not repeat, so the next hit is new. */
  lemma NewOnLog(rules: Rules, answers: (nat, string) -> Detail, modules: seq<Module>, log: seq<Exchange>, m: nat,
                 frame: Snapshot, s: Snapshot, h: nat, mid: Snapshot)
    requires Shaped(log) && log != [] && forall i: nat :: i < |modules| ==> PagedWell(Visits(log, i))
    requires var x := log[|log| - 1];
             && m < |x.asks| && x.asks[m].mod < |modules| && x.results[m].Some? && h < |x.results[m].value.hits|
             && Amounts(answers, frame, QueriesAt(modules, log[..|log| - 1], x, m), s)
             && Between(answers, s, x.asks[m].mod, HitIds(x.results[m].value.hits[..h]), mid)
    ensures var x := log[|log| - 1];
            x.results[m].value.hits[h].id !in mid.queries[x.asks[m].mod].advisories
  {
    hide PagedWell, Visits, Within, Between, Amounts;
    var before, x := log[..|log| - 1], log[|log| - 1];
    var i, page := x.asks[m].mod, x.results[m].value;
    VisitsReach(log, i, m);
    ListedAt(answers, modules, log, m, frame, s, h, mid, i);
    NextIsNew(Visits(before, i) + Within(x, i, m), Visit(x.asks[m].token, page), Visits(log, i), h);
  }

  lemma NextIsNew(v: seq<Visit>, visit: Visit, w: seq<Visit>, h: nat)
    requires v + [visit] <= w && PagedWell(w) && h < |visit.page.hits|
    ensures visit.page.hits[h].id !in IdsOf(v) + HitIds(visit.page.hits[..h])
  {
    hide IdsOf, Finished;
    var hits, ids, all := visit.page.hits, IdsOf(v) + HitIds(visit.page.hits[..h]), IdsOf(w);
    IdsThen(v, [visit]);
    OneVisit(visit);
    assert w == v + [visit] + w[|v| + 1..];
    IdsThen(v + [visit], w[|v| + 1..]);
    assert forall j :: 0 <= j < h ==> HitIds(hits[..h])[j] == HitIds(hits)[j];
    assert forall j :: 0 <= j < |ids| ==> ids[j] == all[j];
    assert all[|ids|] == hits[h].id;
  }

  /** The ids listed for module j once the hits before h of the m-th result are taken. */
  lemma ListedAt(answers: (nat, string) -> Detail, modules: seq<Module>, log: seq<Exchange>, m: nat, frame: Snapshot,
                 s: Snapshot, h: nat, mid: Snapshot, j: nat)
    requires Shaped(log) && log != [] && j < |modules|
    requires var x := log[|log| - 1];
             && m < |x.asks| && x.asks[m].mod < |modules| && x.results[m].Some? && h < |x.results[m].value.hits|
             && Amounts(answers, frame, QueriesAt(modules, log[..|log| - 1], x, m), s)
             && Between(answers, s, x.asks[m].mod, HitIds(x.results[m].value.hits[..h]), mid)
    ensures |mid.queries| == |modules|
    ensures var x := log[|log| - 1];
            mid.queries[j].advisories == IdsOf(Visits(log[..|log| - 1], j) + Within(x, j, m))
                                         + if j == x.asks[m].mod then HitIds(x.results[m].value.hits[..h]) else []
  {
    hide Collected, Finished, Visits, Within, IdsOf, HitIds;
  }

  /** With at most 256 ids referred to, there is room for the record of the next new one. */
  lemma RoomOnLog(rules: Rules, answers: (nat, string) -> Detail, modules: seq<Module>, log: seq<Exchange>, m: nat,
                  frame: Snapshot, s: Snapshot, h: nat, mid: Snapshot)
    requires Shaped(log) && log != [] && FewIds(log)
    requires var x := log[|log| - 1];
             && m < |x.asks| && x.asks[m].mod < |modules| && x.results[m].Some? && h < |x.results[m].value.hits|
             && Amounts(answers, frame, QueriesAt(modules, log[..|log| - 1], x, m), s)
             && Between(answers, s, x.asks[m].mod, HitIds(x.results[m].value.hits[..h]), mid)
    ensures Lists(mid.advisories, log[|log| - 1].results[m].value.hits[h].id) || |mid.advisories| < MAX_ADVISORIES
  {
    hide Fetched, HitAt;
    var last := |log| - 1;
    var x := log[last];
    var hit := x.results[m].value.hits[h];
    var few: set<string> :| |few| <= 256 && forall g :: OnLog(log, g) ==> g.id in few;
    var ids := seq(|mid.advisories|, f requires 0 <= f < |mid.advisories| => mid.advisories[f].id);
    forall f | 0 <= f < |ids| ensures ids[f] in few {
      assert Lists(mid.advisories, ids[f]);
      ReferencedOnLog(answers, modules, log, m, frame, s, h, mid, ids[f]);
    }
    HitOnLog(log, last, m, h, hit);
    if !Lists(mid.advisories, hit.id) {
      var more := ids + [hit.id];
      assert Distinct(more);
      DistinctCount(more);
      SubsetCount(Elements(more), few);
    }
  }

  lemma HitOnLog(log: seq<Exchange>, k: nat, m: nat, j: nat, h: Hit)
    requires HitAt(log, k, m, j, h)
    ensures OnLog(log, h)
  {
  }

  lemma ReferencedOnLog(answers: (nat, string) -> Detail, modules: seq<Module>, log: seq<Exchange>, m: nat,
                        frame: Snapshot, s: Snapshot, h: nat, mid: Snapshot, id: string)
    requires Shaped(log) && log != []
    requires var x := log[|log| - 1];
             && m < |x.asks| && x.asks[m].mod < |modules| && x.results[m].Some? && h < |x.results[m].value.hits|
             && Amounts(answers, frame, QueriesAt(modules, log[..|log| - 1], x, m), s)
             && Between(answers, s, x.asks[m].mod, HitIds(x.results[m].value.hits[..h]), mid)
    requires Referenced(mid.queries, id)
    ensures exists g :: OnLog(log, g) && g.id == id
  {
    hide Amounts, Between, Visits, Within, IdsOf, OnLog;
    var last := |log| - 1;
    var before, x := log[..last], log[last];
    var hits := x.results[m].value.hits;
    var j :| 0 <= j < |mid.queries| && id in mid.queries[j].advisories;
    ListedAt(answers, modules, log, m, frame, s, h, mid, 0);
    ListedAt(answers, modules, log, m, frame, s, h, mid, j);
    var v, w := Visits(before, j) + Within(x, j, m), Visits(log, j);
    if id in IdsOf(v) {
      VisitsReach(log, j, m);
      assert w == v + w[|v|..];
      IdsThen(v, w[|v|..]);
      IdsOnLog(log, j, id);
    } else {
      var n :| 0 <= n < h && HitIds(hits[..h])[n] == id;
      HitOnLog(log, last, m, n, hits[n]);
    }
  }

  lemma CollectedTaken(rules: Rules, answers: (nat, string) -> Detail, mid: Snapshot, i: nat, hit: Hit, a: Advisory)
    requires i < |mid.queries| && Collected(answers, mid) && RecordFor(rules, answers, mid, hit, a) && a.id == hit.id
    ensures Collected(answers, Taken(mid, i, hit, a))
  {
    var after := Taken(mid, i, hit, a);
    forall id ensures Lists(after.advisories, id) <==> Referenced(after.queries, id) {
      ListsMore(mid.advisories, a, id);
      if Referenced(mid.queries, id) || id == hit.id {
        StillReferenced(mid.queries, i, hit.id, id);
      }
      if Referenced(after.queries, id) && id != hit.id {
        var k :| 0 <= k < |after.queries| && id in after.queries[k].advisories;
        assert id in mid.queries[k].advisories;
      }
    }
    if !Lists(mid.advisories, hit.id) {
      forall f | 0 <= f < |mid.advisories| ensures mid.advisories[f].id != hit.id {
      }
    }
  }

  lemma TakenOnTheWay(rules: Rules, answers: (nat, string) -> Detail, modules: seq<Module>, log: seq<Exchange>, m: nat,
                      frame: Snapshot, s: Snapshot, h: nat, mid: Snapshot, a: Advisory)
    requires Shaped(log) && log != [] && NeverOversized(rules, answers, modules, log, frame)
    requires var x := log[|log| - 1];
             && m < |x.asks| && x.asks[m].mod < |modules| && x.results[m].Some? && h < |x.results[m].value.hits|
             && Amounts(answers, frame, QueriesAt(modules, log[..|log| - 1], x, m), s)
             && Between(answers, s, x.asks[m].mod, HitIds(x.results[m].value.hits[..h]), mid)
             && RecordFor(rules, answers, mid, x.results[m].value.hits[h], a) && a.id == x.results[m].value.hits[h].id
    ensures var x := log[|log| - 1];
            !rules.oversized(Taken(mid, x.asks[m].mod, x.results[m].value.hits[h], a))
  {
    hide Collected, Visits, Within, RecordFor;
    var last := |log| - 1;
    var x := log[last];
    var i, hits := x.asks[m].mod, x.results[m].value.hits;
    var after, q := Taken(mid, i, hits[h], a), QueriesAt(modules, log[..last], x, m);
    CollectedTaken(rules, answers, mid, i, hits[h], a);
    HitIdsMore(hits, h);
    assert q[i].advisories + HitIds(hits[..h]) + [hits[h].id] == q[i].advisories + HitIds(hits[..h + 1]);
    assert after.queries == q[i := q[i].(advisories := q[i].advisories + HitIds(hits[..h + 1]))];
    assert OnTheWay(answers, modules, log, frame, last, m, h + 1, after);
  }

  class Run {
    const rules: Rules
    const batchAnswers: nat -> Reply
    const detailAnswers: (nat, string) -> Detail
    const capturedAt: string
    const identity: Identity
    const modules: seq<Module>
    var queries: seq<Query>
    var advisories: seq<Advisory>
    var errors: seq<string>
    var details: map<string, Advisory>
    var cursors: seq<Cursor>
    var batches: nat
    var fetched: nat
    ghost var log: seq<Exchange>

    constructor (rules: Rules, batchAnswers: nat -> Reply, detailAnswers: (nat, string) -> Detail, capturedAt: string,
                 identity: Identity, modules: seq<Module>)
      ensures this.rules == rules && this.batchAnswers == batchAnswers && this.detailAnswers == detailAnswers
      ensures this.capturedAt == capturedAt && this.identity == identity && this.modules == modules
      ensures queries == [] && advisories == [] && errors == [] && details == map[] && cursors == []
      ensures batches == 0 && fetched == 0 && log == []
    {
      this.rules, this.batchAnswers, this.detailAnswers := rules, batchAnswers, detailAnswers;
      this.capturedAt, this.identity, this.modules := capturedAt, identity, modules;
      queries, advisories, errors, details, cursors := [], [], [], map[], [];
      batches, fetched, log := 0, 0, [];
    }

    function Snap(): Snapshot
      reads this
    {
      Snapshot(SCHEMA, "OSV", capturedAt, identity, queries, advisories, errors)
    }

    method Stop(code: string)
      modifies this`errors
      ensures errors == old(errors) + [code]
    {
      errors := errors + [code];
    }

    /** Requests one more record. */
    method Fetch(hit: Hit) returns (ok: bool, detail: Advisory)
      requires fetched == |advisories| && !Lists(advisories, hit.id)
      modifies this`fetched, this`errors
      ensures ok ==> RecordFor(rules, detailAnswers, old(Snap()), hit, detail) && errors == old(errors)
      ensures ok ==> fetched == old(fetched) + 1 <= MAX_ADVISORIES
      ensures !ok ==> errors != [] && Unavailable(old(Snap()), hit, Snap()) && (fetched == old(fetched) || fetched <= MAX_ADVISORIES)
    {
      detail := Advisory("", "", "", [], [], "");
      if |advisories| >= MAX_ADVISORIES {
        Stop("OSV_ADVISORY_LIMIT");
        assert NoRecord(rules, detailAnswers, old(Snap()), hit, "OSV_ADVISORY_LIMIT");
        return false, detail;
      }
      var answer := detailAnswers(fetched, hit.id);
      fetched := fetched + 1;
      match answer {
        case Missing(code) =>
          Stop(code);
          assert NoRecord(rules, detailAnswers, old(Snap()), hit, code);
          return false, detail;
        case Found(a) =>
          detail := a;
      }
      if detail.id != hit.id || !rules.validAdvisory(detail) {
        Stop("OSV_DETAIL_ID_OR_SHAPE");
        assert NoRecord(rules, detailAnswers, old(Snap()), hit, "OSV_DETAIL_ID_OR_SHAPE");
        return false, detail;
      }
      return true, detail;
    }

    ghost predicate Unavailable(s: Snapshot, hit: Hit, after: Snapshot) {
      exists code :: NoRecord(rules, detailAnswers, s, hit, code) && after == Stopping(s, code)
    }

    /** The record a hit of module i refers to: fetched at most once. */
    method Resolve(i: nat, hit: Hit) returns (ok: bool, detail: Advisory)
      requires i < |queries| && fetched == |details|
      requires Catalog(rules, details, advisories, queries) && Fetched(detailAnswers, advisories)
      modifies this`advisories, this`errors, this`details, this`fetched
      ensures ok ==> RecordFor(rules, detailAnswers, old(Snap()), hit, detail) && errors == old(errors)
      ensures ok ==> advisories == WithRecord(old(advisories), detail) && fetched == |details|
      ensures ok ==> Catalog(rules, details, advisories, WithHit(queries, i, hit.id)) && Fetched(detailAnswers, advisories)
      ensures ok ==> hit.id in details && details[hit.id] == detail
      ensures !ok ==> errors != [] && Unavailable(old(Snap()), hit, Snap()) && fetched <= MAX_ADVISORIES
    {
      hide Catalog, Fetched, NoRecord, Referenced, Unavailable, WithHit;
      CatalogCollects(rules, detailAnswers, details, Snap());
      if hit.id in details {
        detail := details[hit.id];
        KnownHit(rules, details, advisories, queries, i, hit.id);
        return true, detail;
      }
      ok, detail := Fetch(hit);
      if ok {
        FetchedHit(rules, details, advisories, queries, i, detail);
        FetchedMore(detailAnswers, advisories, detail);
        details := details[hit.id := detail];
        advisories := advisories + [detail];
      }
    }

    /** One hit of module i. */
    method TakeHit(i: nat, hit: Hit) returns (ok: bool)
      requires i < |queries| == |cursors| && fetched == |details|
      requires Catalog(rules, details, advisories, queries) && Fetched(detailAnswers, advisories)
      requires cursors[i].seenIDs == Elements(queries[i].advisories)
      modifies this`queries, this`advisories, this`errors, this`details, this`cursors, this`fetched
      ensures ok ==> errors == old(errors) && fetched == |details|
      ensures ok ==> Catalog(rules, details, advisories, queries) && Fetched(detailAnswers, advisories)
      ensures ok ==> old(advisories) <= advisories && HitVetted(rules, advisories, hit)
      ensures ok ==> hit.id !in old(queries[i].advisories) && queries == WithHit(old(queries), i, hit.id)
      ensures ok ==> cursors == old(cursors)[i := old(cursors[i]).(seenIDs := old(cursors[i].seenIDs) + {hit.id})]
      ensures ok ==> HitAccepted(rules, detailAnswers, old(Snap()), i, hit)
      ensures !ok ==> errors != [] && HitObjected(rules, detailAnswers, old(Snap()), i, hit, Snap()) && fetched <= MAX_ADVISORIES
    {
      hide Catalog, Fetched, NoRecord, RecordFor, Referenced, Lists;
      ghost var s := Snap();
      CatalogBound(rules, details, advisories, queries);
      if !rules.idPattern(hit.id) || !rules.timestamp(hit.modified) || hit.id in cursors[i].seenIDs {
        Stop("OSV_HIT_INVALID");
        return false;
      }
      cursors := cursors[i := cursors[i].(seenIDs := cursors[i].seenIDs + {hit.id})];
      var detail;
      ok, detail := Resolve(i, hit);
      if !ok {
        return;
      }
      CatalogBound(rules, details, advisories, WithHit(queries, i, hit.id));
      if detail.modified != hit.modified {
        Stop("OSV_DETAIL_MODIFIED_CONFLICT");
        return false;
      }
      queries := WithHit(queries, i, hit.id);
      CatalogHit(rules, details, advisories, queries, hit);
      if rules.oversized(Snap()) {
        advisories := [];
        queries := Emptied(queries);
        Stop("OSV_SNAPSHOT_SIZE_LIMIT");
        return false;
      }
    }

    /** One result of a batch, for module i, which has been sent v so far. */
    method TakeResult(i: nat, r: Option<Page>, ghost v: seq<Visit>) returns (ok: bool)
      requires i < |queries| == |cursors| && fetched == |details|
      requires Catalog(rules, details, advisories, queries) && Fetched(detailAnswers, advisories)
      requires Tracks(queries[i], cursors[i], v) && !queries[i].complete
      modifies this`queries, this`advisories, this`errors, this`details, this`cursors, this`fetched
      ensures ok ==> errors == old(errors) && fetched == |details|
      ensures ok ==> Catalog(rules, details, advisories, queries) && Fetched(detailAnswers, advisories)
      ensures ok ==> r.Some? && |queries| == old(|queries|) && |cursors| == old(|cursors|)
      ensures ok ==> queries == old(queries)[i := queries[i]] && cursors == old(cursors)[i := cursors[i]]
      ensures ok ==> queries[i].name == old(queries[i].name) && queries[i].version == old(queries[i].version)
      ensures ok ==> Tracks(queries[i], cursors[i], v + [Visit(old(cursors[i].token), r.value)])
      ensures ok ==> AllIn(old(advisories), advisories) && PageVetted(rules, advisories, r)
      ensures !ok ==> errors != [] && PageObjected(rules, detailAnswers, old(Snap()), i, v, r, Snap()) && fetched <= MAX_ADVISORIES
    {
      hide Catalog, Fetched, Tracks, HitsVetted, AllIn, HitsObjected, Collected;
      CatalogBound(rules, details, advisories, queries);
      if r.None? || |r.value.next| > MAX_TOKEN || |r.value.hits| > MAX_ADVISORIES {
        Stop("OSV_RESULT_SHAPE");
        return false;
      }
      var page := r.value;
      ghost var q, c := queries[i], cursors[i];
      TracksIds(q, c, v);
      ok := TakeHits(i, page.hits);
      if !ok {
        return;
      }
      if page.next != "" {
        if page.next in cursors[i].seenTokens {
          CatalogBound(rules, details, advisories, queries);
          TokenRepeats(q, c, v, page.next);
          Stop("OSV_PAGE_TOKEN_CYCLE");
          return false;
        }
        PageRead(q, c, v, page, queries[i], cursors[i].seenIDs);
        cursors := cursors[i := Cursor(cursors[i].seenIDs, page.next, cursors[i].seenTokens + {page.next})];
      } else {
        SameRecords(rules, details, advisories, queries, i);
        queries := queries[i := queries[i].(complete := true)];
        PageRead(q, c, v, page, queries[i], cursors[i].seenIDs);
      }
    }

    /** The hits of one page. */
    method TakeHits(i: nat, hits: seq<Hit>) returns (ok: bool)
      requires i < |queries| == |cursors| && fetched == |details|
      requires Catalog(rules, details, advisories, queries) && Fetched(detailAnswers, advisories)
      requires cursors[i].seenIDs == Elements(queries[i].advisories) && Distinct(queries[i].advisories)
      modifies this`queries, this`advisories, this`errors, this`details, this`cursors, this`fetched
      ensures ok ==> errors == old(errors) && fetched == |details|
      ensures ok ==> Catalog(rules, details, advisories, queries) && Fetched(detailAnswers, advisories)
      ensures ok ==> Between(detailAnswers, old(Snap()), i, HitIds(hits), Snap())
      ensures ok ==> Listed(old(queries), old(cursors), queries, cursors, i, HitIds(hits))
      ensures ok ==> AllIn(old(advisories), advisories)
      ensures ok ==> HitsVetted(rules, advisories, hits)
      ensures !ok ==> errors != [] && HitsObjected(rules, detailAnswers, old(Snap()), i, hits, Snap()) && fetched <= MAX_ADVISORIES
    {
      hide Catalog, Fetched, HitVetted, HitsVetted, AllIn, HitObjected, HitAccepted, Collected, Between, Listed;
      WithinSelf(advisories);
      ghost var s := Snap();
      CatalogCollects(rules, detailAnswers, details, s);
      BetweenNone(detailAnswers, s, i);
      NoneListed(queries, cursors, i);
      assert HitIds(hits[..0]) == [];
      NoHits(rules, advisories, hits);
      var h := 0;
      while h < |hits|
        invariant 0 <= h <= |hits| && Listed(old(queries), old(cursors), queries, cursors, i, HitIds(hits[..h]))
        invariant errors == old(errors) && fetched == |details|
        invariant Catalog(rules, details, advisories, queries) && Fetched(detailAnswers, advisories)
        invariant Between(detailAnswers, s, i, HitIds(hits[..h]), Snap())
        invariant AllIn(old(advisories), advisories) && HitsVetted(rules, advisories, hits[..h])
      {
        ghost var queries0, cursors0, known, mid := queries, cursors, advisories, Snap();
        ListedSizes(old(queries), old(cursors), queries, cursors, i, HitIds(hits[..h]));
        ok := TakeHit(i, hits[h]);
        if !ok {
          return;
        }
        CatalogCollects(rules, detailAnswers, details, Snap());
        BetweenMore(detailAnswers, s, i, hits, h, mid, Snap());
        PrefixWithin(known, advisories);
        WithinTransitive(old(advisories), known, advisories);
        HitsMore(rules, known, advisories, hits, h);
        HitIdsMore(hits, h);
        ListedMore(old(queries), old(cursors), queries0, cursors0, i, HitIds(hits[..h]), hits[h].id);
        h := h + 1;
      }
      assert hits[..h] == hits;
      return true;
    }

    ghost function Frame(): Snapshot {
      Snapshot(SCHEMA, "OSV", capturedAt, identity, [], [], [])
    }

    /** Between two batch requests: every module tracked, records catalogued, the log what was really exchanged. */
    ghost predicate Ready()
      reads this
    {
      && Named(queries, modules) && Catalog(rules, details, advisories, queries) && fetched == |details|
      && Fetched(detailAnswers, advisories) && errors == []
      && Shaped(log) && AllTracked(queries, cursors, log) && Exchanged(log, modules, batchAnswers) && batches == |log|
      && LogVetted(rules, advisories, log)
    }

    /** A run stopped: for one of the reasons there are, after the exchanges of the log. */
    ghost predicate Halted()
      reads this
    {
      && errors != [] && fetched <= MAX_ADVISORIES && Shaped(log) && Exchanged(log, modules, batchAnswers)
      && RunObjected(rules, batchAnswers, detailAnswers, modules, log, Frame(), Snap())
    }

    /** One batch request for the open modules of the batch at start and the processing of its answer. */
    method RequestPage(ghost start: nat, pending: seq<nat>) returns (ok: bool, still: seq<nat>)
      requires Ready() && 0 < |modules| <= MAX_MODULES && pending != [] && Ascending(pending) && start % BATCH == 0
      requires forall i: nat :: i < start && i < |queries| ==> queries[i].complete
      requires forall i: nat :: i in pending <==> start <= i < start + BATCH && i < |queries| && !queries[i].complete
      modifies this
      ensures batches == old(batches) + 1
      ensures ok ==> Ready() && Processed(old(queries), queries, pending, |pending|, still)
      ensures ok ==> Shaped(log) && forall i: nat :: |Visits(log, i)| == old(|Visits(log, i)|) + if i in pending then 1 else 0
      ensures !ok ==> Halted()
    {
      hide Catalog, Fetched, Tracks, AllTracked, Tracked, PagesVetted, AllIn, Due, Exchanged, AnswerObjected, Amounts, Visits,
           LogVetted, Named;
      still := [];
      ghost var known, before := advisories, log;
      ReadyAt();
      TrackedSizes(queries, cursors, log);
      NamedSizes(queries, modules);
      PendingIsDue(modules, queries, cursors, log, start, pending);
      var asks := AsksFor(pending, modules, cursors);
      var reply := batchAnswers(batches);
      batches := batches + 1;
      if reply.Failed? {
        Stop(reply.code);
        return false, still;
      }
      if |reply.results| != |pending| {
        Stop("OSV_RESULT_COUNT");
        return false, still;
      }
      ghost var x := Exchange(asks, reply.results);
      log := log + [x];
      TrackedStart(queries, cursors, before, x);
      ExchangedSnoc(before, modules, batchAnswers, x);
      WaitingStart(queries, cursors, x);
      ok, still := ProcessAnswer(pending, reply.results, before, x);
      assert log[..|log| - 1] == before;
      if ok {
        TrackedEnd(queries, cursors, before, x);
        LogStaysVetted(rules, known, advisories, before);
        LogVettedMore(rules, advisories, before, x);
        VisitsMore(rules, advisories, before, x, pending);
      }
    }

    lemma ReadyAt()
      requires Ready()
      ensures Amounts(detailAnswers, Frame(), QueriesAfter(modules, log), Snap()) && fetched <= MAX_ADVISORIES
    {
      hide Catalog, Fetched, AllTracked, Exchanged, LogVetted, Collected, Named;
      CatalogCollects(rules, detailAnswers, details, Snap());
      QueriesAllTracked(queries, cursors, modules, log);
    }

    /** The results of one batch, position by position. */
    method ProcessAnswer(pending: seq<nat>, results: seq<Option<Page>>, ghost before: seq<Exchange>, ghost x: Exchange)
      returns (ok: bool, still: seq<nat>)
      requires Shaped(before) && |x.asks| == |x.results| == |pending| == |results| && x.results == results
      requires Ascending(pending) && forall m :: 0 <= m < |pending| ==> x.asks[m].mod == pending[m]
      requires Catalog(rules, details, advisories, queries) && Fetched(detailAnswers, advisories)
      requires Named(queries, modules) && fetched == |details| && errors == []
      requires Tracked(queries, cursors, before, x, 0) && Waiting(queries, cursors, x, 0)
      modifies this`queries, this`advisories, this`errors, this`details, this`cursors, this`fetched
      ensures ok ==> Catalog(rules, details, advisories, queries) && Fetched(detailAnswers, advisories)
      ensures ok ==> Named(queries, modules) && fetched == |details|
      ensures ok ==> Tracked(queries, cursors, before, x, |x.asks|) && errors == []
      ensures ok ==> AllIn(old(advisories), advisories) && PagesVetted(rules, advisories, results)
      ensures ok ==> Processed(old(queries), queries, pending, |pending|, still)
      ensures !ok ==> errors != [] && AnswerObjected(rules, detailAnswers, modules, before, x, Frame(), Snap()) && fetched <= MAX_ADVISORIES
    {
      hide Catalog, Fetched, Tracks, Tracked, Waiting, Processed, AllIn, PageVetted, PagesVetted, Named, Collected,
           PageObjected, Visits, Within;
      still := [];
      NoneProcessed(queries, pending);
      WithinSelf(advisories);
      NonePaged(rules, advisories, results);
      var pos := 0;
      while pos < |pending|
        invariant 0 <= pos <= |pending| && errors == [] && fetched == |details|
        invariant Catalog(rules, details, advisories, queries) && Fetched(detailAnswers, advisories)
        invariant Named(queries, modules)
        invariant Tracked(queries, cursors, before, x, pos) && Waiting(queries, cursors, x, pos)
        invariant Processed(old(queries), queries, pending, pos, still)
        invariant AllIn(old(advisories), advisories) && PagesVetted(rules, advisories, results[..pos])
      {
        var i := pending[pos];
        ghost var queries0, cursors0, known, s := queries, cursors, advisories, Snap();
        TracksAt(queries, cursors, before, x, pos);
        CatalogCollects(rules, detailAnswers, details, s);
        QueriesTracked(queries, cursors, modules, before, x, pos);
        NamedSizes(queries, modules);
        ok := TakeResult(i, results[pos], Visits(before, i) + Within(x, i, pos));
        if !ok {
          assert ResultObjected(rules, detailAnswers, modules, before, x, pos, Frame(), s, Snap());
          return;
        }
        TrackedStep(queries0, cursors0, before, x, pos, queries, cursors);
        ProcessedStep(old(queries), queries0, queries, pending, pos, still);
        StillNamed(queries0, queries, modules, i);
        WithinTransitive(old(advisories), known, advisories);
        PagesMore(rules, known, advisories, results, pos);
        if !queries[i].complete {
          still := still + [i];
        }
        pos := pos + 1;
      }
      assert results[..pos] == results;
      return true, still;
    }

    /** The page loop of one batch of modules. */
    method CaptureBatch(start: nat, end: nat) returns (ok: bool)
      requires 0 < |modules| <= MAX_MODULES && start % BATCH == 0 && Ready()
      requires start < |queries| && end == if start + BATCH < |queries| then start + BATCH else |queries|
      requires forall i :: 0 <= i < |queries| ==> queries[i].complete == (i < start)
      requires Shaped(log) && forall i: nat :: i >= start ==> Visits(log, i) == []
      modifies this
      ensures batches <= old(batches) + MAX_PAGES
      ensures ok ==> Ready() && |queries| == old(|queries|)
      ensures ok ==> forall i :: 0 <= i < |queries| ==> queries[i].complete == (i < end)
      ensures ok ==> Shaped(log) && forall i: nat :: i >= end ==> Visits(log, i) == []
      ensures !ok ==> Halted()
    {
      hide Ready, Visits, RunObjected;
      var pending: seq<nat> := seq(end - start, k requires 0 <= k < end - start => start + k);
      InitiallyOpen(old(queries), start, end, pending);
      var page := 0;
      while |pending| > 0
        invariant 0 <= page <= MAX_PAGES && batches == old(batches) + page
        invariant Ready() && Open(old(queries), queries, start, end, pending)
        invariant Shaped(log) && forall i: nat :: i in pending ==> |Visits(log, i)| == page
        invariant forall i: nat :: i >= end ==> Visits(log, i) == []
        decreases MAX_PAGES - page
      {
        ReadyBound();
        if page >= MAX_PAGES {
          Exceeded(pending[0]);
          Stop("OSV_PAGE_LIMIT");
          return false;
        }
        ghost var queries0 := queries;
        var still;
        ok, still := RequestPage(start, pending);
        page := page + 1;
        if !ok {
          return;
        }
        OpenStep(old(queries), queries0, queries, start, end, pending, still);
        pending := still;
      }
      NoneOpen(old(queries), queries, start, end);
      return true;
    }

    /** A module still open after 16 pages stops the run. */
    lemma Exceeded(i: nat)
      requires Ready() && 0 < |modules| <= MAX_MODULES && i < |queries| && !queries[i].complete
      requires |Visits(log, i)| >= MAX_PAGES
      ensures Shaped(log) && Exchanged(log, modules, batchAnswers)
      ensures RunObjected(rules, batchAnswers, detailAnswers, modules, log, Frame(), Stopping(Snap(), "OSV_PAGE_LIMIT"))
    {
      hide Catalog, Fetched, Exchanged, LogVetted, Amounts, Visits;
      ReadyAt();
      assert Tracks(queries[i], cursors[i], Visits(log, i));
      assert PagesExceeded(modules, log, Snap(), Stopping(Snap(), "OSV_PAGE_LIMIT"));
    }

    lemma ReadyBound()
      requires Ready()
      ensures fetched <= MAX_ADVISORIES && |queries| == |modules|
    {
    }

    /** The batches of 16 modules, one after the other. */
    method CaptureBatches() returns (ok: bool)
      requires 0 < |modules| <= MAX_MODULES && Ready() && batches == 0 && Shaped(log)
      requires forall i: nat :: Visits(log, i) == []
      requires forall i :: 0 <= i < |queries| ==> !queries[i].complete
      modifies this
      ensures batches <= MAX_PAGES * Batches(|modules|)
      ensures ok ==> Ready() && forall i :: 0 <= i < |queries| ==> queries[i].complete
      ensures !ok ==> Halted()
    {
      hide Ready, Visits, Halted;
      ReadyBound();
      var start := 0;
      ghost var done := 0;
      while start < |modules|
        invariant 0 <= start && Ready() && |queries| == |modules|
        invariant Shaped(log) && forall i: nat :: i >= start ==> Visits(log, i) == []
        invariant batches <= MAX_PAGES * done && done == Batches(if start < |modules| then start else |modules|)
        invariant start >= |modules| || start == BATCH * done
        invariant forall i :: 0 <= i < |queries| ==> queries[i].complete == (i < start)
      {
        var end := if start + BATCH < |modules| then start + BATCH else |modules|;
        ok := CaptureBatch(start, end);
        BatchesStep(start, |modules|, done);
        if !ok {
          MoreBatches(done + 1, Batches(|modules|), batches);
          return;
        }
        start := start + BATCH;
        done := done + 1;
      }
      return true;
    }

    /** capture: the whole run, with the final sorting. */
    method CaptureAll() returns (s: Snapshot)
      requires queries == [] && advisories == [] && errors == [] && details == map[] && cursors == []
      requires batches == 0 && fetched == 0 && log == []
      modifies this
      ensures s.schema == SCHEMA && s.provider == "OSV" && s.identity == identity && s.capturedAt == capturedAt
      ensures Shaped(log) && Exchanged(log, modules, batchAnswers)
      ensures if s.errors == [] then Captured(rules, modules, batchAnswers, log, s)
              else RunObjected(rules, batchAnswers, detailAnswers, modules, log, Frame(), s)
      ensures Orderly(rules, batchAnswers, detailAnswers, modules, log, Frame()) ==> s.errors == []
      ensures s.errors == [] ==> Provided(detailAnswers, s.advisories)
      ensures fetched <= 256 && batches <= 16 * ((|modules| + 15) / 16)
    {
      hide Captured, RunObjected, Orderly, Catalog, AllTracked, LogVetted, Fetched, Provided;
      if |modules| == 0 || |modules| > MAX_MODULES {
        Stop("QUERY_MODULE_LIMIT");
        ModuleLimit();
        OrderlyEnds();
        return Snap();
      }
      queries := EmptyQueries(modules);
      cursors := seq(|modules|, _ => Cursor({}, "", {}));
      ReadyAtStart();
      var ok := CaptureBatches();
      if !ok {
        OrderlyEnds();
        return Snap();
      }
      ReadyBound();
      CapturedAtEnd();
      FetchedProvided(detailAnswers, advisories, SortById(advisories));
      queries := SortedQueries(queries);
      advisories := SortById(advisories);
      return Snap();
    }

    lemma OrderlyEnds()
      requires Shaped(log) && Exchanged(log, modules, batchAnswers)
      requires RunObjected(rules, batchAnswers, detailAnswers, modules, log, Frame(), Snap())
      ensures !Orderly(rules, batchAnswers, detailAnswers, modules, log, Frame())
    {
      hide Exchanged, RunObjected, Orderly;
      if Orderly(rules, batchAnswers, detailAnswers, modules, log, Frame()) {
        OrderlyStopsNothing(rules, batchAnswers, detailAnswers, modules, log, Frame(), Snap());
      }
    }

    lemma ModuleLimit()
      requires !(0 < |modules| <= MAX_MODULES) && queries == [] && advisories == [] && errors == ["QUERY_MODULE_LIMIT"]
      requires Shaped(log)
      ensures RunObjected(rules, batchAnswers, detailAnswers, modules, log, Frame(), Snap())
    {
    }

    lemma ReadyAtStart()
      requires |queries| == |cursors| == |modules| && queries == EmptyQueries(modules)
      requires forall i :: 0 <= i < |cursors| ==> cursors[i] == Cursor({}, "", {})
      requires advisories == [] && details == map[] && log == [] && batches == 0 && fetched == 0 && errors == []
      ensures Ready() && forall i: nat :: Visits(log, i) == []
    {
    }

    lemma CapturedAtEnd()
      requires Ready() && 0 < |modules| <= MAX_MODULES && forall i :: 0 <= i < |queries| ==> queries[i].complete
      ensures Captured(rules, modules, batchAnswers, log,
                Snapshot(SCHEMA, "OSV", capturedAt, identity, SortedQueries(queries), SortById(advisories), errors))
    {
      hide Tracks, Catalog, SortById, SortedQueries, Visits;
      LogStaysVetted(rules, advisories, SortById(advisories), log);
      forall i | 0 <= i < |queries| ensures CapturedQuery(SortedQueries(queries)[i], modules[i], Visits(log, i)) {
        QuerySorted(queries, cursors[i], Visits(log, i), i);
      }
      CatalogSorted(rules, details, advisories, queries);
    }
  }

  lemma CatalogHit(rules: Rules, details: map<string, Advisory>, advisories: seq<Advisory>, queries: seq<Query>, h: Hit)
    requires Catalog(rules, details, advisories, queries) && h.id in details && details[h.id].modified == h.modified
    requires rules.idPattern(h.id) && rules.timestamp(h.modified)
    ensures HitVetted(rules, advisories, h)
  {
  }

  lemma CatalogBound(rules: Rules, details: map<string, Advisory>, advisories: seq<Advisory>, queries: seq<Query>)
    requires Catalog(rules, details, advisories, queries)
    ensures |details| <= MAX_ADVISORIES
  {
  }

  lemma TracksIds(q: Query, c: Cursor, v: seq<Visit>)
    requires Tracks(q, c, v)
    ensures c.seenIDs == Elements(q.advisories) && Distinct(q.advisories)
  {
  }

  lemma TokenRepeats(q: Query, c: Cursor, v: seq<Visit>, token: string)
    requires Tracks(q, c, v) && token in c.seenTokens && token != ""
    ensures Repeats(v, token)
  {
  }

  lemma SameRecords(rules: Rules, details: map<string, Advisory>, advisories: seq<Advisory>, queries: seq<Query>,
                    i: nat)
    requires Catalog(rules, details, advisories, queries) && i < |queries|
    ensures Catalog(rules, details, advisories, queries[i := queries[i].(complete := true)])
  {
    hide Listing;
    var after := queries[i := queries[i].(complete := true)];
    forall id | id in details ensures Referenced(after, id) {
      var k :| 0 <= k < |queries| && id in queries[k].advisories;
      assert id in after[k].advisories;
    }
  }

  predicate Ascending(s: seq<nat>) {
    forall a, b :: 0 <= a < b < |s| ==> s[a] < s[b]
  }

  /** One query a module, under the module's own name and version. */
  predicate Named(queries: seq<Query>, modules: seq<Module>) {
    |queries| == |modules|
    && forall i :: 0 <= i < |queries| ==> queries[i].name == modules[i].name && queries[i].version == modules[i].version
  }

  function AsksFor(pending: seq<nat>, modules: seq<Module>, cursors: seq<Cursor>): (r: seq<Ask>)
    requires |cursors| == |modules| && forall m :: 0 <= m < |pending| ==> pending[m] < |modules|
    ensures |r| == |pending|
    ensures forall m :: 0 <= m < |r| ==>
              var i := pending[m]; r[m] == Ask(i, modules[i].name, modules[i].version, cursors[i].token)
  {
    seq(|pending|, m requires 0 <= m < |pending| =>
      Ask(pending[m], modules[pending[m]].name, modules[pending[m]].version, cursors[pending[m]].token))
  }

  /** Each exchange asked what was due, and its results are the provider's answer to it. */
  ghost predicate Exchanged(log: seq<Exchange>, modules: seq<Module>, answers: nat -> Reply)
    requires Shaped(log)
  {
    && (forall k :: 0 <= k < |log| ==> answers(k) == Results(log[k].results))
    && (forall k :: 0 <= k < |log| ==> Due(modules, log[..k], log[k].asks))
  }

  lemma ExchangedSnoc(log: seq<Exchange>, modules: seq<Module>, answers: nat -> Reply, x: Exchange)
    requires Shaped(log) && Exchanged(log, modules, answers) && answers(|log|) == Results(x.results)
    requires Due(modules, log, x.asks) && |x.asks| == |x.results|
    ensures Shaped(log + [x]) && Exchanged(log + [x], modules, answers)
  {
    hide Due;
    var all := log + [x];
    forall k | 0 <= k < |all| ensures Due(modules, all[..k], all[k].asks) {
      assert all[..k] == log[..k];
      if k == |log| {
        assert log[..k] == log;
      }
    }
  }

  lemma WaitingStart(queries: seq<Query>, cursors: seq<Cursor>, x: Exchange)
    requires |queries| == |cursors| && (forall a, b :: 0 <= a < b < |x.asks| ==> x.asks[a].mod < x.asks[b].mod)
    requires forall m :: 0 <= m < |x.asks| ==>
               && x.asks[m].mod < |queries| && !queries[x.asks[m].mod].complete
               && x.asks[m].token == cursors[x.asks[m].mod].token
    ensures Waiting(queries, cursors, x, 0)
  {
  }

  lemma NamedSizes(queries: seq<Query>, modules: seq<Module>)
    requires Named(queries, modules)
    ensures |queries| == |modules|
  {
  }

  lemma StillNamed(queries: seq<Query>, after: seq<Query>, modules: seq<Module>, i: nat)
    requires Named(queries, modules) && i < |queries| == |after| && after == queries[i := after[i]]
    requires after[i].name == queries[i].name && after[i].version == queries[i].version
    ensures Named(after, modules)
  {
  }

  lemma NonePaged(rules: Rules, a: seq<Advisory>, results: seq<Option<Page>>)
    ensures PagesVetted(rules, a, results[..0])
  {
  }

  lemma PagesMore(rules: Rules, a: seq<Advisory>, b: seq<Advisory>, results: seq<Option<Page>>, n: nat)
    requires n < |results| && PagesVetted(rules, a, results[..n]) && AllIn(a, b) && PageVetted(rules, b, results[n])
    ensures PagesVetted(rules, b, results[..n + 1])
  {
    PagesStayVetted(rules, a, b, results[..n]);
    assert results[..n + 1] == results[..n] + [results[n]];
  }

  lemma LogVettedMore(rules: Rules, a: seq<Advisory>, log: seq<Exchange>, x: Exchange)
    requires LogVetted(rules, a, log) && PagesVetted(rules, a, x.results)
    ensures LogVetted(rules, a, log + [x])
  {
  }

  /** An answered exchange adds one page to each module asked for and none to the others. */
  lemma VisitsMore(rules: Rules, a: seq<Advisory>, before: seq<Exchange>, x: Exchange, pending: seq<nat>)
    requires Shaped(before) && |x.asks| == |x.results| == |pending| && Ascending(pending) && PagesVetted(rules, a, x.results)
    requires forall m :: 0 <= m < |pending| ==> x.asks[m].mod == pending[m]
    ensures Shaped(before + [x])
    ensures forall i: nat :: |Visits(before + [x], i)| == |Visits(before, i)| + if i in pending then 1 else 0
  {
    hide HitsVetted;
    var all := before + [x];
    assert all[..|all| - 1] == before;
    forall i: nat ensures |Within(x, i, |x.asks|)| == if i in pending then 1 else 0 {
      PagesWithin(x, i, |x.asks|, pending);
      assert pending[..|x.asks|] == pending;
    }
  }

  lemma {:induction false} PagesWithin(x: Exchange, i: nat, n: nat, pending: seq<nat>)
    requires n <= |x.asks| == |x.results| == |pending| && Ascending(pending)
    requires forall m :: 0 <= m < |pending| ==> x.asks[m].mod == pending[m] && x.results[m].Some?
    ensures |Within(x, i, n)| == if i in pending[..n] then 1 else 0
  {
    if n > 0 {
      PagesWithin(x, i, n - 1, pending);
      assert pending[..n] == pending[..n - 1] + [pending[n - 1]];
    }
  }

  lemma TrackedSizes(queries: seq<Query>, cursors: seq<Cursor>, log: seq<Exchange>)
    requires Shaped(log) && AllTracked(queries, cursors, log)
    ensures |queries| == |cursors|
    ensures forall i :: 0 <= i < |queries| ==> Tracks(queries[i], cursors[i], Visits(log, i))
  {
  }

  lemma TracksAt(queries: seq<Query>, cursors: seq<Cursor>, before: seq<Exchange>, x: Exchange, n: nat)
    requires Shaped(before) && n < |x.asks| == |x.results| && Tracked(queries, cursors, before, x, n)
    requires Waiting(queries, cursors, x, n)
    ensures var i := x.asks[n].mod;
            && |queries| == |cursors| && i < |queries| && !queries[i].complete
            && Tracks(queries[i], cursors[i], Visits(before, i) + Within(x, i, n))
  {
  }

  /** What n processed results did: other queries are untouched, still lists the open ones among them, in order. */
  ghost predicate Processed(before: seq<Query>, after: seq<Query>, pending: seq<nat>, n: nat, still: seq<nat>)
    requires n <= |pending|
  {
    && |after| == |before|
    && (forall i :: 0 <= i < |after| && i !in pending[..n] ==> after[i] == before[i])
    && Ascending(still)
    && (forall i :: i in still <==> i in pending[..n] && i < |after| && !after[i].complete)
  }

  lemma NoneProcessed(queries: seq<Query>, pending: seq<nat>)
    ensures Processed(queries, queries, pending, 0, [])
  {
  }

  lemma ProcessedStep(before: seq<Query>, queries: seq<Query>, after: seq<Query>, pending: seq<nat>, n: nat,
                      still: seq<nat>)
    requires Ascending(pending) && n < |pending| && pending[n] < |queries|
    requires Processed(before, queries, pending, n, still)
    requires |after| == |queries| && after == queries[pending[n] := after[pending[n]]]
    ensures Processed(before, after, pending, n + 1, if after[pending[n]].complete then still else still + [pending[n]])
  {
    var i := pending[n];
    var more := if after[i].complete then still else still + [i];
    assert pending[..n + 1] == pending[..n] + [i];
    NextOpen(pending, n, still);
    forall k | 0 <= k < n ensures pending[..n][k] != i {
    }
    forall j: nat ensures j in more <==> j in pending[..n + 1] && j < |after| && !after[j].complete {
      if j != i {
        assert j in more <==> j in still;
      }
    }
    forall a, b | 0 <= a < b < |more| ensures more[a] < more[b] {
      if b == |still| {
        assert still[a] in still;
      }
    }
  }

  lemma NextOpen(pending: seq<nat>, pos: nat, still: seq<nat>)
    requires Ascending(pending) && pos < |pending| && forall i :: i in still ==> i in pending[..pos]
    ensures forall i :: i in still ==> i < pending[pos]
  {
  }

  // ---------------------------------------------------------------- the page loop

  /** Modules of the batch are pending exactly while incomplete; the others are as before. */
  ghost predicate Open(before: seq<Query>, after: seq<Query>, start: nat, end: nat, pending: seq<nat>) {
    && |after| == |before| && end <= |after| && Ascending(pending)
    && (forall i :: i in pending <==> start <= i < end && !after[i].complete)
    && (forall i :: 0 <= i < |after| && !(start <= i < end) ==> after[i] == before[i])
    && (forall m :: 0 <= m < |pending| ==> pending[m] < |after| && !after[pending[m]].complete)
  }

  lemma InitiallyOpen(queries: seq<Query>, start: nat, end: nat, pending: seq<nat>)
    requires start <= end <= |queries| && forall i :: start <= i < end ==> !queries[i].complete
    requires |pending| == end - start && forall k :: 0 <= k < |pending| ==> pending[k] == start + k
    ensures Open(queries, queries, start, end, pending)
  {
    forall i: nat | start <= i < end ensures i in pending {
      assert pending[i - start] == i;
    }
  }

  lemma OpenStep(before: seq<Query>, queries: seq<Query>, after: seq<Query>, start: nat, end: nat, pending: seq<nat>,
                 still: seq<nat>)
    requires Open(before, queries, start, end, pending) && Processed(queries, after, pending, |pending|, still)
    ensures Open(before, after, start, end, still)
  {
    assert pending[..|pending|] == pending;
    forall i: nat ensures i in still <==> start <= i < end && !after[i].complete {
      if start <= i < end && i !in pending {
        assert after[i] == queries[i];
      }
    }
    forall m | 0 <= m < |still| ensures still[m] < |after| && !after[still[m]].complete {
      assert still[m] in still;
    }
  }

  lemma NoneOpen(before: seq<Query>, after: seq<Query>, start: nat, end: nat)
    requires Open(before, after, start, end, [])
    ensures forall i :: start <= i < end ==> after[i].complete
    ensures forall i :: 0 <= i < |after| && !(start <= i < end) ==> after[i] == before[i]
  {
  }

  /** How many batches of 16 this many modules need. */
  function Batches(n: nat): (r: nat)
    ensures r == (n + 15) / 16
  {
    if n == 0 then 0 else if n <= BATCH then 1 else 1 + Batches(n - BATCH)
  }

  lemma {:induction false} BatchesFull(k: nat, rest: nat)
    ensures Batches(BATCH * k + rest) == k + Batches(rest)
  {
    if k > 0 {
      BatchesFull(k - 1, rest);
      assert BATCH * k + rest == BATCH * (k - 1) + rest + BATCH;
      BatchesOne(BATCH * (k - 1) + rest);
    }
  }

  lemma BatchesOne(n: nat)
    ensures Batches(n + BATCH) == 1 + Batches(n)
  {
  }

  lemma BatchesStep(start: nat, n: nat, done: nat)
    requires start < n && start == BATCH * done && done == Batches(start)
    ensures done + 1 == Batches(if start + BATCH < n then start + BATCH else n) && done + 1 <= Batches(n)
  {
    BatchesFull(done, n - start);
    BatchesFull(done, BATCH);
  }

  lemma MoreBatches(k: nat, m: nat, used: nat)
    requires k <= m && used <= MAX_PAGES * k
    ensures used <= MAX_PAGES * m
  {
  }

  // ---------------------------------------------------------------- the finished snapshot

  function EmptyQueries(modules: seq<Module>): (r: seq<Query>)
    ensures |r| == |modules| && forall i :: 0 <= i < |r| ==> r[i] == Query(modules[i].name, modules[i].version, false, [])
  {
    seq(|modules|, i requires 0 <= i < |modules| => Query(modules[i].name, modules[i].version, false, []))
  }

  /** sort.Strings. */
  function SortStrings(s: seq<string>): (r: seq<string>)
    ensures |r| == |s| && Elements(r) == Elements(s)
  {
    Sorting.SortBy((x: string) => x, s)
  }

  lemma SortSorted(s: seq<string>)
    requires Distinct(s)
    ensures StrictlySorted(SortStrings(s))
  {
    Sorting.SortAscends((x: string) => x, s);
  }

  function SortedQueries(queries: seq<Query>): (r: seq<Query>)
    ensures |r| == |queries|
    ensures forall i :: 0 <= i < |r| ==> r[i] == queries[i].(advisories := SortStrings(queries[i].advisories))
  {
    seq(|queries|, i requires 0 <= i < |queries| => queries[i].(advisories := SortStrings(queries[i].advisories)))
  }

  function IdOf(a: Advisory): string {
    a.id
  }

  /** The advisories in the order of their ids. */
  function SortById(s: seq<Advisory>): (r: seq<Advisory>)
    ensures |r| == |s| && forall y :: y in r <==> y in s
  {
    Sorting.SortBy(IdOf, s)
  }

  predicate IdsAscend(s: seq<Advisory>) {
    forall i, j :: 0 <= i < j < |s| ==> Less(s[i].id, s[j].id)
  }

  lemma SortByIdAscends(s: seq<Advisory>)
    requires forall a, b :: 0 <= a < b < |s| ==> s[a].id != s[b].id
    ensures IdsAscend(SortById(s))
  {
    Sorting.SortAscends(IdOf, s);
  }

  /** A complete query: the ids its module's pages returned, in order, the pages read to the last one. */
  ghost predicate CapturedQuery(q: Query, m: Module, v: seq<Visit>) {
    && q.name == m.name && q.version == m.version && q.complete && Finished(v) && Chain(v)
    && StrictlySorted(q.advisories) && Elements(q.advisories) == Elements(IdsOf(v))
  }

  /** What a snapshot without errors holds, whatever the provider answered. */
  ghost predicate Captured(rules: Rules, modules: seq<Module>, answers: nat -> Reply, log: seq<Exchange>, s: Snapshot) {
    && 1 <= |modules| <= 128 && |s.queries| == |modules|
    && Shaped(log) && Exchanged(log, modules, answers) && LogVetted(rules, s.advisories, log)
    && (forall i :: 0 <= i < |modules| ==> CapturedQuery(s.queries[i], modules[i], Visits(log, i)))
    && |s.advisories| <= 256 && IdsAscend(s.advisories)
    && (forall a :: a in s.advisories ==> rules.validAdvisory(a))
    && (forall id :: (exists a :: a in s.advisories && a.id == id) <==> Referenced(s.queries, id))
  }

  lemma QuerySorted(queries: seq<Query>, c: Cursor, v: seq<Visit>, i: nat)
    requires i < |queries| && Tracks(queries[i], c, v) && queries[i].complete
    ensures var q := SortedQueries(queries)[i];
            && q.name == queries[i].name && q.version == queries[i].version && q.complete && Finished(v) && Chain(v)
            && StrictlySorted(q.advisories) && Elements(q.advisories) == Elements(IdsOf(v))
  {
    hide Chain, SortStrings;
    SortSorted(queries[i].advisories);
  }

  lemma CatalogSorted(rules: Rules, details: map<string, Advisory>, advisories: seq<Advisory>, queries: seq<Query>)
    requires Catalog(rules, details, advisories, queries)
    ensures |SortById(advisories)| <= MAX_ADVISORIES && IdsAscend(SortById(advisories))
    ensures forall a :: a in SortById(advisories) ==> rules.validAdvisory(a)
    ensures forall id :: (exists a :: a in SortById(advisories) && a.id == id) <==> Referenced(SortedQueries(queries), id)
  {
    hide SortById, SortStrings;
    SortByIdAscends(advisories);
    forall id ensures (exists a :: a in SortById(advisories) && a.id == id) <==> Referenced(SortedQueries(queries), id) {
      SameReferences(queries, id);
      if Referenced(queries, id) {
        var i :| 0 <= i < |queries| && id in queries[i].advisories;
        assert id in Elements(queries[i].advisories);
        var k :| 0 <= k < |advisories| && advisories[k].id == id;
        assert advisories[k] in SortById(advisories);
      }
    }
  }

  lemma SameReferences(queries: seq<Query>, id: string)
    ensures Referenced(SortedQueries(queries), id) <==> Referenced(queries, id)
  {
  }
}
