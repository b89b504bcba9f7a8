/** The single pass against the OSV Schema: affected versions, fixes, and what a limit event does. */
module OsvSchema {
  import opened Text
  import opened SemVer
  import opened OsvRange

  // ---------------------------------------------------------------- sorting changes nothing

  lemma SortedStartsLeast(cs: seq<Change>, sorted: seq<Change>)
    requires cs != [] && Ascending(cs) && Sorted(sorted) && multiset(sorted) == multiset(cs)
    ensures sorted != [] && sorted[0] == cs[0]
  {
    hide Before;
    assert |sorted| == |multiset(sorted)| == |multiset(cs)| == |cs|;
    var first, least := sorted[0], cs[0];
    assert first in multiset(sorted) && least in multiset(cs);
    assert least in multiset(sorted) && first in multiset(cs);
    var i :| 0 <= i < |sorted| && sorted[i] == least;
    var j :| 0 <= j < |cs| && cs[j] == first;
    if j > 0 {
      assert Before(least.at, first.at);
      BeforeIrreflexive(least.at);
    }
  }

  lemma TailsOrdered(cs: seq<Change>, sorted: seq<Change>)
    requires cs != [] && sorted != [] && Ascending(cs) && Sorted(sorted)
    ensures Ascending(cs[1..]) && Sorted(sorted[1..])
  {
  }

  lemma {:induction false} SortedIsUnique(cs: seq<Change>, sorted: seq<Change>)
    requires Ascending(cs) && Sorted(sorted) && multiset(sorted) == multiset(cs)
    ensures sorted == cs
  {
    hide Ascending, Sorted;
    if cs == [] {
      assert |sorted| == |multiset(sorted)| == 0;
    } else {
      SortedStartsLeast(cs, sorted);
      TailsOrdered(cs, sorted);
      MultisetTail(cs);
      MultisetTail(sorted);
      SortedIsUnique(cs[1..], sorted[1..]);
      assert sorted == [cs[0]] + sorted[1..] && cs == [cs[0]] + cs[1..];
    }
  }

  lemma MultisetTail(cs: seq<Change>)
    requires cs != []
    ensures multiset(cs[1..]) == multiset(cs) - multiset{cs[0]}
  {
    assert cs == [cs[0]] + cs[1..];
  }

  lemma {:induction false} AscendingIsSorted(cs: seq<Change>)
    requires WellFormed(cs)
    ensures Sorted(cs)
  {
    forall i, j | 0 <= i < j < |cs| ensures !Before(cs[j].at, cs[i].at) {
      BeforeAsymmetric(cs[i].at, cs[j].at);
    }
  }

  /** On an accepted list the schema's answer is its own left-to-right evaluation. */
  lemma SchemaOnAccepted(v: string, cs: seq<Change>, answer: bool)
    requires WellFormed(cs)
    ensures SchemaAnswers(v, cs, answer) <==> answer == (BeforeLimits(v, cs) && Evaluate(v, cs))
  {
    AscendingIsSorted(cs);
    forall sorted | multiset(sorted) == multiset(cs) && Sorted(sorted) ensures sorted == cs {
      SortedIsUnique(cs, sorted);
    }
    if answer == (BeforeLimits(v, cs) && Evaluate(v, cs)) {
      assert multiset(cs) == multiset(cs);
    }
  }

  /** Without limit events the pass returns exactly what the schema defines. */
  lemma PassIsSchema(v: string, r: Range, answer: bool)
    requires AcceptedRange(v, r) && !HasLimit(Changes(r.events))
    ensures SchemaAnswers(v, Changes(r.events), answer) <==> answer == RangeVerdict(v, r).value.affected
  {
    var cs := Changes(r.events);
    SchemaOnAccepted(v, cs, answer);
    assert LimitsClose(cs) == cs by {
      forall i | 0 <= i < |cs| ensures LimitsClose(cs)[i] == cs[i] {
        assert cs[i].kind != Limit;
      }
    }
  }

  // ---------------------------------------------------------------- the verdict on the events themselves

  predicate SetsOne(e: Event) {
    (if e.introduced != "" then 1 else 0) + (if e.fixed != "" then 1 else 0)
    + (if e.lastAffected != "" then 1 else 0) + (if e.limit != "" then 1 else 0) == 1
  }

  /** The field an event sets. */
  function Position(e: Event): string {
    e.introduced + e.fixed + e.lastAffected + e.limit
  }

  /** The lists the pass takes: introductions and closings in turn, one field an event, at strictly later versions. */
  ghost predicate Readable(v: string, r: Range) {
    && r.kind == "SEMVER" && r.events != [] && Accepted(v)
    && (forall i :: 0 <= i < |r.events| ==>
          && SetsOne(r.events[i]) && (r.events[i].introduced != "" <==> i % 2 == 0)
          && (Accepted(Position(r.events[i])) || (i == 0 && r.events[i].introduced == "0")))
    && forall i, j :: 0 <= i < j < |r.events| ==>
         r.events[i].introduced == "0" || CompareVersions(Position(r.events[i]), Position(r.events[j])) == Ok(-1)
  }

  predicate AtOrAfter(v: string, x: string) {
    x == "0" || CompareVersions(v, x) == Ok(0) || CompareVersions(v, x) == Ok(1)
  }

  /** The version is before the event's fix or limit, or not after its last affected version. */
  predicate NotClosed(v: string, e: Event) {
    && (e.fixed != "" ==> CompareVersions(v, e.fixed) == Ok(-1))
    && (e.limit != "" ==> CompareVersions(v, e.limit) == Ok(-1))
    && (e.lastAffected != "" ==> CompareVersions(v, e.lastAffected) == Ok(-1) || CompareVersions(v, e.lastAffected) == Ok(0))
  }

  /** The version lies in the interval that event i opens: from its introduction on, and not past the closing event. */
  predicate Inside(v: string, events: seq<Event>, i: nat) {
    && i < |events| && events[i].introduced != "" && AtOrAfter(v, events[i].introduced)
    && (i + 1 < |events| ==> NotClosed(v, events[i + 1]))
  }

  predicate Within(v: string, c: Change) {
    if c.kind == LastAffected then !Before(c.at, v) else Before(v, c.at)
  }

  predicate Lies(v: string, cs: seq<Change>, i: nat) {
    i < |cs| && cs[i].kind == Introduced && Reached(v, cs[i].at) && (i + 1 < |cs| ==> Within(v, cs[i + 1]))
  }

  lemma {:induction false} EvaluateIsLying(v: string, cs: seq<Change>)
    requires WellFormed(cs) && Accepted(v)
    ensures Evaluate(v, LimitsClose(cs)) <==> exists i: nat :: Lies(v, cs, i)
  {
    hide Accepted, CompareVersions, Before;
    if cs != [] {
      var init, c := cs[..|cs| - 1], cs[|cs| - 1];
      assert cs == init + [c];
      Snoc(init, c);
      EvaluateIsLying(v, init);
      EvaluateSnoc(v, init, c);
      LyingSnoc(v, init, c);
    }
  }

  lemma LyingSnoc(v: string, cs: seq<Change>, c: Change)
    requires WellFormed(cs + [c]) && WellFormed(cs) && Follows(cs, c) && Accepted(v)
    ensures (exists i: nat :: Lies(v, cs + [c], i)) <==> Next(v, AsFixed(c), exists i: nat :: Lies(v, cs, i))
  {
    hide Accepted, CompareVersions, Before;
    var all, n := cs + [c], |cs|;
    assert all[n] == c && forall i :: 0 <= i < n ==> all[i] == cs[i];
    forall i: nat | i < n ensures Lies(v, all, i) <==> Lies(v, cs, i) && (i == n - 1 ==> Within(v, c)) {
    }
    assert Lies(v, all, n) <==> c.kind == Introduced && Reached(v, c.at);
    forall i: nat | i < n - 1 && Lies(v, cs, i) && c.kind != Introduced ensures Within(v, c) {
      ClosedBefore(v, all, i);
    }
    if c.kind == Introduced && n > 0 {
      assert cs[n - 1].kind != Introduced;
    }
    if i: nat :| Lies(v, cs, i) {
      assert Lies(v, all, i) <==> (i == n - 1 ==> Within(v, c));
    }
  }

  /** A version in an interval closed earlier is before every later change. */
  lemma ClosedBefore(v: string, cs: seq<Change>, i: nat)
    requires WellFormed(cs) && Accepted(v) && i + 2 < |cs| && Lies(v, cs, i)
    ensures Within(v, cs[|cs| - 1])
  {
    hide Accepted, CompareVersions;
    ZeroIsNoVersion();
    var x, y := cs[i + 1], cs[|cs| - 1];
    assert Before(cs[i].at, x.at) && Before(x.at, y.at) && ValidAt(x);
    if Before(v, x.at) {
      BeforeTransitive(v, x.at, y.at);
    } else {
      NotAfterIsBefore(v, x.at, y.at);
    }
    BeforeAsymmetric(v, y.at);
  }

  lemma ReadableIs(v: string, r: Range)
    ensures AcceptedRange(v, r) <==> Readable(v, r)
  {
    hide Accepted, CompareVersions;
    ZeroIsNoVersion();
    forall e: Event ensures Single(e).Some? <==> SetsOne(e) {
    }
    forall e: Event | SetsOne(e) ensures Single(e).value.at == Position(e) {
      assert "" + Position(e) == Position(e) == Position(e) + "";
    }
    if AllSingle(r.events) {
      var cs := Changes(r.events);
      if WellFormed(cs) {
        Turns(cs);
        forall i | 0 < i < |cs| ensures cs[i].at != "0" {
          assert Before(cs[0].at, cs[i].at);
        }
      }
      if Readable(v, r) {
        ReadableForms(v, r);
      }
    }
  }

  lemma {:induction false} Turns(cs: seq<Change>)
    requires Alternates(cs)
    ensures forall i :: 0 <= i < |cs| ==> (cs[i].kind == Introduced <==> i % 2 == 0)
  {
    if cs != [] {
      var n := |cs| - 1;
      Turns(cs[..n]);
      assert forall i :: 0 <= i < n ==> cs[..n][i] == cs[i];
      if n > 0 {
        assert cs[n - 1].kind == Introduced <==> cs[n].kind != Introduced;
      }
    }
  }

  lemma ReadableForms(v: string, r: Range)
    requires Readable(v, r) && AllSingle(r.events)
    requires forall i :: 0 <= i < |r.events| ==> Single(r.events[i]).value.at == Position(r.events[i])
    ensures WellFormed(Changes(r.events))
  {
    hide Accepted, CompareVersions;
    ZeroIsNoVersion();
    var cs := Changes(r.events);
    forall i, j | 0 <= i < j < |cs| ensures Before(cs[i].at, cs[j].at) {
      assert Accepted(Position(r.events[j]));
    }
    forall i | 0 <= i < |cs| ensures ValidAt(cs[i]) {
    }
  }

  /** The pass answers exactly on readable lists; the version is affected exactly if it lies in some interval. */
  lemma VerdictIs(v: string, r: Range)
    ensures RangeVerdict(v, r).Ok? <==> Readable(v, r)
    ensures Readable(v, r) ==> (RangeVerdict(v, r).value.affected <==> exists i: nat :: Inside(v, r.events, i))
    ensures Readable(v, r) ==> forall f :: f in RangeVerdict(v, r).value.fixes <==>
              exists i: nat :: Inside(v, r.events, i) && i + 1 < |r.events| && r.events[i + 1].fixed == f && f != ""
  {
    hide Accepted, CompareVersions, Evaluate, FixesOf, WellFormed, Readable, Inside, Lies;
    ReadableIs(v, r);
    if Readable(v, r) {
      var cs := Changes(r.events);
      EvaluateIsLying(v, cs);
      forall i: nat ensures Lies(v, cs, i) <==> Inside(v, r.events, i) {
        LyingIsInside(v, r, i);
      }
      forall f ensures f in FixesOf(v, cs) <==>
                exists i: nat :: Inside(v, r.events, i) && i + 1 < |r.events| && r.events[i + 1].fixed == f && f != "" {
        FixesInside(v, r, f);
      }
    }
  }

  lemma LyingIsInside(v: string, r: Range, i: nat)
    requires AcceptedRange(v, r)
    ensures Lies(v, Changes(r.events), i) <==> Inside(v, r.events, i)
  {
    hide Accepted, CompareVersions;
    ZeroIsNoVersion();
    var cs := Changes(r.events);
    if i < |cs| && cs[i].at != "0" {
      PositionTrichotomy(v, cs[i].at);
    }
    if i + 1 < |cs| {
      assert Before(cs[i].at, cs[i + 1].at) && ValidAt(cs[i + 1]);
      assert cs[i].kind == Introduced ==> cs[i + 1].kind != Introduced;
      PositionTrichotomy(v, cs[i + 1].at);
    }
  }

  lemma FixesInside(v: string, r: Range, f: string)
    requires AcceptedRange(v, r)
    ensures f in FixesOf(v, Changes(r.events)) <==>
              exists i: nat :: Inside(v, r.events, i) && i + 1 < |r.events| && r.events[i + 1].fixed == f && f != ""
  {
    hide Accepted, CompareVersions, Inside, Lies;
    var cs := Changes(r.events);
    FixesFound(v, cs, f);
    forall k | 0 < k < |cs| ensures FixAt(v, cs, k) && f == cs[k].at <==>
                                    Inside(v, r.events, k - 1) && r.events[k].fixed == f && f != "" {
      LyingIsInside(v, r, k - 1);
      FixIsLying(v, r, k);
    }
    if i: nat :| Inside(v, r.events, i) && i + 1 < |r.events| && r.events[i + 1].fixed == f && f != "" {
      assert FixAt(v, cs, i + 1) && f == cs[i + 1].at;
    }
  }

  lemma FixIsLying(v: string, r: Range, k: nat)
    requires AcceptedRange(v, r) && 0 < k < |r.events|
    ensures var cs := Changes(r.events);
            FixAt(v, cs, k) <==> Lies(v, cs, k - 1) && r.events[k].fixed != ""
  {
    hide Accepted, CompareVersions, Before;
    var cs := Changes(r.events);
    assert cs[k - 1].kind == Introduced <==> cs[k].kind != Introduced;
  }

  // ---------------------------------------------------------------- fixes

  /** Changes the version has not reached do not move the evaluation. */
  lemma {:induction false} EvaluateStable(v: string, cs: seq<Change>, k: nat)
    requires k <= |cs|
    requires forall i :: k <= i < |cs| ==> Before(v, cs[i].at) && !Before(cs[i].at, v)
    ensures Evaluate(v, cs) == Evaluate(v, cs[..k])
    decreases |cs|
  {
    if k == |cs| {
      assert cs[..k] == cs;
    } else {
      var head := cs[..|cs| - 1];
      forall i | k <= i < |head| ensures Before(v, head[i].at) && !Before(head[i].at, v) {
        assert head[i] == cs[i];
      }
      EvaluateStable(v, head, k);
      assert head[..k] == cs[..k];
    }
  }

  /** The evaluation at the position of the k-th change is decided by the changes up to it. */
  lemma EvaluateAt(cs: seq<Change>, changes: seq<Change>, k: nat)
    requires WellFormed(cs) && k < |cs| == |changes|
    requires forall i :: 0 <= i < |cs| ==> changes[i].at == cs[i].at
    ensures Evaluate(cs[k].at, changes) == Next(cs[k].at, changes[k], Evaluate(cs[k].at, changes[..k]))
  {
    hide Accepted, CompareVersions, Next;
    var v := cs[k].at;
    forall i | k + 1 <= i < |changes| ensures Before(v, changes[i].at) && !Before(changes[i].at, v) {
      BeforeAsymmetric(cs[k].at, cs[i].at);
    }
    EvaluateStable(v, changes, k + 1);
    assert changes[..k + 1] == changes[..k] + [changes[k]];
    EvaluateSnoc(v, changes[..k], changes[k]);
  }

  lemma {:induction false} FixesFound(v: string, cs: seq<Change>, f: string)
    ensures f in FixesOf(v, cs) <==> exists k :: 0 <= k < |cs| && FixAt(v, cs, k) && f == cs[k].at
  {
    hide Before;
    if cs != [] {
      var head, n := cs[..|cs| - 1], |cs| - 1;
      FixesFound(v, head, f);
      assert forall k: nat :: k < n ==> head[k] == cs[k] && (FixAt(v, head, k) <==> FixAt(v, cs, k));
    }
  }

  /** Two different intervals cannot both hold the version. */
  lemma FixAtUnique(v: string, cs: seq<Change>, i: nat, k: nat)
    requires WellFormed(cs) && i < k < |cs| && FixAt(v, cs, i)
    ensures !FixAt(v, cs, k)
  {
    if i < k - 1 {
      BeforeTransitive(v, cs[i].at, cs[k - 1].at);
    } else {
      assert cs[k - 1].kind == Fixed;
    }
  }

  lemma {:induction false} AtMostOneFix(v: string, cs: seq<Change>)
    requires WellFormed(cs)
    ensures |FixesOf(v, cs)| <= 1
  {
    hide Accepted, CompareVersions;
    if cs != [] {
      var head, n := cs[..|cs| - 1], |cs| - 1;
      WellFormedPrefix(cs, n);
      AtMostOneFix(v, head);
      if FixAt(v, cs, n) && FixesOf(v, head) != [] {
        FixesFound(v, head, FixesOf(v, head)[0]);
        assert FixesOf(v, head)[0] in FixesOf(v, head);
        var k :| 0 <= k < |head| && FixAt(v, head, k);
        assert FixAt(v, cs, k);
        FixAtUnique(v, cs, k, n);
      }
    }
  }

  /** At most one fix is reported; it is a strictly later version that the same range judges unaffected. */
  lemma FixIsLaterAndUnaffected(v: string, r: Range)
    requires AcceptedRange(v, r)
    ensures var verdict := RangeVerdict(v, r).value;
            && |verdict.fixes| <= 1
            && forall f :: f in verdict.fixes ==>
                 && verdict.affected && CompareVersions(v, f) == Ok(-1)
                 && RangeVerdict(f, r).Ok? && !RangeVerdict(f, r).value.affected
  {
    var cs := Changes(r.events);
    AtMostOneFix(v, cs);
    forall f | f in FixesOf(v, cs)
      ensures Evaluate(v, LimitsClose(cs)) && CompareVersions(v, f) == Ok(-1)
      ensures AcceptedRange(f, r) && !Evaluate(f, LimitsClose(cs))
    {
      FixesFound(v, cs, f);
      var k :| 0 <= k < |cs| && FixAt(v, cs, k) && f == cs[k].at;
      FixEndsInterval(v, cs, k);
    }
  }

  lemma BeforeTheRest(v: string, cs: seq<Change>, k: nat)
    requires WellFormed(cs) && Accepted(v) && k < |cs| && Before(v, cs[k].at)
    ensures forall i :: k <= i < |cs| ==> Before(v, LimitsClose(cs)[i].at) && !Before(LimitsClose(cs)[i].at, v)
  {
    hide Before, Accepted;
    forall i | k <= i < |cs| ensures Before(v, cs[i].at) && !Before(cs[i].at, v) {
      if k < i {
        BeforeTransitive(v, cs[k].at, cs[i].at);
      }
      BeforeAsymmetric(v, cs[i].at);
    }
  }

  lemma FixEndsInterval(v: string, cs: seq<Change>, k: nat)
    requires WellFormed(cs) && Accepted(v) && k < |cs| && FixAt(v, cs, k)
    ensures Evaluate(v, LimitsClose(cs)) && !Evaluate(cs[k].at, LimitsClose(cs))
    ensures CompareVersions(v, cs[k].at) == Ok(-1) && Accepted(cs[k].at)
  {
    hide Accepted, CompareVersions;
    ZeroIsNoVersion();
    assert ValidAt(cs[k]);
    var closed := LimitsClose(cs);
    EvaluateAt(cs, closed, k);
    BeforeAsymmetric(v, cs[k].at);
    BeforeTheRest(v, cs, k);
    EvaluateStable(v, closed, k);
    assert closed[..k] == closed[..k - 1] + [closed[k - 1]];
    EvaluateSnoc(v, closed[..k - 1], closed[k - 1]);
    assert cs[k - 1].kind == Introduced;
    BeforeIrreflexive(cs[k].at);
  }

  // ---------------------------------------------------------------- limits

  /** A limit may only be the last event. */
  predicate LimitOnlyLast(cs: seq<Change>) {
    forall i :: 0 <= i < |cs| - 1 ==> cs[i].kind != Limit
  }

  /** A pass over these events and the schema agree at every version. */
  ghost predicate AgreesEverywhere(cs: seq<Change>) {
    forall v :: Accepted(v) ==> (Evaluate(v, LimitsClose(cs)) <==> BeforeLimits(v, cs) && Evaluate(v, cs))
  }

  lemma LimitsOut(cs: seq<Change>)
    requires forall i :: 0 <= i < |cs| ==> cs[i].kind != Limit
    ensures LimitsClose(cs) == cs
  {
    forall i | 0 <= i < |cs| ensures LimitsClose(cs)[i] == cs[i] {
    }
  }

  lemma LimitLastAgrees(cs: seq<Change>, v: string)
    requires WellFormed(cs) && LimitOnlyLast(cs) && Accepted(v)
    ensures Evaluate(v, LimitsClose(cs)) <==> BeforeLimits(v, cs) && Evaluate(v, cs)
  {
    hide Accepted, CompareVersions, WellFormed, Before, Evaluate;
    if cs != [] {
      var n := |cs| - 1;
      var head, c := cs[..n], cs[n];
      assert cs == head + [c];
      LimitsOut(head);
      EvaluateSnoc(v, head, c);
      if c.kind == Limit {
        assert HasLimit(cs);
        assert BeforeLimits(v, cs) <==> Before(v, c.at);
      } else {
        assert !HasLimit(cs);
      }
    }
  }

  /** The last limit before some index. */
  lemma {:induction false} LastLimit(cs: seq<Change>, n: nat) returns (m: nat)
    requires n <= |cs| && exists i :: 0 <= i < n && cs[i].kind == Limit
    ensures m < n && cs[m].kind == Limit && forall i :: m < i < n ==> cs[i].kind != Limit
  {
    if cs[n - 1].kind == Limit {
      m := n - 1;
    } else {
      m := LastLimit(cs, n - 1);
    }
  }

  /** A limit followed by another introduction: the pass opens again, the schema has stopped. */
  lemma ReopensBehindLimit(cs: seq<Change>, m: nat)
    requires WellFormed(cs) && m < |cs| - 1 && cs[m].kind == Limit
    requires forall i :: m < i < |cs| ==> cs[i].kind != Limit
    ensures var v := cs[m + 1].at;
            Accepted(v) && Evaluate(v, LimitsClose(cs)) && !BeforeLimits(v, cs)
  {
    hide Accepted, CompareVersions;
    ZeroIsNoVersion();
    var v := cs[m + 1].at;
    assert cs[m + 1].kind == Introduced && Before(cs[m].at, v) && ValidAt(cs[m + 1]);
    EvaluateAt(cs, LimitsClose(cs), m + 1);
    BeforeIrreflexive(v);
    forall i | 0 <= i < |cs| && cs[i].kind == Limit ensures !Before(v, cs[i].at) {
      BeforeAsymmetric(cs[i].at, v);
    }
    assert HasLimit(cs);
  }

  lemma OpenBefore(cs: seq<Change>, k: nat)
    requires WellFormed(cs) && 0 < k < |cs| && cs[k - 1].kind == Introduced
    ensures Evaluate(cs[k].at, cs[..k])
  {
    hide Accepted, CompareVersions;
    assert cs[..k] == cs[..k - 1] + [cs[k - 1]];
    EvaluateSnoc(cs[k].at, cs[..k - 1], cs[k - 1]);
    BeforeAsymmetric(cs[k - 1].at, cs[k].at);
  }

  /** A limit followed by a later limit: the schema goes on where the pass has closed. */
  lemma ContinuesPastLimit(cs: seq<Change>, k: nat, m: nat)
    requires WellFormed(cs) && k < m < |cs| && cs[k].kind == Limit && cs[m].kind == Limit
    ensures var v := cs[k].at;
            Accepted(v) && !Evaluate(v, LimitsClose(cs)) && BeforeLimits(v, cs) && Evaluate(v, cs)
  {
    hide Accepted, CompareVersions;
    ZeroIsNoVersion();
    var v := cs[k].at;
    assert ValidAt(cs[k]) && Before(v, cs[m].at);
    EvaluateAt(cs, LimitsClose(cs), k);
    EvaluateAt(cs, cs, k);
    BeforeIrreflexive(v);
    assert k > 0 && cs[k - 1].kind == Introduced;
    OpenBefore(cs, k);
    assert BeforeLimits(v, cs);
  }

  /** With a limit before the end, some event's own version tells the two rules apart. */
  lemma LimitInsideDisagrees(cs: seq<Change>) returns (v: string)
    requires WellFormed(cs) && !LimitOnlyLast(cs)
    ensures Accepted(v) && (Evaluate(v, LimitsClose(cs)) <==> !(BeforeLimits(v, cs) && Evaluate(v, cs)))
  {
    hide Accepted, Before, WellFormed;
    var m := LastLimit(cs, |cs|);
    if m < |cs| - 1 {
      ReopensBehindLimit(cs, m);
      v := cs[m + 1].at;
    } else {
      var k :| 0 <= k < |cs| - 1 && cs[k].kind == Limit;
      ContinuesPastLimit(cs, k, m);
      v := cs[k].at;
    }
  }

  lemma ReleaseIsAccepted(v: string, major: string)
    requires Numeral(major) && v == major + ".0.0"
    ensures Accepted(v) && v != "0" && Read(v) == Precedence(ToNat(major), 0, 0, [])
  {
    hide FindSubmatch, Split;
    var p := Parts(major, "0", "0", "");
    assert Spells(v, false, p, None);
    SubmatchComplete(v, false, p, None);
    EmptySplits();
  }

  lemma EmptySplits()
    ensures Split("", '.') == [""] && !LeadingZero("")
  {
  }

  lemma OneBelowTwo()
    ensures Accepted("1.0.0") && Accepted("2.0.0") && Before("1.0.0", "2.0.0") && Before("0", "1.0.0")
  {
    hide Accepted, Read, Numeral, ToNat;
    DigitsAreNumerals();
    ReleaseIsAccepted("1.0.0", "1");
    ReleaseIsAccepted("2.0.0", "2");
    assert Below(Precedence(1, 0, 0, []), Precedence(2, 0, 0, []));
  }

  lemma DigitsAreNumerals()
    ensures Numeral("1") && Numeral("2") && ToNat("1") == 1 && ToNat("2") == 2
  {
  }

  /** Introduced at the start, a limit, introduced again: the later opening is before no limit, yet the pass matches it. */
  lemma LimitBetween(limit: string, again: string)
    requires Accepted(limit) && Accepted(again) && Before("0", limit) && Before(limit, again)
    ensures var cs := [Change(Introduced, "0"), Change(Limit, limit), Change(Introduced, again)];
            && WellFormed(cs) && !LimitOnlyLast(cs)
            && Evaluate(again, LimitsClose(cs)) && !BeforeLimits(again, cs)
  {
    hide Accepted, CompareVersions;
    var cs := [Change(Introduced, "0"), Change(Limit, limit), Change(Introduced, again)];
    BeforeTransitive("0", limit, again);
    assert cs[1].kind == Limit && IsOpen(cs[..1]) && !IsOpen(cs[..2]);
    ReopensBehindLimit(cs, 1);
  }

  /** An accepted list with a limit inside, and a version on which the pass and the schema differ. */
  lemma LimitInsideExample()
    ensures var cs := [Change(Introduced, "0"), Change(Limit, "1.0.0"), Change(Introduced, "2.0.0")];
            && WellFormed(cs) && !LimitOnlyLast(cs) && Accepted("2.0.0")
            && Evaluate("2.0.0", LimitsClose(cs)) && !BeforeLimits("2.0.0", cs)
  {
    hide Accepted, CompareVersions, WellFormed, Evaluate, BeforeLimits, Before;
    OneBelowTwo();
    LimitBetween("1.0.0", "2.0.0");
  }

  /** The pass agrees with the schema's limit rule exactly when no limit stands before the end. */
  lemma LimitAgreement(cs: seq<Change>)
    requires WellFormed(cs)
    ensures AgreesEverywhere(cs) <==> LimitOnlyLast(cs)
  {
    if LimitOnlyLast(cs) {
      forall v | Accepted(v)
        ensures Evaluate(v, LimitsClose(cs)) <==> BeforeLimits(v, cs) && Evaluate(v, cs)
      {
        LimitLastAgrees(cs, v);
      }
    } else {
      var v := LimitInsideDisagrees(cs);
    }
  }
}
