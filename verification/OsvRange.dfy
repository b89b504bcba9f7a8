/** The single pass over one affected range, against the "Evaluation" section of the OSV Schema. */
module OsvRange {
  import opened Text
  import opened SemVer

  datatype Event = Event(introduced: string, fixed: string, lastAffected: string, limit: string)

  datatype Range = Range(kind: string, events: seq<Event>)

  datatype Kind = Introduced | Fixed | LastAffected | Limit

  /** An event that sets exactly one of its four fields. */
  datatype Change = Change(kind: Kind, at: string)

  datatype Verdict = Verdict(affected: bool, fixes: seq<string>)

  /** The one field an event sets; nothing when it sets none or several. */
  function Single(e: Event): Option<Change> {
    if e.introduced != "" && e.fixed == "" && e.lastAffected == "" && e.limit == "" then Some(Change(Introduced, e.introduced))
    else if e.introduced == "" && e.fixed != "" && e.lastAffected == "" && e.limit == "" then Some(Change(Fixed, e.fixed))
    else if e.introduced == "" && e.fixed == "" && e.lastAffected != "" && e.limit == "" then Some(Change(LastAffected, e.lastAffected))
    else if e.introduced == "" && e.fixed == "" && e.lastAffected == "" && e.limit != "" then Some(Change(Limit, e.limit))
    else None
  }

  predicate AllSingle(events: seq<Event>) {
    forall i :: 0 <= i < |events| ==> Single(events[i]).Some?
  }

  function Changes(events: seq<Event>): (cs: seq<Change>)
    requires AllSingle(events)
    ensures |cs| == |events|
    ensures forall i :: 0 <= i < |cs| ==> cs[i] == Single(events[i]).value
  {
    seq(|events|, i requires 0 <= i < |events| => Single(events[i]).value)
  }

  // ---------------------------------------------------------------- positions on the version line

  /** Where a change may stand: at an accepted version, or an introduction at "0", before all versions. */
  predicate ValidAt(c: Change) {
    Accepted(c.at) || (c.at == "0" && c.kind == Introduced)
  }

  /** x is strictly before y; "0" is before every version. */
  predicate Before(x: string, y: string) {
    y != "0" && (x == "0" || CompareVersions(x, y) == Ok(-1))
  }

  ghost predicate Ascending(cs: seq<Change>) {
    forall i, j :: 0 <= i < j < |cs| ==> Before(cs[i].at, cs[j].at)
  }

  /** An interval is open after these changes. */
  predicate IsOpen(cs: seq<Change>) {
    cs != [] && cs[|cs| - 1].kind == Introduced
  }

  ghost predicate Alternates(cs: seq<Change>) {
    && (cs != [] ==> cs[0].kind == Introduced)
    && forall i, j :: 0 <= i < j < |cs| ==> (j == i + 1 ==> (cs[i].kind == Introduced <==> cs[j].kind != Introduced))
  }

  /** The event lists the pass accepts: openings and closings in turn, at strictly later versions. */
  ghost predicate WellFormed(cs: seq<Change>) {
    && (forall i :: 0 <= i < |cs| ==> ValidAt(cs[i]))
    && Ascending(cs)
    && Alternates(cs)
  }

  ghost predicate AcceptedRange(version: string, r: Range) {
    && r.kind == "SEMVER" && r.events != [] && Accepted(version)
    && AllSingle(r.events) && WellFormed(Changes(r.events))
  }

  lemma ZeroIsNoVersion()
    ensures !Accepted("0")
  {
  }

  lemma BeforeTransitive(x: string, y: string, z: string)
    requires Before(x, y) && Before(y, z)
    ensures Before(x, z)
  {
    ZeroIsNoVersion();
    if x != "0" {
      CompareTransitive(x, y, z);
    }
  }

  /** A version is before, at or after an accepted position, and only one of these. */
  lemma PositionTrichotomy(x: string, y: string)
    requires Accepted(x) && Accepted(y)
    ensures var c := CompareVersions(x, y);
            && c.Ok? && -1 <= c.value <= 1
            && (c.value < 0 <==> Before(x, y)) && (c.value > 0 <==> Before(y, x))
  {
    ZeroIsNoVersion();
    ComparePreorder(x, y, x);
  }

  lemma BeforeAsymmetric(x: string, y: string)
    requires Before(x, y)
    ensures !Before(y, x)
  {
    ZeroIsNoVersion();
    if x != "0" {
      PositionTrichotomy(x, y);
    }
  }

  lemma BeforeIrreflexive(x: string)
    ensures !Before(x, x)
  {
    if Before(x, x) {
      BeforeAsymmetric(x, x);
    }
  }

  // ---------------------------------------------------------------- the schema's evaluation

  /** The version has reached the position. */
  predicate Reached(v: string, at: string) {
    !Before(v, at)
  }

  /** One event of the schema's algorithm; limit events take no part in it. */
  predicate Next(v: string, c: Change, vulnerable: bool) {
    match c.kind
    case Introduced => Reached(v, c.at) || vulnerable
    case Fixed => !Reached(v, c.at) && vulnerable
    case LastAffected => !Before(c.at, v) && vulnerable
    case Limit => vulnerable
  }

  predicate Evaluate(v: string, cs: seq<Change>) {
    if cs == [] then false else Next(v, cs[|cs| - 1], Evaluate(v, cs[..|cs| - 1]))
  }

  predicate HasLimit(cs: seq<Change>) {
    exists i :: 0 <= i < |cs| && cs[i].kind == Limit
  }

  predicate BeforeLimits(v: string, cs: seq<Change>) {
    !HasLimit(cs) || exists i :: 0 <= i < |cs| && cs[i].kind == Limit && Before(v, cs[i].at)
  }

  ghost predicate Sorted(cs: seq<Change>) {
    forall i, j :: 0 <= i < j < |cs| ==> !Before(cs[j].at, cs[i].at)
  }

  /** What the schema answers: evaluate the events in version order, within the limits. */
  ghost predicate SchemaAnswers(v: string, cs: seq<Change>, vulnerable: bool) {
    exists sorted :: multiset(sorted) == multiset(cs) && Sorted(sorted)
                     && vulnerable == (BeforeLimits(v, cs) && Evaluate(v, sorted))
  }

  /** The pass takes a limit for a closing boundary like a fix. */
  function AsFixed(c: Change): Change {
    if c.kind == Limit then Change(Fixed, c.at) else c
  }

  function LimitsClose(cs: seq<Change>): (r: seq<Change>)
    ensures |r| == |cs|
    ensures forall i :: 0 <= i < |r| ==> r[i] == AsFixed(cs[i])
  {
    seq(|cs|, i requires 0 <= i < |cs| => AsFixed(cs[i]))
  }

  /** The k-th change is the fix that ends the interval the version lies in. */
  predicate FixAt(v: string, cs: seq<Change>, k: nat)
    requires k < |cs|
  {
    k > 0 && cs[k].kind == Fixed && Reached(v, cs[k - 1].at) && Before(v, cs[k].at)
  }

  function FixesOf(v: string, cs: seq<Change>): seq<string> {
    if cs == [] then []
    else FixesOf(v, cs[..|cs| - 1]) + if FixAt(v, cs, |cs| - 1) then [cs[|cs| - 1].at] else []
  }

  /** securityRange as a function of its arguments. */
  ghost function RangeVerdict(v: string, r: Range): Result<Verdict> {
    if AcceptedRange(v, r) then
      Ok(Verdict(Evaluate(v, LimitsClose(Changes(r.events))), FixesOf(v, Changes(r.events))))
    else Err
  }

  // ---------------------------------------------------------------- the pass

  lemma EvaluateSnoc(v: string, cs: seq<Change>, c: Change)
    ensures Evaluate(v, cs + [c]) == Next(v, c, Evaluate(v, cs))
    ensures Evaluate(v, LimitsClose(cs + [c])) == Next(v, AsFixed(c), Evaluate(v, LimitsClose(cs)))
    ensures FixesOf(v, cs + [c]) == if cs != [] && c.kind == Fixed && Reached(v, cs[|cs| - 1].at) && Before(v, c.at)
                                    then FixesOf(v, cs) + [c.at] else FixesOf(v, cs)
  {
    assert (cs + [c])[..|cs|] == cs;
    assert LimitsClose(cs + [c])[..|cs|] == LimitsClose(cs);
  }

  lemma ChangesSnoc(events: seq<Event>, n: nat)
    requires n < |events| && AllSingle(events[..n]) && Single(events[n]).Some?
    ensures AllSingle(events[..n + 1]) && Changes(events[..n + 1]) == Changes(events[..n]) + [Single(events[n]).value]
  {
  }

  lemma WellFormedPrefix(cs: seq<Change>, n: nat)
    requires n <= |cs| && WellFormed(cs)
    ensures WellFormed(cs[..n])
  {
  }

  /** A prefix that is not well formed settles the rejection of the whole list. */
  lemma Rejected(v: string, r: Range, n: nat)
    requires n <= |r.events| && AllSingle(r.events[..n]) && !WellFormed(Changes(r.events[..n]))
    ensures RangeVerdict(v, r) == Err
  {
    hide WellFormed, Accepted;
    if AllSingle(r.events) {
      assert Changes(r.events)[..n] == Changes(r.events[..n]);
      if WellFormed(Changes(r.events)) {
        WellFormedPrefix(Changes(r.events), n);
      }
    }
  }

  /** What the loop variables mean after the changes cs. */
  ghost predicate Tracks(v: string, cs: seq<Change>, active: bool, matched: bool, affected: bool,
                         fixes: seq<string>, previous: string)
  {
    && (active <==> IsOpen(cs))
    && previous == (if cs == [] || cs[|cs| - 1].at == "0" then "" else cs[|cs| - 1].at)
    && (matched <==> active && Reached(v, cs[|cs| - 1].at))
    && (affected ==> cs != [] && !Before(cs[|cs| - 1].at, v) && cs[|cs| - 1].at != "0")
    && (Evaluate(v, LimitsClose(cs)) <==> affected || matched)
    && fixes == FixesOf(v, cs)
  }

  lemma Snoc(cs: seq<Change>, c: Change)
    requires WellFormed(cs + [c])
    ensures WellFormed(cs) && Follows(cs, c)
  {
    hide Accepted, Before;
    var all := cs + [c];
    assert forall i :: 0 <= i < |cs| ==> all[i] == cs[i];
    assert all[|cs|] == c;
  }

  lemma SnocWellFormed(cs: seq<Change>, c: Change)
    requires WellFormed(cs) && Follows(cs, c)
    ensures WellFormed(cs + [c])
  {
    SnocAscending(cs, c);
    SnocAlternates(cs, c);
    assert forall i :: 0 <= i < |cs| ==> (cs + [c])[i] == cs[i];
  }

  lemma SnocAscending(cs: seq<Change>, c: Change)
    requires Ascending(cs) && (cs != [] ==> Before(cs[|cs| - 1].at, c.at))
    ensures Ascending(cs + [c])
  {
    hide Before;
    var all := cs + [c];
    forall i, j | 0 <= i < j < |all| ensures Before(all[i].at, all[j].at) {
      if j == |cs| && i < |cs| - 1 {
        BeforeTransitive(cs[i].at, cs[|cs| - 1].at, c.at);
      }
    }
  }

  lemma SnocAlternates(cs: seq<Change>, c: Change)
    requires Alternates(cs) && (c.kind == Introduced <==> !IsOpen(cs))
    ensures Alternates(cs + [c])
  {
  }

  /** Whatever is not after x is before everything after x. */
  lemma NotAfterIsBefore(v: string, x: string, y: string)
    requires Accepted(v) && Accepted(x) && !Before(x, v) && Before(x, y)
    ensures Before(v, y)
  {
    PositionTrichotomy(v, x);
    if Before(v, x) {
      BeforeTransitive(v, x, y);
    } else {
      ZeroIsNoVersion();
      SameClass(v, x, y);
    }
  }

  lemma SameClass(v: string, x: string, y: string)
    requires Accepted(v) && CompareVersions(v, x) == Ok(0) && CompareVersions(x, y) == Ok(-1)
    ensures CompareVersions(v, y) == Ok(-1)
  {
    ComparePreorder(v, x, y);
  }

  /** c may follow cs: it stands at a valid position after the last change, in turn. */
  ghost predicate Follows(cs: seq<Change>, c: Change) {
    && ValidAt(c) && (c.kind == Introduced <==> !IsOpen(cs))
    && (cs != [] ==> ValidAt(cs[|cs| - 1]) && Before(cs[|cs| - 1].at, c.at))
  }

  /** A version at or before the last change is before the next one and has not reached it. */
  lemma NotReached(v: string, cs: seq<Change>, c: Change)
    requires Accepted(v) && Follows(cs, c)
    requires cs != [] && !Before(cs[|cs| - 1].at, v) && cs[|cs| - 1].at != "0"
    ensures Before(v, c.at) && !Before(c.at, v)
  {
    NotAfterIsBefore(v, cs[|cs| - 1].at, c.at);
    BeforeAsymmetric(v, c.at);
  }

  lemma Open(v: string, cs: seq<Change>, c: Change, affected: bool, fixes: seq<string>, previous: string)
    requires Tracks(v, cs, false, false, affected, fixes, previous)
    requires Accepted(v) && Follows(cs, c) && c.kind == Introduced
    ensures Tracks(v, cs + [c], true, Reached(v, c.at), affected, fixes, if c.at == "0" then previous else c.at)
  {
    hide Accepted, CompareVersions;
    EvaluateSnoc(v, cs, c);
    if affected {
      NotReached(v, cs, c);
    }
  }

  lemma Close(v: string, cs: seq<Change>, c: Change, matched: bool, affected: bool, fixes: seq<string>,
              previous: string)
    requires Tracks(v, cs, true, matched, affected, fixes, previous)
    requires Accepted(v) && Follows(cs, c) && c.kind != Introduced
    ensures var hit := matched && (Before(v, c.at) || (c.kind == LastAffected && !Before(c.at, v)));
            Tracks(v, cs + [c], false, false, affected || hit,
                   if hit && c.kind == Fixed then fixes + [c.at] else fixes, c.at)
  {
    hide Accepted, CompareVersions;
    EvaluateSnoc(v, cs, c);
    if affected {
      NotReached(v, cs, c);
    }
    if !matched {
      BeforeTransitive(v, cs[|cs| - 1].at, c.at);
    }
    if Before(v, c.at) {
      BeforeAsymmetric(v, c.at);
    }
  }

  /** The checks an event passes before it moves the state: strictly later, and opening or closing in turn. */
  method EventFits(ghost cs: seq<Change>, c: Change, previous: string, active: bool) returns (fits: bool)
    requires WellFormed(cs) && (active <==> IsOpen(cs))
    requires previous == if cs == [] || cs[|cs| - 1].at == "0" then "" else cs[|cs| - 1].at
    ensures fits <==> WellFormed(cs + [c])
  {
    ZeroIsNoVersion();
    if WellFormed(cs + [c]) {
      Snoc(cs, c);
      assert (cs + [c])[|cs|] == c;
    }
    if c.at != "0" || c.kind != Introduced {
      if !Accepted(c.at) {
        return false;
      }
      if previous != "" {
        PositionTrichotomy(c.at, previous);
        var order := SecurityCompare(c.at, previous);
        if order.value <= 0 {
          return false;
        }
      }
    } else if previous != "" {
      return false;
    }
    if c.kind == Introduced {
      if active {
        return false;
      }
    } else if !active {
      return false;
    }
    LastAtZero(cs);
    SnocWellFormed(cs, c);
    return true;
  }

  lemma LastAtZero(cs: seq<Change>)
    requires WellFormed(cs)
    ensures forall i :: 0 <= i < |cs| ==> cs[i].at != ""
    ensures cs != [] && cs[|cs| - 1].at == "0" ==> |cs| == 1
  {
  }

  /** The variables of the pass. */
  datatype Scan = Scan(active: bool, matched: bool, affected: bool, fixes: seq<string>, previous: string)

  ghost predicate Tracked(version: string, cs: seq<Change>, s: Scan) {
    Accepted(version) && WellFormed(cs) && Tracks(version, cs, s.active, s.matched, s.affected, s.fixes, s.previous)
  }

  lemma NothingTracked(version: string)
    requires Accepted(version)
    ensures Tracked(version, [], Scan(false, false, false, [], ""))
  {
  }

  /** The effect of an event that fits. */
  method Advance(version: string, ghost cs: seq<Change>, s: Scan, c: Change) returns (t: Scan)
    requires Tracked(version, cs, s) && WellFormed(cs + [c])
    ensures Tracked(version, cs + [c], t)
  {
    ZeroIsNoVersion();
    Snoc(cs, c);
    var order := 0;
    if c.at != "0" {
      PositionTrichotomy(version, c.at);
      var compared := SecurityCompare(version, c.at);
      order := compared.value;
    }
    if c.kind == Introduced {
      Open(version, cs, c, s.affected, s.fixes, s.previous);
      t := Scan(true, c.at == "0" || order >= 0, s.affected, s.fixes, if c.at == "0" then s.previous else c.at);
    } else {
      Close(version, cs, c, s.matched, s.affected, s.fixes, s.previous);
      t := Scan(false, false, s.affected, s.fixes, c.at);
      if s.matched && (order < 0 || (c.kind == LastAffected && order == 0)) {
        if c.kind == Fixed {
          t := t.(fixes := s.fixes + [c.at]);
        }
        t := t.(affected := true);
      }
    }
  }

  method SecurityRange(version: string, r: Range) returns (result: Result<Verdict>)
    ensures result == RangeVerdict(version, r)
  {
    hide WellFormed, Accepted, Evaluate, FixesOf, Before;
    if r.kind != "SEMVER" || |r.events| == 0 || !Accepted(version) {
      return Err;
    }
    var s := Scan(false, false, false, [], "");
    NothingTracked(version);
    var n := 0;
    while n < |r.events|
      invariant 0 <= n <= |r.events| && AllSingle(r.events[..n])
      invariant Tracked(version, Changes(r.events[..n]), s)
    {
      var single := Single(r.events[n]);
      if single.None? {
        return Err;
      }
      ChangesSnoc(r.events, n);
      var fits := EventFits(Changes(r.events[..n]), single.value, s.previous, s.active);
      if !fits {
        Rejected(version, r, n + 1);
        return Err;
      }
      s := Advance(version, Changes(r.events[..n]), s, single.value);
      n := n + 1;
    }
    assert r.events[..n] == r.events;
    return Ok(Verdict(s.affected || (s.active && s.matched), s.fixes));
  }
}
