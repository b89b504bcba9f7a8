/** The release-freeze rule, which computes precedence a second time. */
module Freeze {
  import opened Text
  import opened SemVer
  import opened ProductVersion
  import G = SemVerGrammar

  /** The core steps a release freeze may take. */
  predicate CoreStep(prior: Core, next: Core) {
    || next == Core(prior.major, prior.minor, prior.patch + 1)
    || next == Core(prior.major, prior.minor + 1, 0)
    || next == Core(prior.major + 1, 0, 0)
  }

  /** What a freeze accepts: a core step, or the same core at a strictly higher precedence. */
  predicate Accepts(previous: string, current: string) {
    && Valid(previous) && Valid(current)
    && var prior, next := CoreOf(previous), CoreOf(current);
       CoreStep(prior, next) || (prior == next && CompareVersions(previous, current) == Ok(-1))
  }

  /** The prerelease text both implementations end up comparing. */
  lemma PrereleaseText(s: string)
    requires Accepted(s)
    ensures var text := Cut(Cut(s, '+').before, '-').after;
            !HasPrefixV(s) ==> text == FindSubmatch(s).value.pre && Identifiers(text)
  {
  }

  method AdvancesPrerelease(previous: string, current: string) returns (advances: bool)
    requires Valid(previous) && Valid(current)
    ensures advances == PreBelow(Read(previous).pre, Read(current).pre)
    ensures CoreOf(previous) == CoreOf(current) ==> (advances <==> CompareVersions(previous, current) == Ok(-1))
  {
    hide FindSubmatch, Cut;
    var prior := Cut(Cut(previous, '+').before, '-').after;
    var next := Cut(Cut(current, '+').before, '-').after;
    PrereleaseText(previous);
    PrereleaseText(current);
    assert ReadPre(prior) == Read(previous).pre && ReadPre(next) == Read(current).pre;
    advances := PrereleaseAdvances(prior, next);
  }

  /** The comparison once both prerelease texts are cut out. */
  method PrereleaseAdvances(prior: string, next: string) returns (advances: bool)
    requires Identifiers(prior) && Identifiers(next)
    ensures advances == PreBelow(ReadPre(prior), ReadPre(next))
  {
    if prior == "" || next == "" {
      return prior != "" && next == "";
    }
    var xs, ys := Split(prior, '.'), Split(next, '.');
    assert xs[0..] == xs && ys[0..] == ys;
    var i := 0;
    while i < |xs| && i < |ys|
      invariant 0 <= i <= |xs| && i <= |ys|
      invariant FieldsBelow(ReadIds(xs), ReadIds(ys)) == FieldsBelow(ReadIds(xs[i..]), ReadIds(ys[i..]))
    {
      FieldsStep(xs, ys, i);
      if xs[i] != ys[i] {
        var priorNumeric, nextNumeric := AllDigits(xs[i]), AllDigits(ys[i]);
        if priorNumeric != nextNumeric {
          return priorNumeric;
        }
        if priorNumeric && |xs[i]| != |ys[i]| {
          return |xs[i]| < |ys[i]|;
        }
        return Less(xs[i], ys[i]);
      }
      i := i + 1;
    }
    return |xs| < |ys|;
  }

  /** Ok(patch) tells whether the freeze counts as a PATCH release. */
  method FreezeIncrement(previous: string, current: string) returns (r: Result<bool>)
    ensures r.Ok? <==> Accepts(previous, current)
    ensures r.Ok? ==> (r.value <==> CoreOf(current).patch != 0)
  {
    hide Accepted, Read, CompareVersions;
    var prior := ParseSemVer(previous);
    if prior.Err? {
      return Err;
    }
    var next := ParseSemVer(current);
    if next.Err? {
      return Err;
    }
    var o, n := prior.value, next.value;
    if n.major == o.major && n.minor == o.minor && n.patch == o.patch + 1 {
      return Ok(true);
    }
    if n.major == o.major && n.minor == o.minor + 1 && n.patch == 0 {
      return Ok(false);
    }
    if n.major == o.major + 1 && n.minor == 0 && n.patch == 0 {
      return Ok(false);
    }
    if n == o {
      var advances := AdvancesPrerelease(previous, current);
      if advances {
        return Ok(n.patch != 0);
      }
    }
    return Err;
  }

  /** The next patch, the next minor with patch 0, the next major with minor and patch 0, or the same core sooner. */
  ghost predicate MayFollow(x: G.Version, y: G.Version)
    requires G.Valid(x) && G.Valid(y)
  {
    var majors, minors, patches := ToNat(y.major) - ToNat(x.major), ToNat(y.minor) - ToNat(x.minor),
                                   ToNat(y.patch) - ToNat(x.patch);
    || (majors == 0 && minors == 0 && patches == 1)
    || (majors == 0 && minors == 1 && ToNat(y.patch) == 0)
    || (majors == 1 && ToNat(y.minor) == 0 && ToNat(y.patch) == 0)
    || (majors == 0 && minors == 0 && patches == 0 && G.PreSooner(x.pre, y.pre))
  }

  /** The rule on the versions two texts spell. */
  lemma AcceptsIs(x: G.Version, y: G.Version)
    requires G.Valid(x) && G.Valid(y)
    ensures Accepts(G.Spelling(x), G.Spelling(y)) <==> Fits(x) && Fits(y) && MayFollow(x, y)
  {
    hide Accepted, CompareVersions, G.Spelling, G.PreSooner, ToNat, G.FieldText, Numeral;
    CoreIs(x);
    CoreIs(y);
    G.ComparisonIs(false, x, false, y);
    SameNumbers(x, y);
  }

  lemma SameNumbers(x: G.Version, y: G.Version)
    requires G.Valid(x) && G.Valid(y)
    ensures ToNat(x.major) == ToNat(y.major) <==> x.major == y.major
    ensures ToNat(x.minor) == ToNat(y.minor) <==> x.minor == y.minor
    ensures ToNat(x.patch) == ToNat(y.patch) <==> x.patch == y.patch
  {
    G.DigitsAre(x.major);
    G.DigitsAre(x.minor);
    G.DigitsAre(x.patch);
    G.DigitsAre(y.major);
    G.DigitsAre(y.minor);
    G.DigitsAre(y.patch);
    LengthFirstIsNumeric(x.major, y.major);
    LengthFirstIsNumeric(x.minor, y.minor);
    LengthFirstIsNumeric(x.patch, y.patch);
  }

  /** Every accepted step strictly raises precedence. */
  lemma AcceptedStepRaises(previous: string, current: string)
    requires Accepts(previous, current)
    ensures CompareVersions(previous, current) == Ok(-1)
  {
  }

  /** A chain of accepted freezes, oldest first. */
  predicate Chain(versions: seq<string>) {
    forall i :: 0 < i < |versions| ==> Accepts(versions[i - 1], versions[i])
  }

  /** No precedence class recurs along a chain: every later version is strictly above every earlier one. */
  lemma {:induction false} ChainNeverRecurs(versions: seq<string>, i: nat, j: nat)
    requires Chain(versions) && i < j < |versions|
    ensures CompareVersions(versions[i], versions[j]) == Ok(-1)
  {
    hide Accepts, CompareVersions;
    AcceptedStepRaises(versions[j - 1], versions[j]);
    if i < j - 1 {
      ChainNeverRecurs(versions, i, j - 1);
      CompareTransitive(versions[i], versions[j - 1], versions[j]);
    }
  }
}
