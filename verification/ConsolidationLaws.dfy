/** What a consolidation reports and keeps apart, on the findings that go in and their records. */
module ConsolidationLaws {
  import opened Text
  import opened Evidence
  import opened Aliases
  import opened Consolidate

  /** The fix is proposed by finding i and confirmed by its record. */
  ghost predicate Stands(input: seq<Finding>, advisories: map<string, Advisory>, i: nat, fix: string)
    requires i < |input|
  {
    fix in input[i].fixVersions && Confirms(Lookup(advisories, input[i].advisory), input[i].mod, fix)
  }

  /** The record of j says that some fix of i is affected. */
  ghost predicate Opposes(input: seq<Finding>, advisories: map<string, Advisory>, i: nat, j: nat)
    requires i < |input| && j < |input|
  {
    exists fix :: Stands(input, advisories, i, fix) && Contradicts(Lookup(advisories, input[j].advisory), input[j].mod, fix)
  }

  /** i is not confirmed to be affected, or the record of j does not decide some fix of i. */
  ghost predicate Obscures(input: seq<Finding>, advisories: map<string, Advisory>, i: nat, j: nat)
    requires i < |input| && j < |input|
  {
    || input[i].affected != "AFFECTED"
    || exists fix :: Stands(input, advisories, i, fix) && Unclear(Lookup(advisories, input[j].advisory), input[j].mod, fix)
  }

  /** The record of i says that a fix proposed for i is affected. */
  ghost predicate OpposesItself(input: seq<Finding>, advisories: map<string, Advisory>, i: nat)
    requires i < |input|
  {
    exists fix :: fix in input[i].fixVersions && Contradicts(Lookup(advisories, input[i].advisory), input[i].mod, fix)
  }

  /** The record of i does not decide its version, or a fix proposed for i. */
  ghost predicate ObscuresItself(input: seq<Finding>, advisories: map<string, Advisory>, i: nat)
    requires i < |input|
  {
    || Unclear(Lookup(advisories, input[i].advisory), input[i].mod, input[i].mod.version)
    || exists fix :: fix in input[i].fixVersions && Unclear(Lookup(advisories, input[i].advisory), input[i].mod, fix)
  }

  /** Two findings bear a common identifier: each its own, or an alias. */
  ghost predicate ShareName(a: Finding, b: Finding) {
    exists x :: (x == a.advisory || x in a.aliases) && (x == b.advisory || x in b.aliases)
  }

  // ---------------------------------------------------------------- the vocabulary of the contract, translated

  lemma StandsIs(input: seq<Finding>, advisories: map<string, Advisory>, i: nat)
    requires i < |input|
    ensures var fs := AllValidated(input, advisories);
            && SameLinks(fs[i], input[i]) && fs[i].mod == input[i].mod
            && forall fix :: fix in fs[i].fixVersions <==> Stands(input, advisories, i, fix)
  {
    hide Confirms, Validated;
    ValidatedKeeps(input[i], Lookup(advisories, input[i].advisory));
    ValidatedFixesConfirmed(input[i], Lookup(advisories, input[i].advisory));
    KeepsLinks(input, advisories);
  }

  lemma ClashIs(input: seq<Finding>, advisories: map<string, Advisory>, i: nat, j: nat)
    requires i < |input| && j < |input|
    ensures Clash(AllValidated(input, advisories), advisories, i, j) <==> Opposes(input, advisories, i, j)
    ensures Murky(AllValidated(input, advisories), advisories, i, j) <==> Obscures(input, advisories, i, j)
  {
    hide Confirms, Contradicts, Unclear, AllValidated, Stands;
    StandsIs(input, advisories, i);
    StandsIs(input, advisories, j);
  }

  lemma OwnIs(input: seq<Finding>, advisories: map<string, Advisory>, i: nat, c: string)
    requires i < |input|
    ensures c in OwnCodes(input, advisories, i) <==>
              || (c == "ADVISORY_FIX_CONFLICT" && OpposesItself(input, advisories, i))
              || (c == "ADVISORY_FIX_EVIDENCE_UNKNOWN" && ObscuresItself(input, advisories, i))
    ensures Blocked(input, advisories, i) <==> OpposesItself(input, advisories, i) || ObscuresItself(input, advisories, i)
  {
    hide Contradicts, Unclear, Lookup;
    var f, a := input[i], Lookup(advisories, input[i].advisory);
    if FixConflict(f, a) {
      var k :| 0 <= k < |f.fixVersions| && Contradicts(a, f.mod, f.fixVersions[k]);
      assert f.fixVersions[k] in f.fixVersions;
    }
    if k :| 0 <= k < |f.fixVersions| && Unclear(a, f.mod, f.fixVersions[k]) {
      assert f.fixVersions[k] in f.fixVersions;
    }
  }

  lemma ShareIs(a: Finding, b: Finding)
    ensures ShareName(a, b) <==> !(Ids(a) !! Ids(b))
  {
    if x :| x in Ids(a) && x in Ids(b) {
      assert x == a.advisory || x in a.aliases;
    }
    if x :| (x == a.advisory || x in a.aliases) && (x == b.advisory || x in b.aliases) {
      assert x in Ids(a) && x in Ids(b);
    }
  }

  lemma LinksAre(input: seq<Finding>, advisories: map<string, Advisory>)
    ensures var fs := AllValidated(input, advisories);
            && (forall i: nat, j: nat :: Connected(fs, i, j) == Connected(input, i, j))
            && forall i: nat, j: nat :: i < |fs| && j < |fs| ==> (ShareName(input[i], input[j]) <==> !(Ids(fs[i]) !! Ids(fs[j])))
  {
    hide Connected, ShareName, Ids;
    var fs := AllValidated(input, advisories);
    KeepsLinks(input, advisories);
    forall i: nat, j: nat ensures Connected(fs, i, j) == Connected(input, i, j) {
      SameConnections(fs, input, i, j);
    }
    forall i: nat, j: nat | i < |fs| && j < |fs| ensures ShareName(input[i], input[j]) <==> !(Ids(fs[i]) !! Ids(fs[j])) {
      ShareIs(input[i], input[j]);
      SameIds(fs[i], input[i]);
      SameIds(fs[j], input[j]);
    }
  }

  lemma SameIds(f: Finding, g: Finding)
    requires SameLinks(f, g)
    ensures Ids(f) == Ids(g)
  {
  }

  // ---------------------------------------------------------------- the codes

  lemma OwnCauseIs(input: seq<Finding>, advisories: map<string, Advisory>, c: string)
    ensures OwnCause(input, advisories, c) <==>
              || (c == "ADVISORY_FIX_CONFLICT" && exists i: nat :: i < |input| && OpposesItself(input, advisories, i))
              || (c == "ADVISORY_FIX_EVIDENCE_UNKNOWN" && exists i: nat :: i < |input| && ObscuresItself(input, advisories, i))
  {
    hide OpposesItself, ObscuresItself, OwnCodes;
    forall i: nat | i < |input|
      ensures c in OwnCodes(input, advisories, i) <==>
                || (c == "ADVISORY_FIX_CONFLICT" && OpposesItself(input, advisories, i))
                || (c == "ADVISORY_FIX_EVIDENCE_UNKNOWN" && ObscuresItself(input, advisories, i))
    {
      OwnIs(input, advisories, i, c);
    }
    if i: nat :| i < |input| && OpposesItself(input, advisories, i) && c == "ADVISORY_FIX_CONFLICT" {
      assert c in OwnCodes(input, advisories, i);
    }
    if i: nat :| i < |input| && ObscuresItself(input, advisories, i) && c == "ADVISORY_FIX_EVIDENCE_UNKNOWN" {
      assert c in OwnCodes(input, advisories, i);
    }
  }

  lemma GroupCauseIs(input: seq<Finding>, advisories: map<string, Advisory>, c: string)
    ensures GroupCause(AllValidated(input, advisories), advisories, c) <==>
              || (c == "ALIAS_FIX_CONFLICT"
                  && exists i: nat, j: nat :: i < |input| && j < |input| && i != j && Connected(input, i, j)
                                              && Opposes(input, advisories, i, j))
              || (c == "ALIAS_FIX_EVIDENCE_UNKNOWN"
                  && exists i: nat, j: nat :: i < |input| && j < |input| && i != j && Connected(input, i, j)
                                              && Obscures(input, advisories, i, j))
  {
    hide Connected, Ids, ShareName, Opposes, Obscures, Clash, Murky, AllValidated;
    var fs := AllValidated(input, advisories);
    LinksAre(input, advisories);
    forall i: nat, j: nat | i < |input| && j < |input|
      ensures Clash(fs, advisories, i, j) <==> Opposes(input, advisories, i, j)
      ensures Murky(fs, advisories, i, j) <==> Obscures(input, advisories, i, j)
    {
      ClashIs(input, advisories, i, j);
    }
  }

  lemma OverlapCauseIs(input: seq<Finding>, advisories: map<string, Advisory>, c: string)
    ensures OverlapCause(AllValidated(input, advisories), c) <==>
              && c == "ALIAS_AMBIGUOUS_OR_CONFLICTING"
              && exists i: nat, j: nat :: i < |input| && j < |input| && !Connected(input, i, j) && ShareName(input[i], input[j])
  {
    hide Connected, Ids, ShareName, AllValidated;
    LinksAre(input, advisories);
  }

  /** Exactly when a consolidation emits the code c: each of the five has its own cause, and there is no other. */
  lemma CodesAre(input: seq<Finding>, advisories: map<string, Advisory>, parts: seq<seq<nat>>, result: seq<Finding>,
                 codes: seq<string>, c: string)
    requires Outcome(input, advisories, parts, result, codes)
    ensures c in codes <==>
              match c
              case "ADVISORY_FIX_CONFLICT" => exists i: nat :: i < |input| && OpposesItself(input, advisories, i)
              case "ADVISORY_FIX_EVIDENCE_UNKNOWN" => exists i: nat :: i < |input| && ObscuresItself(input, advisories, i)
              case "ALIAS_AMBIGUOUS_OR_CONFLICTING" =>
                exists i: nat, j: nat :: i < |input| && j < |input| && !Connected(input, i, j) && ShareName(input[i], input[j])
              case "ALIAS_FIX_CONFLICT" =>
                exists i: nat, j: nat :: i < |input| && j < |input| && i != j && Connected(input, i, j)
                                         && Opposes(input, advisories, i, j)
              case "ALIAS_FIX_EVIDENCE_UNKNOWN" =>
                exists i: nat, j: nat :: i < |input| && j < |input| && i != j && Connected(input, i, j)
                                         && Obscures(input, advisories, i, j)
              case _ => false
  {
    hide Produced, Partition, HangsTogether, PartJudged, StrictlySorted, Connected, ShareName, Opposes, Obscures,
         OpposesItself, ObscuresItself, OwnCause, OverlapCause, GroupCause, AllValidated;
    OwnCauseIs(input, advisories, c);
    OverlapCauseIs(input, advisories, c);
    GroupCauseIs(input, advisories, c);
  }

  // ---------------------------------------------------------------- what is kept apart

  /** A finding connected to i opposes or obscures itself, or two of them oppose or obscure each other. */
  ghost predicate Apart(input: seq<Finding>, advisories: map<string, Advisory>, i: nat) {
    || (exists j: nat :: j < |input| && Connected(input, i, j)
                         && (OpposesItself(input, advisories, j) || ObscuresItself(input, advisories, j)))
    || exists j: nat, l: nat :: j < |input| && l < |input| && j != l && Connected(input, i, j) && Connected(input, i, l)
                                && (Opposes(input, advisories, j, l) || Obscures(input, advisories, j, l))
  }

  lemma ApartIs(input: seq<Finding>, advisories: map<string, Advisory>, i: nat)
    ensures KeptApart(input, advisories, i) <==> Apart(input, advisories, i)
  {
    hide Connected, Ids, ShareName, Opposes, Obscures, OpposesItself, ObscuresItself, Blocked, Clash, Murky, AllValidated;
    var fs := AllValidated(input, advisories);
    LinksAre(input, advisories);
    forall j: nat | j < |input|
      ensures Blocked(input, advisories, j) <==> OpposesItself(input, advisories, j) || ObscuresItself(input, advisories, j)
    {
      OwnIs(input, advisories, j, "");
    }
    forall j: nat, l: nat | j < |input| && l < |input|
      ensures Clash(fs, advisories, j, l) <==> Opposes(input, advisories, j, l)
      ensures Murky(fs, advisories, j, l) <==> Obscures(input, advisories, j, l)
    {
      ClashIs(input, advisories, j, l);
    }
  }

  /** A reported finding is one member of a component that is kept apart, or a whole component that is not. */
  lemma PartsAre(input: seq<Finding>, advisories: map<string, Advisory>, parts: seq<seq<nat>>, result: seq<Finding>,
                 codes: seq<string>, k: nat)
    requires Outcome(input, advisories, parts, result, codes) && k < |result|
    ensures k < |parts| && parts[k] != [] && parts[k][0] < |input|
    ensures if Apart(input, advisories, parts[k][0]) then |parts[k]| == 1
            else forall j: nat :: j in parts[k] <==> Connected(input, parts[k][0], j)
  {
    hide Produced, Partition, HangsTogether, Connected, Ids, ShareName, KeptApart, Apart, Cause, Merged;
    assert PartJudged(input, advisories, parts[k], result[k]);
    ApartIs(input, advisories, parts[k][0]);
    LinksAre(input, advisories);
    if !Apart(input, advisories, parts[k][0]) {
      assert IsComponent(AllValidated(input, advisories), parts[k]) && parts[k][0] in parts[k];
    }
  }
}
