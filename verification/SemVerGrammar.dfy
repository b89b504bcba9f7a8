/** The accepted versions and their order, stated on the text as Semantic Versioning does. */
module SemVerGrammar {
  import opened Text
  import opened SemVer

  /** A version field by field; no prerelease or build fields when there is no such part. */
  datatype Version = Version(major: string, minor: string, patch: string, pre: seq<string>, build: seq<string>)

  predicate DigitsOnly(s: string) {
    forall i :: 0 <= i < |s| ==> '0' <= s[i] <= '9'
  }

  /** Section 2: digits, and no leading zero. */
  predicate NumberText(s: string) {
    s != "" && DigitsOnly(s) && (s[0] == '0' ==> s == "0")
  }

  /** Sections 9 and 10: nonempty, of ASCII letters, digits and hyphens. */
  predicate FieldText(s: string) {
    s != "" && forall i :: 0 <= i < |s| ==>
      '0' <= s[i] <= '9' || 'A' <= s[i] <= 'Z' || 'a' <= s[i] <= 'z' || s[i] == '-'
  }

  predicate Valid(x: Version) {
    && NumberText(x.major) && NumberText(x.minor) && NumberText(x.patch)
    && (forall k :: 0 <= k < |x.pre| ==> FieldText(x.pre[k]) && (DigitsOnly(x.pre[k]) ==> NumberText(x.pre[k])))
    && (forall k :: 0 <= k < |x.build| ==> FieldText(x.build[k]))
  }

  function Dotted(fields: seq<string>): string
    requires fields != []
  {
    if |fields| == 1 then fields[0] else fields[0] + "." + Dotted(fields[1..])
  }

  function Spelling(x: Version): string {
    x.major + "." + x.minor + "." + x.patch
    + (if x.pre == [] then "" else "-" + Dotted(x.pre)) + (if x.build == [] then "" else "+" + Dotted(x.build))
  }

  function WithV(v: bool, s: string): string {
    if v then "v" + s else s
  }

  // ---------------------------------------------------------------- section 11

  predicate FieldSooner(s: string, t: string) {
    if DigitsOnly(s) then !DigitsOnly(t) || ToNat(s) < ToNat(t)
    else !DigitsOnly(t) && Less(s, t)
  }

  /** The first k fields are equal; then one list ends or has the sooner field. */
  predicate FieldsDecidedAt(a: seq<string>, b: seq<string>, k: nat) {
    k <= |a| && k < |b| && a[..k] == b[..k] && (k == |a| || FieldSooner(a[k], b[k]))
  }

  ghost predicate PreSooner(a: seq<string>, b: seq<string>) {
    a != [] && (b == [] || exists k: nat :: FieldsDecidedAt(a, b, k))
  }

  /** Major, minor and patch by number, then the prerelease; build fields do not count. */
  ghost predicate Sooner(x: Version, y: Version)
    requires Valid(x) && Valid(y)
  {
    if x.major != y.major then ToNat(x.major) < ToNat(y.major)
    else if x.minor != y.minor then ToNat(x.minor) < ToNat(y.minor)
    else if x.patch != y.patch then ToNat(x.patch) < ToNat(y.patch)
    else PreSooner(x.pre, y.pre)
  }

  // ---------------------------------------------------------------- the pattern is this grammar

  lemma DigitsAre(s: string)
    ensures DigitsOnly(s) <==> AllDigits(s)
    ensures NumberText(s) <==> Numeral(s)
    ensures FieldText(s) <==> s != "" && IdentChars(s)
    ensures DigitsOnly(s) && s != "" ==> (NumberText(s) <==> !LeadingZero(s))
  {
  }

  lemma {:induction false} DottedIsJoin(fields: seq<string>)
    requires fields != []
    ensures Dotted(fields) == Join(fields, '.')
  {
    if |fields| > 1 {
      DottedIsJoin(fields[1..]);
    }
  }

  lemma FieldsLackDots(fields: seq<string>)
    requires fields != [] && forall k :: 0 <= k < |fields| ==> FieldText(fields[k])
    ensures Split(Dotted(fields), '.') == fields && IdentifierList(Dotted(fields)) && Dotted(fields) != ""
  {
    hide Split, Join;
    DottedIsJoin(fields);
    forall k | 0 <= k < |fields| ensures Lacks(fields[k], '.') {
    }
    SplitJoin(fields, '.');
    if Dotted(fields) == "" {
      SplitLacking("", '.');
    }
  }

  function PartsOf(x: Version): Parts {
    Parts(x.major, x.minor, x.patch, if x.pre == [] then "" else Dotted(x.pre))
  }

  lemma ValidIsAccepted(v: bool, x: Version)
    requires Valid(x)
    ensures Accepted(WithV(v, Spelling(x))) && FindSubmatch(WithV(v, Spelling(x))) == Some(PartsOf(x))
  {
    hide FindSubmatch, Spells, NoLeadingZero, PartsOf, Valid;
    ValidSpells(v, x);
    var build := if x.build == [] then None else Some(Dotted(x.build));
    SubmatchComplete(WithV(v, Spelling(x)), v, PartsOf(x), build);
  }

  lemma ValidSpells(v: bool, x: Version)
    requires Valid(x)
    ensures Spells(WithV(v, Spelling(x)), v, PartsOf(x), if x.build == [] then None else Some(Dotted(x.build)))
    ensures NoLeadingZero(Split(PartsOf(x).pre, '.'))
  {
    hide IdentifierList, Split, Numeral, NumberText, FieldText;
    DigitsAre(x.major);
    DigitsAre(x.minor);
    DigitsAre(x.patch);
    if x.build != [] {
      FieldsLackDots(x.build);
    }
    if x.pre != [] {
      FieldsLackDots(x.pre);
      forall k | 0 <= k < |x.pre| ensures !LeadingZero(x.pre[k]) {
        DigitsAre(x.pre[k]);
      }
    } else {
      SplitLacking("", '.');
    }
    SpellingIs(v, x);
  }

  lemma SpellingIs(v: bool, x: Version)
    requires x.pre != [] ==> Dotted(x.pre) != ""
    ensures WithV(v, Spelling(x)) == Render(v, PartsOf(x), if x.build == [] then None else Some(Dotted(x.build)))
  {
    hide Dotted;
  }

  function VersionOf(p: Parts, build: Option<string>): Version {
    Version(p.major, p.minor, p.patch, if p.pre == "" then [] else Split(p.pre, '.'),
            match build case None => [] case Some(b) => Split(b, '.'))
  }

  lemma JoinBack(text: string)
    ensures Dotted(Split(text, '.')) == text
  {
    JoinSplit(text, '.');
    DottedIsJoin(Split(text, '.'));
  }

  lemma AcceptedIsValid(s: string) returns (v: bool, x: Version)
    requires Accepted(s)
    ensures Valid(x) && s == WithV(v, Spelling(x))
  {
    hide FindSubmatch, Split, Numeral, NumberText, FieldText, Dotted;
    var p := FindSubmatch(s).value;
    SubmatchSound(s, p);
    var build;
    v, build :| Spells(s, v, p, build);
    x := VersionOf(p, build);
    DigitsAre(p.major);
    DigitsAre(p.minor);
    DigitsAre(p.patch);
    forall k | 0 <= k < |x.pre| ensures FieldText(x.pre[k]) && (DigitsOnly(x.pre[k]) ==> NumberText(x.pre[k])) {
      DigitsAre(x.pre[k]);
    }
    forall k | 0 <= k < |x.build| ensures FieldText(x.build[k]) {
      DigitsAre(x.build[k]);
    }
    JoinBack(p.pre);
    if build.Some? {
      JoinBack(build.value);
    }
    SpellingIs(v, x);
  }

  /** The comparison evaluates exactly the texts of the grammar, with or without a v in front. */
  lemma AcceptedIs(s: string)
    ensures Accepted(s) <==> exists v, x :: Valid(x) && s == WithV(v, Spelling(x))
  {
    hide Accepted, Valid, Spelling;
    if Accepted(s) {
      var v, x := AcceptedIsValid(s);
    }
    if v, x :| Valid(x) && s == WithV(v, Spelling(x)) {
      ValidIsAccepted(v, x);
    }
  }

  // ---------------------------------------------------------------- the comparison is this order

  lemma FieldIs(s: string, t: string)
    requires FieldText(s) && (DigitsOnly(s) ==> NumberText(s)) && FieldText(t) && (DigitsOnly(t) ==> NumberText(t))
    ensures IdentBelow(ReadIdent(s), ReadIdent(t)) <==> FieldSooner(s, t)
    ensures ReadIdent(s) == ReadIdent(t) <==> s == t
  {
    hide NumberText, FieldText;
    DigitsAre(s);
    DigitsAre(t);
    if AllDigits(s) && AllDigits(t) {
      LengthFirstIsNumeric(s, t);
    }
  }

  predicate FieldsText(a: seq<string>) {
    forall k :: 0 <= k < |a| ==> FieldText(a[k]) && (DigitsOnly(a[k]) ==> NumberText(a[k]))
  }

  lemma {:induction false} FieldsAre(a: seq<string>, b: seq<string>)
    requires FieldsText(a) && FieldsText(b)
    ensures FieldsBelow(ReadIds(a), ReadIds(b)) <==> exists k: nat :: FieldsDecidedAt(a, b, k)
  {
    hide FieldText, NumberText, FieldSooner, ReadIdent;
    if b == [] {
    } else if a == [] {
      assert FieldsDecidedAt(a, b, 0);
    } else {
      var x, y := a[1..], b[1..];
      FieldIs(a[0], b[0]);
      FieldsAre(x, y);
      assert ReadIds(a)[1..] == ReadIds(x) && ReadIds(b)[1..] == ReadIds(y);
      if FieldSooner(a[0], b[0]) {
        assert FieldsDecidedAt(a, b, 0);
      }
      if k: nat :| a[0] == b[0] && FieldsDecidedAt(x, y, k) {
        DecidedLater(a, b, k);
      }
      if k: nat :| FieldsDecidedAt(a, b, k) && k > 0 {
        assert a[..k][0] == a[0] && b[..k][0] == b[0];
        DecidedLater(a, b, k - 1);
      }
    }
  }

  lemma DecidedLater(a: seq<string>, b: seq<string>, k: nat)
    requires a != [] && b != [] && a[0] == b[0]
    ensures FieldsDecidedAt(a[1..], b[1..], k) <==> FieldsDecidedAt(a, b, k + 1)
  {
    hide FieldSooner;
    if k + 1 <= |a| && k + 1 < |b| {
      var x, y := a[1..], b[1..];
      assert a[..k + 1] == [a[0]] + x[..k] && b[..k + 1] == [b[0]] + y[..k];
      assert x[..k] == a[..k + 1][1..] && y[..k] == b[..k + 1][1..];
    }
  }

  lemma PreIs(x: Version, y: Version)
    requires Valid(x) && Valid(y)
    ensures PreBelow(ReadParts(PartsOf(x)).pre, ReadParts(PartsOf(y)).pre) <==> PreSooner(x.pre, y.pre)
  {
    hide FieldText, NumberText, FieldsBelow, Split, IdentifierList;
    if x.pre != [] {
      FieldsLackDots(x.pre);
    }
    if y.pre != [] {
      FieldsLackDots(y.pre);
    }
    FieldsAre(x.pre, y.pre);
  }

  lemma BelowIs(x: Version, y: Version)
    requires Valid(x) && Valid(y)
    ensures Below(ReadParts(PartsOf(x)), ReadParts(PartsOf(y))) <==> Sooner(x, y)
  {
    hide PreBelow, PreSooner, Split, Dotted, NumberText;
    DigitsAre(x.major);
    DigitsAre(x.minor);
    DigitsAre(x.patch);
    DigitsAre(y.major);
    DigitsAre(y.minor);
    DigitsAre(y.patch);
    LengthFirstIsNumeric(x.major, y.major);
    LengthFirstIsNumeric(x.minor, y.minor);
    LengthFirstIsNumeric(x.patch, y.patch);
    PreIs(x, y);
  }

  /** Comparing two texts of the grammar is comparing the versions they spell. */
  lemma ComparisonIs(v: bool, x: Version, w: bool, y: Version)
    requires Valid(x) && Valid(y)
    ensures CompareVersions(WithV(v, Spelling(x)), WithV(w, Spelling(y))) ==
            Ok(if Sooner(x, y) then -1 else if Sooner(y, x) then 1 else 0)
  {
    hide Accepted, FindSubmatch, Below, Sooner, Spelling, WithV;
    ValidIsAccepted(v, x);
    ValidIsAccepted(w, y);
    BelowIs(x, y);
    BelowIs(y, x);
  }
}
