/** The product version parser, against the versions the assessment accepts. */
module ProductVersion {
  import opened Text
  import opened SemVer
  import G = SemVerGrammar

  datatype Core = Core(major: nat, minor: nat, patch: nat)

  const MAX_COMPONENT: nat := 65535

  /** unicode.IsSpace */
  predicate IsSpace(c: char) {
    var n := c as int;
    9 <= n <= 13 || n == 32 || n == 0x85 || n == 0xA0 || n == 0x1680 || 0x2000 <= n <= 0x200a
    || n == 0x2028 || n == 0x2029 || n == 0x202f || n == 0x205f || n == 0x3000
  }

  /** strings.TrimSpace(s) == s */
  predicate Trimmed(s: string) {
    s == "" || (!IsSpace(s[0]) && !IsSpace(s[|s| - 1]))
  }

  /** What parseSemVer accepts: an accepted version without the v prefix and with 16-bit core numbers. */
  predicate Valid(value: string) {
    && Accepted(value) && !HasPrefixV(value)
    && var c := CoreOf(value); c.major <= MAX_COMPONENT && c.minor <= MAX_COMPONENT && c.patch <= MAX_COMPONENT
  }

  function CoreOf(value: string): Core
    requires Accepted(value)
  {
    var p := Read(value);
    Core(p.major, p.minor, p.patch)
  }

  /** parseSemVer as a function of its argument. */
  function Parsed(value: string): Result<Core> {
    if Valid(value) then Ok(CoreOf(value)) else Err
  }

  // ---------------------------------------------------------------- what is accepted

  /** The core numbers are 16-bit numbers. */
  predicate Fits(x: G.Version)
    requires G.Valid(x)
  {
    ToNat(x.major) <= 65535 && ToNat(x.minor) <= 65535 && ToNat(x.patch) <= 65535
  }

  lemma CoreIs(x: G.Version)
    requires G.Valid(x)
    ensures Accepted(G.Spelling(x)) && !HasPrefixV(G.Spelling(x))
    ensures CoreOf(G.Spelling(x)) == Core(ToNat(x.major), ToNat(x.minor), ToNat(x.patch))
  {
    hide FindSubmatch, ToNat, NoLeadingZero;
    G.ValidIsAccepted(false, x);
    assert G.Spelling(x)[0] == x.major[0];
  }

  /** The parser accepts exactly the texts of the grammar without a v whose core numbers have 16 bits. */
  lemma ParsedIs(value: string)
    ensures Parsed(value).Ok? <==> exists x :: G.Valid(x) && Fits(x) && value == G.Spelling(x)
    ensures forall x :: G.Valid(x) && Fits(x) && value == G.Spelling(x) ==>
              Parsed(value) == Ok(Core(ToNat(x.major), ToNat(x.minor), ToNat(x.patch)))
  {
    hide Accepted, HasPrefixV, G.FieldText, G.Spelling, ToNat;
    if Accepted(value) {
      var v, x := G.AcceptedIsValid(value);
      CoreIs(x);
      if v {
        StartsWithV(x);
      }
    }
    forall x | G.Valid(x) && value == G.Spelling(x)
      ensures Accepted(value) && !HasPrefixV(value) && CoreOf(value) == Core(ToNat(x.major), ToNat(x.minor), ToNat(x.patch))
    {
      CoreIs(x);
    }
  }

  lemma StartsWithV(x: G.Version)
    ensures HasPrefixV(G.WithV(true, G.Spelling(x)))
  {
  }

  // ---------------------------------------------------------------- the parser

  method ValidCoreNumber(value: string) returns (ok: bool)
    ensures ok == Numeral(value)
  {
    if value == "" || (|value| > 1 && value[0] == '0') {
      return false;
    }
    var i := 0;
    while i < |value|
      invariant 0 <= i <= |value|
      invariant forall k :: 0 <= k < i ==> IsDigit(value[k])
    {
      if value[i] < '0' || value[i] > '9' {
        return false;
      }
      i := i + 1;
    }
    return true;
  }

  method ValidIdentifier(id: string, rejectLeadingZero: bool) returns (ok: bool)
    ensures ok <==> id != "" && IdentChars(id) && (rejectLeadingZero ==> !LeadingZero(id))
  {
    if id == "" {
      return false;
    }
    var numeric := true;
    var i := 0;
    while i < |id|
      invariant 0 <= i <= |id|
      invariant forall k :: 0 <= k < i ==> IdentChar(id[k])
      invariant numeric <==> forall k :: 0 <= k < i ==> IsDigit(id[k])
    {
      if !IdentChar(id[i]) {
        return false;
      }
      if id[i] < '0' || id[i] > '9' {
        numeric := false;
      }
      i := i + 1;
    }
    return !(rejectLeadingZero && numeric && |id| > 1 && id[0] == '0');
  }

  method ValidIdentifierList(value: string, rejectLeadingZero: bool) returns (ok: bool)
    ensures ok <==> IdentifierList(value) && (rejectLeadingZero ==> NoLeadingZero(Split(value, '.')))
  {
    var ids := Split(value, '.');
    var k := 0;
    while k < |ids|
      invariant 0 <= k <= |ids|
      invariant forall j :: 0 <= j < k ==> ids[j] != "" && IdentChars(ids[j]) && (rejectLeadingZero ==> !LeadingZero(ids[j]))
    {
      ok := ValidIdentifier(ids[k], rejectLeadingZero);
      if !ok {
        return;
      }
      k := k + 1;
    }
    return true;
  }

  predicate VersionChars(s: string) {
    forall i :: 0 <= i < |s| ==> IdentChar(s[i]) || s[i] == '.' || s[i] == '+' || s[i] == 'v'
  }

  lemma ListVersionChars(s: string)
    requires IdentifierList(s)
    ensures VersionChars(s)
  {
    ListChars(s);
  }

  lemma BodyChars(p: Parts)
    requires PartsShape(p)
    ensures VersionChars(Body(p))
  {
    if p.pre != "" {
      ListVersionChars(p.pre);
    }
    assert VersionChars(p.major) && VersionChars(p.minor) && VersionChars(p.patch);
  }

  /** No character of an accepted version is a space, so the trimming test decides nothing. */
  lemma AcceptedHasNoSpace(s: string)
    requires Accepted(s)
    ensures s != "" && Trimmed(s) && VersionChars(s)
  {
    var p := FindSubmatch(s).value;
    SubmatchShape(s, p);
    SubmatchText(s, p);
    BodyChars(p);
    var build := BuildText(BuildOf(s));
    assert VersionChars(build) by {
      if BuildOf(s).Some? {
        ListVersionChars(BuildOf(s).value);
      }
    }
    VersionCharsTrimmed(s, HasPrefixV(s), Body(p), build);
  }

  lemma VersionCharsTrimmed(s: string, v: bool, body: string, build: string)
    requires s == (if v then "v" else "") + (body + build) && body != ""
    requires VersionChars(body) && VersionChars(build)
    ensures s != "" && Trimmed(s) && VersionChars(s)
  {
  }

  method ParseSemVer(value: string) returns (r: Result<Core>)
    ensures r == Parsed(value)
  {
    if !Trimmed(value) || value == "" {
      if Accepted(value) {
        AcceptedHasNoSpace(value);
      }
      return Err;
    }
    var build := Cut(value, '+');
    if build.found {
      var ok := ValidIdentifierList(build.after, false);
      if build.after == "" || !Lacks(build.after, '+') || !ok {
        assert ok ==> Lacks(build.after, '+') by {
          if ok {
            ListChars(build.after);
          }
        }
        assert Split("", '.')[0] == "";
        return Err;
      }
    }
    var pre := Cut(build.before, '-');
    if pre.found {
      var ok := ValidIdentifierList(pre.after, true);
      if pre.after == "" || !ok {
        assert Split("", '.')[0] == "";
        return Err;
      }
    }
    r := ParseCore(value, Split(pre.before, '.'));
  }

  /** The loop over the three core parts. */
  method ParseCore(value: string, parts: seq<string>) returns (r: Result<Core>)
    requires var build := Cut(value, '+'); var pre := Cut(build.before, '-');
             && parts == Split(pre.before, '.')
             && (build.found ==> IdentifierList(build.after))
             && (pre.found ==> IdentifierList(pre.after) && NoLeadingZero(Split(pre.after, '.')))
    ensures r == Parsed(value)
  {
    hide Parsed, Cut, Split, IdentifierList, NoLeadingZero;
    if |parts| != 3 {
      NotThree(value, parts);
      return Err;
    }
    var parsed: seq<nat> := [];
    var i := 0;
    while i < 3
      invariant 0 <= i <= 3 && |parsed| == i
      invariant forall k :: 0 <= k < i ==> Numeral(parts[k]) && parsed[k] == ToNat(parts[k]) <= MAX_COMPONENT
    {
      var ok := ValidCoreNumber(parts[i]);
      if !ok || ToNat(parts[i]) > MAX_COMPONENT {
        NotParsed(value, parts, i);
        return Err;
      }
      parsed := parsed + [ToNat(parts[i])];
      i := i + 1;
    }
    assert Numeral(parts[0]) && Numeral(parts[1]) && Numeral(parts[2]);
    CoreIsParsed(value, parts);
    r := Ok(Core(parsed[0], parsed[1], parsed[2]));
  }

  lemma CoreIsParsed(value: string, parts: seq<string>)
    requires var build := Cut(value, '+'); var pre := Cut(build.before, '-');
             && |parts| == 3 && parts == Split(pre.before, '.')
             && (build.found ==> IdentifierList(build.after))
             && (pre.found ==> IdentifierList(pre.after) && NoLeadingZero(Split(pre.after, '.')))
    requires Numeral(parts[0]) && Numeral(parts[1]) && Numeral(parts[2])
    requires ToNat(parts[0]) <= MAX_COMPONENT && ToNat(parts[1]) <= MAX_COMPONENT && ToNat(parts[2]) <= MAX_COMPONENT
    ensures Parsed(value) == Ok(Core(ToNat(parts[0]), ToNat(parts[1]), ToNat(parts[2])))
  {
    hide Numeral, ToNat, Cut, IdentifierList, HasPrefixV;
    CoreHasNoPrefix(value);
    assert Split("", '.') == [""];
  }

  lemma NotThree(value: string, parts: seq<string>)
    requires |parts| != 3 && parts == Split(Cut(Cut(value, '+').before, '-').before, '.')
    ensures Parsed(value) == Err
  {
    hide Numeral, ToNat, Cut, Split, HasPrefixV, IdentifierList, NoLeadingZero;
  }

  lemma NotParsed(value: string, parts: seq<string>, i: nat)
    requires i < |parts| == 3 && parts == Split(Cut(Cut(value, '+').before, '-').before, '.')
    requires !Numeral(parts[i]) || ToNat(parts[i]) > MAX_COMPONENT
    ensures Parsed(value) == Err
  {
    hide Numeral, ToNat, Cut, Split, HasPrefixV, IdentifierList, NoLeadingZero;
  }

  lemma CoreHasNoPrefix(value: string)
    requires var parts := Split(Cut(Cut(value, '+').before, '-').before, '.'); Numeral(parts[0])
    ensures !HasPrefixV(value)
  {
    var rest := Cut(value, '+').before;
    var core := Cut(rest, '-').before;
    assert HasPrefixV(value) && rest != "" ==> rest[0] == 'v';
    assert core != "";
    assert Split(core, '.')[0] != "" && Split(core, '.')[0][0] == core[0];
  }
}
