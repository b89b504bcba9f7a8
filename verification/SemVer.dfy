/** Version precedence as the assessment computes it, against section 11 of Semantic Versioning. */
module SemVer {
  import opened Text

  /** The groups the version pattern captures; an absent prerelease is the empty string. */
  datatype Parts = Parts(major: string, minor: string, patch: string, pre: string)

  predicate IdentChar(c: char) {
    '0' <= c <= '9' || 'A' <= c <= 'Z' || 'a' <= c <= 'z' || c == '-'
  }

  predicate IdentChars(id: string) {
    forall i :: 0 <= i < |id| ==> IdentChar(id[i])
  }

  /** A dot-separated list of nonempty identifiers. */
  predicate IdentifierList(s: string) {
    var ids := Split(s, '.');
    forall i :: 0 <= i < |ids| ==> ids[i] != "" && IdentChars(ids[i])
  }

  // ---------------------------------------------------------------- the version pattern

  predicate HasPrefixV(s: string) {
    s != "" && s[0] == 'v'
  }

  function Unprefixed(s: string): string {
    if HasPrefixV(s) then s[1..] else s
  }

  /** What matching the version pattern captures. */
  function FindSubmatch(s: string): Option<Parts> {
    var build := Cut(Unprefixed(s), '+');
    var pre := Cut(build.before, '-');
    var core := Split(pre.before, '.');
    if |core| == 3 && Numeral(core[0]) && Numeral(core[1]) && Numeral(core[2])
       && (pre.found ==> IdentifierList(pre.after))
       && (build.found ==> IdentifierList(build.after))
    then Some(Parts(core[0], core[1], core[2], pre.after)) else None
  }

  lemma {:induction false} ListChars(s: string)
    requires forall i :: 0 <= i < |Split(s, '.')| ==> IdentChars(Split(s, '.')[i])
    ensures forall i :: 0 <= i < |s| ==> IdentChar(s[i]) || s[i] == '.'
  {
    if s != [] {
      var all, rest := Split(s, '.'), Split(s[1..], '.');
      forall i | 0 <= i < |rest| ensures IdentChars(rest[i]) {
        if s[0] == '.' {
          assert rest[i] == all[i + 1];
        } else if i == 0 {
          assert all[0] == [s[0]] + rest[0];
          forall k | 0 <= k < |rest[0]| ensures IdentChar(rest[0][k]) {
            assert all[0][k + 1] == rest[0][k];
          }
        } else {
          assert rest[i] == all[i];
        }
      }
      ListChars(s[1..]);
      if s[0] != '.' {
        assert all[0][0] == s[0];
      }
    }
  }

  lemma SplitCore(a: string, b: string, c: string)
    requires Lacks(a, '.') && Lacks(b, '.') && Lacks(c, '.')
    ensures Split(a + "." + b + "." + c, '.') == [a, b, c]
  {
    SplitLacking(c, '.');
    SplitPeel(b, c, '.');
    SplitPeel(a, b + "." + c, '.');
    assert a + "." + b + "." + c == a + ['.'] + (b + ['.'] + c);
  }

  function CoreText(p: Parts): string {
    p.major + "." + p.minor + "." + p.patch
  }

  function Body(p: Parts): string {
    CoreText(p) + (if p.pre == "" then "" else "-" + p.pre)
  }

  function BuildText(build: Option<string>): string {
    match build case None => "" case Some(b) => "+" + b
  }

  /** The text of a version, as the pattern spells it. */
  function Render(v: bool, p: Parts, build: Option<string>): string {
    (if v then "v" else "") + (Body(p) + BuildText(build))
  }

  /** The pattern read declaratively: optional v, three numerals, optional prerelease, optional build. */
  ghost predicate Spells(s: string, v: bool, p: Parts, build: Option<string>) {
    && PartsShape(p)
    && (build.Some? ==> IdentifierList(build.value))
    && s == Render(v, p, build)
  }

  predicate PartsShape(p: Parts) {
    Numeral(p.major) && Numeral(p.minor) && Numeral(p.patch) && (p.pre != "" ==> IdentifierList(p.pre))
  }

  lemma CutBody(p: Parts)
    requires PartsShape(p)
    ensures Lacks(CoreText(p), '-') && Lacks(CoreText(p), '+') && Lacks(Body(p), '+')
    ensures Cut(Body(p), '-') == Cutting(CoreText(p), p.pre, p.pre != "")
  {
    hide Cut, Split;
    if p.pre == "" {
      CutLacking(CoreText(p), '-');
      assert Body(p) == CoreText(p);
    } else {
      ListChars(p.pre);
      CutAt(CoreText(p), p.pre, '-');
      assert Body(p) == CoreText(p) + ['-'] + p.pre;
    }
  }

  lemma CutText(p: Parts, build: Option<string>)
    requires PartsShape(p)
    ensures Cut(Body(p) + BuildText(build), '+') == Cutting(Body(p), build.GetOr(""), build.Some?)
  {
    CutBody(p);
    match build {
      case None => CutLacking(Body(p), '+'); assert Body(p) + BuildText(build) == Body(p);
      case Some(b) => CutAt(Body(p), b, '+'); assert Body(p) + BuildText(build) == Body(p) + ['+'] + b;
    }
  }

  /** The pattern captures exactly one reading, and only of texts it spells. */
  lemma SubmatchComplete(s: string, v: bool, p: Parts, build: Option<string>)
    requires Spells(s, v, p, build)
    ensures FindSubmatch(s) == Some(p)
  {
    hide Cut, Split, IdentifierList;
    var text := Body(p) + BuildText(build);
    assert text[0] == p.major[0] && text[0] != 'v';
    assert HasPrefixV(s) == v && Unprefixed(s) == text;
    CutText(p, build);
    CutBody(p);
    SplitCore(p.major, p.minor, p.patch);
  }

  lemma UnsplitCore(text: string)
    requires |Split(text, '.')| == 3
    ensures var core := Split(text, '.'); text == core[0] + "." + core[1] + "." + core[2]
  {
    var core := Split(text, '.');
    JoinSplit(text, '.');
    assert Join(core[2..], '.') == core[2];
    assert core[1..][1..] == core[2..];
    assert Join(core[1..], '.') == core[1] + "." + core[2];
  }

  lemma UncutBody(text: string, p: Parts)
    requires var pre := Cut(text, '-');
             && Split(pre.before, '.') == [p.major, p.minor, p.patch]
             && pre.after == p.pre && (pre.found ==> p.pre != "")
    ensures text == Body(p)
  {
    UnsplitCore(Cut(text, '-').before);
  }

  lemma SubmatchShape(s: string, p: Parts)
    requires FindSubmatch(s) == Some(p)
    ensures PartsShape(p) && (Cut(Unprefixed(s), '+').found ==> IdentifierList(Cut(Unprefixed(s), '+').after))
  {
  }

  function BuildOf(s: string): Option<string> {
    var build := Cut(Unprefixed(s), '+');
    if build.found then Some(build.after) else None
  }

  lemma SubmatchText(s: string, p: Parts)
    requires FindSubmatch(s) == Some(p)
    ensures s == Render(HasPrefixV(s), p, BuildOf(s))
  {
    hide Cut, Split, Numeral;
    var build := Cut(Unprefixed(s), '+');
    var core := Split(Cut(build.before, '-').before, '.');
    assert core == [core[0], core[1], core[2]];
    SplitLacking("", '.');
    assert Split("", '.')[0] == "";
    UncutBody(build.before, p);
    assert Unprefixed(s) == Body(p) + BuildText(BuildOf(s));
  }

  lemma SubmatchSound(s: string, p: Parts)
    requires FindSubmatch(s) == Some(p)
    ensures exists v, build :: Spells(s, v, p, build)
  {
    SubmatchShape(s, p);
    SubmatchText(s, p);
    assert Spells(s, HasPrefixV(s), p, BuildOf(s));
  }

  /** The prerelease identifiers the comparison refuses: numeric with a leading zero. */
  predicate LeadingZero(id: string) {
    |id| > 1 && id[0] == '0' && AllDigits(id)
  }

  /** The versions securityCompare evaluates: the pattern matches and no numeric identifier has a leading zero. */
  predicate Accepted(s: string) {
    var m := FindSubmatch(s);
    m.Some? && NoLeadingZero(Split(m.value.pre, '.'))
  }

  predicate NoLeadingZero(ids: seq<string>) {
    forall i :: 0 <= i < |ids| ==> !LeadingZero(ids[i])
  }

  // ---------------------------------------------------------------- section 11

  datatype Ident = Numeric(n: nat) | Alphanumeric(s: string)

  /** What precedence depends on: the core numbers and the prerelease fields ([] for a release). */
  datatype Precedence = Precedence(major: nat, minor: nat, patch: nat, pre: seq<Ident>)

  function ReadIdent(id: string): Ident {
    if AllDigits(id) then Numeric(ToNat(id)) else Alphanumeric(id)
  }

  function ReadIds(ids: seq<string>): (r: seq<Ident>)
    ensures |r| == |ids|
  {
    if ids == [] then [] else [ReadIdent(ids[0])] + ReadIds(ids[1..])
  }

  function ReadParts(p: Parts): Precedence
    requires AllDigits(p.major) && AllDigits(p.minor) && AllDigits(p.patch)
  {
    Precedence(ToNat(p.major), ToNat(p.minor), ToNat(p.patch), if p.pre == "" then [] else ReadIds(Split(p.pre, '.')))
  }

  function Read(s: string): Precedence
    requires Accepted(s)
  {
    ReadParts(FindSubmatch(s).value)
  }

  /** 11.4.1 to 11.4.3: numbers numerically, text in ASCII order, numbers below text. */
  predicate IdentBelow(a: Ident, b: Ident) {
    match (a, b)
    case (Numeric(m), Numeric(n)) => m < n
    case (Numeric(_), Alphanumeric(_)) => true
    case (Alphanumeric(_), Numeric(_)) => false
    case (Alphanumeric(s), Alphanumeric(t)) => Less(s, t)
  }

  /** 11.4: field by field, and a longer list above its own prefix (11.4.4). */
  predicate FieldsBelow(a: seq<Ident>, b: seq<Ident>) {
    b != [] && (a == [] || IdentBelow(a[0], b[0]) || (a[0] == b[0] && FieldsBelow(a[1..], b[1..])))
  }

  /** 11.3: a prerelease is below the release with the same core. */
  predicate PreBelow(a: seq<Ident>, b: seq<Ident>) {
    a != [] && (b == [] || FieldsBelow(a, b))
  }

  /** 11.2 to 11.4. */
  predicate Below(x: Precedence, y: Precedence) {
    if x.major != y.major then x.major < y.major
    else if x.minor != y.minor then x.minor < y.minor
    else if x.patch != y.patch then x.patch < y.patch
    else PreBelow(x.pre, y.pre)
  }

  function Order(x: Precedence, y: Precedence): int {
    if Below(x, y) then -1 else if Below(y, x) then 1 else 0
  }

  /** securityCompare as a function of its arguments. */
  function CompareVersions(a: string, b: string): Result<int> {
    if Accepted(a) && Accepted(b) then Ok(Order(Read(a), Read(b))) else Err
  }

  // ---------------------------------------------------------------- a strict total order

  lemma {:induction false} FieldsTotal(a: seq<Ident>, b: seq<Ident>)
    ensures FieldsBelow(a, b) || a == b || FieldsBelow(b, a)
    ensures !(FieldsBelow(a, b) && FieldsBelow(b, a)) && !(a == b && FieldsBelow(a, b))
  {
    if a != [] && b != [] {
      if a[0].Alphanumeric? && b[0].Alphanumeric? {
        LessTrichotomy(a[0].s, b[0].s);
      }
      FieldsTotal(a[1..], b[1..]);
      assert a == [a[0]] + a[1..] && b == [b[0]] + b[1..];
    }
  }

  lemma {:induction false} FieldsTransitive(a: seq<Ident>, b: seq<Ident>, c: seq<Ident>)
    requires FieldsBelow(a, b) && FieldsBelow(b, c)
    ensures FieldsBelow(a, c)
  {
    if a != [] {
      if a[0].Alphanumeric? && b[0].Alphanumeric? && c[0].Alphanumeric? && IdentBelow(a[0], b[0]) && IdentBelow(b[0], c[0]) {
        LessTransitive(a[0].s, b[0].s, c[0].s);
      }
      if a[0] == b[0] && b[0] == c[0] {
        if a[0].Alphanumeric? {
          LessIrreflexive(a[0].s);
        }
        FieldsTransitive(a[1..], b[1..], c[1..]);
      }
    }
  }

  lemma BelowTotal(x: Precedence, y: Precedence)
    ensures Below(x, y) || x == y || Below(y, x)
    ensures !(Below(x, y) && Below(y, x)) && !(x == y && Below(x, y))
  {
    FieldsTotal(x.pre, y.pre);
  }

  lemma BelowTransitive(x: Precedence, y: Precedence, z: Precedence)
    requires Below(x, y) && Below(y, z)
    ensures Below(x, z)
  {
    if FieldsBelow(x.pre, y.pre) && FieldsBelow(y.pre, z.pre) {
      FieldsTransitive(x.pre, y.pre, z.pre);
    }
  }

  // ---------------------------------------------------------------- reading is injective

  lemma {:induction false} ReadIdsInjective(a: seq<string>, b: seq<string>)
    requires forall i :: 0 <= i < |a| ==> a[i] != "" && !LeadingZero(a[i])
    requires forall i :: 0 <= i < |b| ==> b[i] != "" && !LeadingZero(b[i])
    requires ReadIds(a) == ReadIds(b)
    ensures a == b
  {
    if a != [] {
      assert ReadIds(a)[1..] == ReadIds(a[1..]) && ReadIds(b)[1..] == ReadIds(b[1..]);
      ReadIdsInjective(a[1..], b[1..]);
      assert ReadIdent(a[0]) == ReadIds(a)[0] == ReadIds(b)[0] == ReadIdent(b[0]);
      if AllDigits(a[0]) {
        LengthFirstIsNumeric(a[0], b[0]);
      }
      assert a == [a[0]] + a[1..] && b == [b[0]] + b[1..];
    }
  }

  lemma AcceptedIds(s: string)
    requires Accepted(s) && FindSubmatch(s).value.pre != ""
    ensures forall i :: 0 <= i < |Split(FindSubmatch(s).value.pre, '.')| ==>
              var id := Split(FindSubmatch(s).value.pre, '.')[i]; id != "" && !LeadingZero(id)
  {
  }

  lemma ReadInjective(a: string, b: string)
    requires Accepted(a) && Accepted(b) && Read(a) == Read(b)
    ensures FindSubmatch(a) == FindSubmatch(b)
  {
    var p, q := FindSubmatch(a).value, FindSubmatch(b).value;
    LengthFirstIsNumeric(p.major, q.major);
    LengthFirstIsNumeric(p.minor, q.minor);
    LengthFirstIsNumeric(p.patch, q.patch);
    if p.pre != "" {
      AcceptedIds(a);
      AcceptedIds(b);
      assert |Split(p.pre, '.')| >= 1;
      ReadIdsInjective(Split(p.pre, '.'), Split(q.pre, '.'));
      JoinSplit(p.pre, '.');
      JoinSplit(q.pre, '.');
    }
  }

  /** Zero means: the same version up to a v prefix and build metadata. */
  lemma CompareZero(a: string, b: string)
    requires Accepted(a) && Accepted(b)
    ensures CompareVersions(a, b) == Ok(0) <==>
            exists p, v, x, w, y :: Spells(a, v, p, x) && Spells(b, w, p, y)
  {
    BelowTotal(Read(a), Read(b));
    if CompareVersions(a, b) == Ok(0) {
      ReadInjective(a, b);
      var p := FindSubmatch(a).value;
      SubmatchSound(a, p);
      SubmatchSound(b, p);
      var v, x :| Spells(a, v, p, x);
      var w, y :| Spells(b, w, p, y);
    }
    if exists p, v, x, w, y :: Spells(a, v, p, x) && Spells(b, w, p, y) {
      var p, v, x, w, y :| Spells(a, v, p, x) && Spells(b, w, p, y);
      SubmatchComplete(a, v, p, x);
      SubmatchComplete(b, w, p, y);
    }
  }

  /** A total preorder on accepted versions. */
  lemma ComparePreorder(a: string, b: string, c: string)
    requires Accepted(a) && Accepted(b) && Accepted(c)
    ensures CompareVersions(a, a) == Ok(0)
    ensures CompareVersions(b, a).value == -CompareVersions(a, b).value
    ensures CompareVersions(a, b).value <= 0 && CompareVersions(b, c).value <= 0 ==> CompareVersions(a, c).value <= 0
    ensures CompareVersions(a, b).value < 0 && CompareVersions(b, c).value <= 0 ==> CompareVersions(a, c).value < 0
    ensures CompareVersions(a, b).value <= 0 && CompareVersions(b, c).value < 0 ==> CompareVersions(a, c).value < 0
  {
    var x, y, z := Read(a), Read(b), Read(c);
    BelowTotal(x, x);
    BelowTotal(x, y);
    BelowTotal(y, z);
    BelowTotal(x, z);
    if Below(x, y) && Below(y, z) {
      BelowTransitive(x, y, z);
    }
  }

  lemma CompareTransitive(a: string, b: string, c: string)
    requires CompareVersions(a, b) == Ok(-1) && CompareVersions(b, c) == Ok(-1)
    ensures CompareVersions(a, c) == Ok(-1)
  {
    ComparePreorder(a, b, c);
  }

  // ---------------------------------------------------------------- the comparison loop

  /** The comparison of two numerals: by length, then by bytes. */
  function LengthFirst(a: string, b: string): int {
    if |a| < |b| then -1 else if |a| > |b| then 1 else Compare(a, b)
  }

  function CompareLengths(a: nat, b: nat): int {
    if a < b then -1 else if a > b then 1 else 0
  }

  /** One round of the identifier loop. */
  function CompareIdent(a: string, b: string): int {
    if AllDigits(a) && AllDigits(b) then LengthFirst(a, b)
    else if AllDigits(a) then -1
    else if AllDigits(b) then 1
    else Compare(a, b)
  }

  lemma CompareIdentIsOrder(a: string, b: string)
    requires a != "" && b != "" && !LeadingZero(a) && !LeadingZero(b)
    ensures CompareIdent(a, b) < 0 <==> IdentBelow(ReadIdent(a), ReadIdent(b))
    ensures CompareIdent(a, b) > 0 <==> IdentBelow(ReadIdent(b), ReadIdent(a))
    ensures CompareIdent(a, b) == 0 <==> a == b
    ensures -1 <= CompareIdent(a, b) <= 1
  {
    LessTrichotomy(a, b);
    if AllDigits(a) && AllDigits(b) {
      LengthFirstIsNumeric(a, b);
      LengthFirstIsNumeric(b, a);
    }
  }

  /** One round of the loop, on what is left of both identifier lists. */
  lemma FieldsStep(xs: seq<string>, ys: seq<string>, i: nat)
    requires i < |xs| && i < |ys|
    requires xs[i] != "" && ys[i] != "" && !LeadingZero(xs[i]) && !LeadingZero(ys[i])
    ensures var c, f, g := CompareIdent(xs[i], ys[i]), ReadIds(xs[i + 1..]), ReadIds(ys[i + 1..]);
            && (FieldsBelow(ReadIds(xs[i..]), ReadIds(ys[i..])) <==> c < 0 || (c == 0 && FieldsBelow(f, g)))
            && (FieldsBelow(ReadIds(ys[i..]), ReadIds(xs[i..])) <==> c > 0 || (c == 0 && FieldsBelow(g, f)))
            && -1 <= c <= 1 && (c == 0 <==> xs[i] == ys[i])
  {
    CompareIdentIsOrder(xs[i], ys[i]);
    assert xs[i..][1..] == xs[i + 1..] && ys[i..][1..] == ys[i + 1..];
    var f, g := ReadIds(xs[i..]), ReadIds(ys[i..]);
    assert f[1..] == ReadIds(xs[i + 1..]) && g[1..] == ReadIds(ys[i + 1..]);
    assert f[0] == ReadIdent(xs[i]) && g[0] == ReadIdent(ys[i]);
    FieldsTotal([f[0]], [g[0]]);
    if f[0] == g[0] && AllDigits(xs[i]) {
      LengthFirstIsNumeric(xs[i], ys[i]);
    }
  }

  method CheckLeadingZeros(ids: seq<string>) returns (ok: bool)
    ensures ok == NoLeadingZero(ids)
  {
    var k := 0;
    while k < |ids|
      invariant 0 <= k <= |ids|
      invariant forall j :: 0 <= j < k ==> !LeadingZero(ids[j])
    {
      if LeadingZero(ids[k]) {
        return false;
      }
      k := k + 1;
    }
    return true;
  }

  /** The validation both arguments pass before anything is compared. */
  method ParseVersion(s: string) returns (r: Option<Parts>)
    ensures r == if Accepted(s) then FindSubmatch(s) else None
  {
    r := FindSubmatch(s);
    if r.Some? {
      var ok := CheckLeadingZeros(Split(r.value.pre, '.'));
      if !ok {
        return None;
      }
    }
  }

  /** The loop over the three core numbers; 0 when they are all equal. */
  method CompareCore(p: Parts, q: Parts) returns (c: int)
    requires PartsShape(p) && PartsShape(q)
    ensures c == 0 <==> p.major == q.major && p.minor == q.minor && p.patch == q.patch
    ensures c != 0 ==> c == Order(ReadParts(p), ReadParts(q))
  {
    hide Less, PreBelow, IdentifierList;
    var xs, ys := [p.major, p.minor, p.patch], [q.major, q.minor, q.patch];
    var i := 0;
    while i < 3
      invariant 0 <= i <= 3
      invariant i > 0 ==> p.major == q.major
      invariant i > 1 ==> p.minor == q.minor
      invariant i > 2 ==> p.patch == q.patch
    {
      NumeralOrder(xs[i], ys[i]);
      c := LengthFirst(xs[i], ys[i]);
      if c != 0 {
        return;
      }
      i := i + 1;
    }
    return 0;
  }

  lemma NumeralOrder(a: string, b: string)
    requires Numeral(a) && Numeral(b)
    ensures var c, m, n := LengthFirst(a, b), ToNat(a), ToNat(b);
            && c == (if m < n then -1 else if n < m then 1 else 0)
            && (c == 0 <==> a == b)
  {
    LengthFirstIsNumeric(a, b);
    LengthFirstIsNumeric(b, a);
    LessTrichotomy(a, b);
  }

  method SecurityCompare(a: string, b: string) returns (r: Result<int>)
    ensures r == CompareVersions(a, b)
  {
    hide FindSubmatch, IdentifierList, NoLeadingZero, Numeral, PreBelow;
    var p := ParseVersion(a);
    if p.None? {
      return Err;
    }
    var q := ParseVersion(b);
    if q.None? {
      return Err;
    }
    SubmatchShape(a, p.value);
    SubmatchShape(b, q.value);
    var c := CompareCore(p.value, q.value);
    if c == 0 {
      c := ComparePre(p.value.pre, q.value.pre);
    }
    return Ok(c);
  }

  predicate Identifiers(x: string) {
    x != "" ==> IdentifierList(x) && NoLeadingZero(Split(x, '.'))
  }

  function ReadPre(x: string): seq<Ident> {
    if x == "" then [] else ReadIds(Split(x, '.'))
  }

  /** The tail of the comparison, from the prerelease texts on. */
  method ComparePre(x: string, y: string) returns (c: int)
    requires Identifiers(x) && Identifiers(y)
    ensures c == if PreBelow(ReadPre(x), ReadPre(y)) then -1 else if PreBelow(ReadPre(y), ReadPre(x)) then 1 else 0
  {
    FieldsTotal(ReadPre(x), ReadPre(y));
    if x == y {
      return 0;
    }
    if x == "" {
      return 1;
    }
    if y == "" {
      return -1;
    }
    var xs, ys := Split(x, '.'), Split(y, '.');
    assert xs[0..] == xs && ys[0..] == ys;
    var i := 0;
    while i < |xs| && i < |ys|
      invariant 0 <= i <= |xs| && i <= |ys|
      invariant FieldsBelow(ReadIds(xs), ReadIds(ys)) == FieldsBelow(ReadIds(xs[i..]), ReadIds(ys[i..]))
      invariant FieldsBelow(ReadIds(ys), ReadIds(xs)) == FieldsBelow(ReadIds(ys[i..]), ReadIds(xs[i..]))
    {
      FieldsStep(xs, ys, i);
      c := CompareIdent(xs[i], ys[i]);
      if c != 0 {
        return;
      }
      i := i + 1;
    }
    c := CompareLengths(|xs|, |ys|);
  }
}
