/** Strings as the release tools use them: bytewise order, splitting and joining, cutting and decimal digits. */
module Text {
  datatype Option<+T> = None | Some(value: T) {
    function GetOr(default: T): T {
      match this case None => default case Some(v) => v
    }
  }

  datatype Result<+T> = Ok(value: T) | Err

  /** Strict lexicographic order of strings, byte by byte. */
  predicate Less(a: string, b: string) {
    b != [] && (a == [] || a[0] < b[0] || (a[0] == b[0] && Less(a[1..], b[1..])))
  }

  /** Go's strings.Compare. */
  function Compare(a: string, b: string): int {
    if a == b then 0 else if Less(a, b) then -1 else 1
  }

  lemma {:induction false} LessIrreflexive(a: string)
    ensures !Less(a, a)
  {
    if a != [] {
      LessIrreflexive(a[1..]);
    }
  }

  lemma {:induction false} LessTransitive(a: string, b: string, c: string)
    requires Less(a, b) && Less(b, c)
    ensures Less(a, c)
  {
    if a != [] && a[0] == b[0] && b[0] == c[0] {
      LessTransitive(a[1..], b[1..], c[1..]);
    }
  }

  /** Exactly one of a < b, a == b, b < a. */
  lemma {:induction false} LessTrichotomy(a: string, b: string)
    ensures Less(a, b) || a == b || Less(b, a)
    ensures !(Less(a, b) && Less(b, a)) && !(a == b && Less(a, b))
  {
    LessIrreflexive(a);
    if a != [] && b != [] && a[0] == b[0] {
      LessTrichotomy(a[1..], b[1..]);
      assert a == [a[0]] + a[1..] && b == [b[0]] + b[1..];
    }
  }

  /** The order is decided at the first difference; a proper prefix comes first. */
  ghost predicate DecidedAt(a: string, b: string, k: nat) {
    k <= |a| && k < |b| && (forall i :: 0 <= i < k ==> a[i] == b[i]) && (k == |a| || a[k] < b[k])
  }

  lemma {:induction false} LessIs(a: string, b: string)
    ensures Less(a, b) <==> exists k: nat :: DecidedAt(a, b, k)
  {
    if b != [] && a == [] {
      assert DecidedAt(a, b, 0);
    } else if b != [] && a[0] < b[0] {
      assert DecidedAt(a, b, 0);
    } else if b != [] && a[0] == b[0] {
      var x, y := a[1..], b[1..];
      LessIs(x, y);
      assert a == [a[0]] + x && b == [b[0]] + y;
      if k: nat :| DecidedAt(x, y, k) {
        assert DecidedAt(a, b, k + 1);
      }
      if k: nat :| DecidedAt(a, b, k) {
        assert DecidedAt(x, y, k - 1);
      }
    }
  }

  // ---------------------------------------------------------------- distinct elements

  predicate Distinct<T(==)>(s: seq<T>) {
    forall i, j :: 0 <= i < j < |s| ==> s[i] != s[j]
  }

  function Elements<T>(s: seq<T>): set<T> {
    set x | x in s
  }

  lemma {:induction false} DistinctCount<T>(s: seq<T>)
    requires Distinct(s)
    ensures |Elements(s)| == |s|
  {
    if s != [] {
      var init, last := s[..|s| - 1], s[|s| - 1];
      DistinctCount(init);
      assert forall i :: 0 <= i < |init| ==> init[i] != last;
      assert s == init + [last];
      ElementsSnoc(init, last);
      assert last !in Elements(init);
    }
  }

  lemma ElementsSnoc<T>(s: seq<T>, x: T)
    ensures Elements(s + [x]) == Elements(s) + {x}
  {
  }

  lemma SubsetOfSameSize<T>(a: set<T>, b: set<T>)
    requires a <= b && |a| == |b|
    ensures a == b
  {
    assert b == a + (b - a);
  }

  /** What is left of a list without repetition, once its next element is gone. */
  lemma DistinctRest<T>(s: seq<T>, i: nat)
    requires Distinct(s) && i < |s|
    ensures s[i] !in s[i + 1..]
    ensures forall x :: x in s[i..] <==> x == s[i] || x in s[i + 1..]
  {
    assert s[i..] == [s[i]] + s[i + 1..];
  }

  lemma SubsetCount<T>(a: set<T>, b: set<T>)
    requires a <= b
    ensures |a| <= |b|
  {
    assert b == a + (b - a);
  }

  predicate EndsWith(s: string, suffix: string) {
    |s| >= |suffix| && s[|s| - |suffix|..] == suffix
  }

  // ---------------------------------------------------------------- split and join

  /** Go's strings.Split for a one-byte separator. */
  function Split(s: string, c: char): (parts: seq<string>)
    ensures |parts| >= 1
  {
    if s == [] then [""]
    else
      var rest := Split(s[1..], c);
      if s[0] == c then [""] + rest else [[s[0]] + rest[0]] + rest[1..]
  }

  /** Go's strings.Join for a one-byte separator. */
  function Join(parts: seq<string>, c: char): string {
    if |parts| == 0 then "" else if |parts| == 1 then parts[0] else parts[0] + [c] + Join(parts[1..], c)
  }

  predicate Lacks(s: string, c: char) {
    forall i :: 0 <= i < |s| ==> s[i] != c
  }

  lemma {:induction false} JoinSplit(s: string, c: char)
    ensures Join(Split(s, c), c) == s
    ensures forall i :: 0 <= i < |Split(s, c)| ==> Lacks(Split(s, c)[i], c)
  {
    SplitLacks(s, c);
    hide Lacks;
    if s != [] {
      JoinSplit(s[1..], c);
      var rest := Split(s[1..], c);
      assert s == [s[0]] + s[1..];
      if s[0] == c {
        assert Split(s, c)[1..] == rest;
      } else if |rest| > 1 {
        assert Split(s, c)[1..] == rest[1..];
      }
    }
  }

  lemma {:induction false} SplitLacks(s: string, c: char)
    ensures forall i :: 0 <= i < |Split(s, c)| ==> Lacks(Split(s, c)[i], c)
  {
    if s != [] {
      SplitLacks(s[1..], c);
    }
  }

  lemma {:induction false} SplitLacking(s: string, c: char)
    requires Lacks(s, c)
    ensures Split(s, c) == [s]
  {
    if s != [] {
      SplitLacking(s[1..], c);
      assert s == [s[0]] + s[1..];
    }
  }

  /** Splitting after a separator-free first part peels exactly that part off. */
  lemma {:induction false} SplitPeel(a: string, b: string, c: char)
    requires Lacks(a, c)
    ensures Split(a + [c] + b, c) == [a] + Split(b, c)
  {
    var s := a + [c] + b;
    if a == [] {
      assert s == [c] + b && s[1..] == b;
    } else {
      assert s[1..] == a[1..] + [c] + b;
      SplitPeel(a[1..], b, c);
      assert a == [a[0]] + a[1..];
    }
  }

  lemma {:induction false} SplitJoin(parts: seq<string>, c: char)
    requires |parts| >= 1
    requires forall i :: 0 <= i < |parts| ==> Lacks(parts[i], c)
    ensures Split(Join(parts, c), c) == parts
  {
    if |parts| == 1 {
      SplitLacking(parts[0], c);
    } else {
      SplitJoin(parts[1..], c);
      SplitPeel(parts[0], Join(parts[1..], c), c);
    }
  }

  // ---------------------------------------------------------------- cut

  /** Go's strings.Cut for a one-byte separator. */
  datatype Cutting = Cutting(before: string, after: string, found: bool)

  function Cut(s: string, c: char): (r: Cutting)
    ensures Lacks(r.before, c)
    ensures r.found ==> s == r.before + [c] + r.after
    ensures !r.found ==> s == r.before && r.after == ""
  {
    if s == [] then Cutting("", "", false)
    else if s[0] == c then
      assert s == [c] + s[1..];
      Cutting("", s[1..], true)
    else
      var rest := Cut(s[1..], c);
      assert s == [s[0]] + s[1..];
      Cutting([s[0]] + rest.before, rest.after, rest.found)
  }

  lemma {:induction false} CutAt(a: string, b: string, c: char)
    requires Lacks(a, c)
    ensures Cut(a + [c] + b, c) == Cutting(a, b, true)
  {
    var s := a + [c] + b;
    if a == [] {
      assert s == [c] + b && s[1..] == b;
    } else {
      assert s[1..] == a[1..] + [c] + b;
      CutAt(a[1..], b, c);
      assert a == [a[0]] + a[1..];
    }
  }

  lemma {:induction false} CutLacking(s: string, c: char)
    requires Lacks(s, c)
    ensures Cut(s, c) == Cutting(s, "", false)
  {
    if s != [] {
      CutLacking(s[1..], c);
      assert s == [s[0]] + s[1..];
    }
  }

  // ---------------------------------------------------------------- decimal digits

  predicate IsDigit(c: char) {
    '0' <= c <= '9'
  }

  /** strings.Trim(s, "0123456789") == "" */
  predicate AllDigits(s: string) {
    forall i :: 0 <= i < |s| ==> IsDigit(s[i])
  }

  function Pow10(n: nat): (p: nat)
    ensures p >= 1
  {
    if n == 0 then 1 else 10 * Pow10(n - 1)
  }

  /** The integer a digit string denotes. */
  function ToNat(s: string): nat
    requires AllDigits(s)
  {
    if s == [] then 0 else Times(s[0] as int - '0' as int, Pow10(|s| - 1)) + ToNat(s[1..])
  }

  function Times(x: nat, y: nat): nat {
    x * y
  }

  /** Reading one more digit. */
  lemma {:induction false} ToNatSnoc(s: string, c: char)
    requires AllDigits(s + [c])
    ensures AllDigits(s) && IsDigit(c) && ToNat(s + [c]) == 10 * ToNat(s) + (c as int - '0' as int)
  {
    assert forall i :: 0 <= i < |s| ==> (s + [c])[i] == s[i];
    assert (s + [c])[|s|] == c;
    if s == [] {
      assert [c][1..] == [];
    } else {
      hide Times;
      assert (s + [c])[1..] == s[1..] + [c];
      ToNatSnoc(s[1..], c);
      TimesTen(s[0] as int - '0' as int, Pow10(|s| - 1));
    }
  }

  lemma {:induction false} TimesTen(x: nat, y: nat)
    ensures Times(x, 10 * y) == 10 * Times(x, y)
  {
  }

  /** A decimal numeral without a leading zero. */
  predicate Numeral(s: string) {
    s != [] && AllDigits(s) && (|s| > 1 ==> s[0] != '0')
  }

  lemma {:induction false} MultipleGap(x: nat, y: nat, p: nat)
    requires x < y
    ensures x * p + p <= y * p
  {
    var before := y - 1;
    assert y * p == before * p + p;
    if x < before {
      MultipleGap(x, before, p);
    }
  }

  lemma {:induction false} ToNatBound(s: string)
    requires AllDigits(s)
    ensures ToNat(s) < Pow10(|s|)
  {
    if s != [] {
      ToNatBound(s[1..]);
      MultipleGap(s[0] as int - '0' as int, 10, Pow10(|s| - 1));
    }
  }

  lemma {:induction false} Pow10Monotone(m: nat, n: nat)
    requires m <= n
    ensures Pow10(m) <= Pow10(n)
  {
    if m < n {
      Pow10Monotone(m, n - 1);
    }
  }

  lemma {:induction false} SameLengthOrder(a: string, b: string)
    requires AllDigits(a) && AllDigits(b) && |a| == |b| && Less(a, b)
    ensures ToNat(a) < ToNat(b)
  {
    if a[0] == b[0] {
      SameLengthOrder(a[1..], b[1..]);
    } else {
      ToNatBound(a[1..]);
      MultipleGap(a[0] as int - '0' as int, b[0] as int - '0' as int, Pow10(|a| - 1));
    }
  }

  lemma ShorterIsSmaller(a: string, b: string)
    requires Numeral(a) && Numeral(b) && |a| < |b|
    ensures ToNat(a) < ToNat(b)
  {
    ToNatBound(a);
    Pow10Monotone(|a|, |b| - 1);
    MultipleGap(0, b[0] as int - '0' as int, Pow10(|b| - 1));
  }

  /** Comparing lengths first and bytes second is comparing the integers. */
  lemma LengthFirstIsNumeric(a: string, b: string)
    requires Numeral(a) && Numeral(b)
    ensures ToNat(a) < ToNat(b) <==> |a| < |b| || (|a| == |b| && Less(a, b))
    ensures ToNat(a) == ToNat(b) <==> a == b
  {
    if |a| < |b| {
      ShorterIsSmaller(a, b);
    } else if |b| < |a| {
      ShorterIsSmaller(b, a);
    } else {
      LessTrichotomy(a, b);
      if Less(a, b) {
        SameLengthOrder(a, b);
      } else if Less(b, a) {
        SameLengthOrder(b, a);
      }
    }
  }
}
