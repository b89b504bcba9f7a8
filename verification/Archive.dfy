/** Extracting an evidence archive: the collision check, then the exclusive creations. */
module Archive {
  import opened Text

  /** An entry name, component by component. */
  type Path = seq<string>

  datatype Entry = Entry(name: Path, regular: bool, size: nat)

  /** Portable-path test, case folding of a component, and the size bound of one entry. */
  datatype Rules = Rules(safe: Path -> bool, fold: string -> string, limit: nat)

  const MAX_ENTRIES := 128

  function Fold(fold: string -> string, p: Path): (r: Path)
    ensures |r| == |p| && forall k :: 0 <= k < |r| ==> r[k] == fold(p[k])
  {
    seq(|p|, k requires 0 <= k < |p| => fold(p[k]))
  }

  /** The folded form of the first m components. */
  function Key(fold: string -> string, p: Path, m: nat): (r: Path)
    requires m <= |p|
    ensures |r| == m
  {
    Fold(fold, p[..m])
  }

  // ---------------------------------------------------------------- when two names can live together

  /** Different folded names, neither a folded directory of the other, and directories they share spelled alike. */
  ghost predicate Compatible(fold: string -> string, a: Path, b: Path) {
    && (forall m :: 1 <= m <= |b| ==> Fold(fold, a) != Key(fold, b, m))
    && (forall m :: 1 <= m <= |a| ==> Fold(fold, b) != Key(fold, a, m))
    && (forall m :: 1 <= m < |a| && m < |b| && Key(fold, a, m) == Key(fold, b, m) ==> a[..m] == b[..m])
  }

  lemma CompatibleSymmetric(fold: string -> string, a: Path, b: Path)
    ensures Compatible(fold, a, b) <==> Compatible(fold, b, a)
  {
  }

  ghost predicate AllCompatible(fold: string -> string, names: seq<Path>) {
    forall i, j :: 0 <= i < j < |names| ==> Compatible(fold, names[i], names[j])
  }

  lemma AllCompatibleSnoc(fold: string -> string, names: seq<Path>, name: Path)
    ensures AllCompatible(fold, names + [name]) <==>
              AllCompatible(fold, names) && forall i :: 0 <= i < |names| ==> Compatible(fold, names[i], name)
  {
    hide Compatible;
    var all := names + [name];
    assert all[|names|] == name && forall i :: 0 <= i < |names| ==> all[i] == names[i];
  }

  // ---------------------------------------------------------------- the lookup tables

  /** seen holds every folded prefix of every name with its spelling, files the folded names. */
  ghost predicate Tables(fold: string -> string, names: seq<Path>, seen: map<Path, Path>, files: set<Path>) {
    && (forall i :: 0 <= i < |names| ==> Fold(fold, names[i]) in files)
    && (forall k :: k in files ==> exists i :: 0 <= i < |names| && Fold(fold, names[i]) == k)
    && (forall i, m :: 0 <= i < |names| && 1 <= m <= |names[i]| ==>
          Key(fold, names[i], m) in seen && seen[Key(fold, names[i], m)] == names[i][..m])
    && (forall k :: k in seen ==> From(fold, names, k))
  }

  ghost predicate From(fold: string -> string, names: seq<Path>, k: Path) {
    exists i :: 0 <= i < |names| && 1 <= |k| <= |names[i]| && Key(fold, names[i], |k|) == k
  }

  /** The tables have no objection to the name. */
  ghost predicate Free(fold: string -> string, seen: map<Path, Path>, files: set<Path>, name: Path) {
    && Fold(fold, name) !in seen
    && forall m :: 1 <= m < |name| ==> DirFree(fold, seen, files, name, m)
  }

  predicate DirFree(fold: string -> string, seen: map<Path, Path>, files: set<Path>, name: Path, m: nat)
    requires m <= |name|
  {
    Key(fold, name, m) !in files && (Key(fold, name, m) in seen ==> seen[Key(fold, name, m)] == name[..m])
  }

  lemma WholeKey(fold: string -> string, p: Path)
    ensures Key(fold, p, |p|) == Fold(fold, p)
  {
  }

  /** The tables decide compatibility with everything seen so far. */
  lemma TablesDecide(fold: string -> string, names: seq<Path>, seen: map<Path, Path>, files: set<Path>, name: Path)
    requires Tables(fold, names, seen, files) && name != []
    ensures Free(fold, seen, files, name) <==> forall i :: 0 <= i < |names| ==> Compatible(fold, names[i], name)
  {
    if Free(fold, seen, files, name) {
      forall i | 0 <= i < |names| ensures Compatible(fold, names[i], name) {
        FreeMeans(fold, names, seen, files, name, i);
      }
    }
    if forall i :: 0 <= i < |names| ==> Compatible(fold, names[i], name) {
      CompatibleMeans(fold, names, seen, files, name);
    }
  }

  lemma FreeMeans(fold: string -> string, names: seq<Path>, seen: map<Path, Path>, files: set<Path>, name: Path, i: nat)
    requires Tables(fold, names, seen, files) && Free(fold, seen, files, name) && i < |names|
    ensures Compatible(fold, names[i], name)
  {
    hide Key, Fold;
    WholeKey(fold, name);
    WholeKey(fold, names[i]);
    var a := names[i];
    forall m | 1 <= m <= |name| ensures Fold(fold, a) != Key(fold, name, m) {
      if m < |name| {
        assert DirFree(fold, seen, files, name, m);
      } else if |a| == m {
        assert Key(fold, a, |a|) in seen;
      }
    }
    forall m | 1 <= m < |a| && m < |name| && Key(fold, a, m) == Key(fold, name, m) ensures a[..m] == name[..m] {
      assert DirFree(fold, seen, files, name, m);
      assert seen[Key(fold, a, m)] == a[..m];
    }
  }

  lemma CompatibleMeans(fold: string -> string, names: seq<Path>, seen: map<Path, Path>, files: set<Path>, name: Path)
    requires Tables(fold, names, seen, files) && name != []
    requires forall i :: 0 <= i < |names| ==> Compatible(fold, names[i], name)
    ensures Free(fold, seen, files, name)
  {
    hide Key, Fold, Compatible;
    WholeKey(fold, name);
    if Fold(fold, name) in seen {
      var i :| 0 <= i < |names| && 1 <= |name| <= |names[i]| && Key(fold, names[i], |name|) == Fold(fold, name);
      NoClash(fold, names[i], name, |name|);
    }
    forall m | 1 <= m < |name| ensures DirFree(fold, seen, files, name, m) {
      var key := Key(fold, name, m);
      if key in files {
        var i :| 0 <= i < |names| && Fold(fold, names[i]) == key;
        NoClash(fold, names[i], name, m);
      }
      if key in seen {
        assert From(fold, names, key);
        var i :| 0 <= i < |names| && 1 <= |key| <= |names[i]| && Key(fold, names[i], |key|) == key;
        NoClash(fold, names[i], name, m);
        assert seen[Key(fold, names[i], m)] == names[i][..m];
      }
    }
  }

  /** What compatibility says about the first m components of b. */
  lemma NoClash(fold: string -> string, a: Path, b: Path, m: nat)
    requires Compatible(fold, a, b) && 1 <= m <= |b|
    ensures Fold(fold, a) != Key(fold, b, m)
    ensures m <= |a| && Key(fold, a, m) == Key(fold, b, m) ==> m < |a| && m < |b| && a[..m] == b[..m]
  {
    hide Key, Fold;
    WholeKey(fold, a);
    WholeKey(fold, b);
  }

  // ---------------------------------------------------------------- the check of one entry

  /** The tables after the name and its directories of at least m components. */
  ghost predicate Entered(fold: string -> string, before: map<Path, Path>, after: map<Path, Path>, name: Path, m: nat)
    requires m <= |name|
  {
    && (forall k :: k in before ==> k in after && after[k] == before[k])
    && (forall j :: m <= j <= |name| && j >= 1 ==> Key(fold, name, j) in after && after[Key(fold, name, j)] == name[..j])
    && (forall k :: k in after && k !in before ==> m <= |k| <= |name| && |k| >= 1 && k == Key(fold, name, |k|))
  }

  lemma EnterDir(fold: string -> string, before: map<Path, Path>, after: map<Path, Path>, files: set<Path>, name: Path,
                 m: nat)
    requires 1 <= m < |name| && Entered(fold, before, after, name, m + 1)
    ensures DirFree(fold, before, files, name, m) <==> DirFree(fold, after, files, name, m)
    ensures DirFree(fold, before, files, name, m) ==>
              Entered(fold, before, after[Key(fold, name, m) := name[..m]], name, m)
  {
    hide Key;
  }

  lemma EnterName(fold: string -> string, before: map<Path, Path>, name: Path)
    requires Fold(fold, name) !in before && name != []
    ensures Entered(fold, before, before[Fold(fold, name) := name], name, |name|)
  {
    hide Fold;
    WholeKey(fold, name);
    assert name[..|name|] == name;
  }

  lemma FilesNext(fold: string -> string, names: seq<Path>, files: set<Path>, name: Path)
    requires forall i :: 0 <= i < |names| ==> Fold(fold, names[i]) in files
    requires forall k :: k in files ==> exists i :: 0 <= i < |names| && Fold(fold, names[i]) == k
    ensures var all, more := names + [name], files + {Fold(fold, name)};
            && (forall i :: 0 <= i < |all| ==> Fold(fold, all[i]) in more)
            && (forall k :: k in more ==> exists i :: 0 <= i < |all| && Fold(fold, all[i]) == k)
  {
    hide Fold;
    var all, more := names + [name], files + {Fold(fold, name)};
    assert all[|names|] == name && forall i :: 0 <= i < |names| ==> all[i] == names[i];
    forall k | k in more ensures exists i :: 0 <= i < |all| && Fold(fold, all[i]) == k {
      if k in files {
        var i :| 0 <= i < |names| && Fold(fold, names[i]) == k;
        assert Fold(fold, all[i]) == k;
      } else {
        assert Fold(fold, all[|names|]) == k;
      }
    }
  }

  lemma FromNext(fold: string -> string, names: seq<Path>, name: Path, k: Path)
    requires From(fold, names, k) || (1 <= |k| <= |name| && k == Key(fold, name, |k|))
    ensures From(fold, names + [name], k)
  {
    hide Key;
    var all := names + [name];
    if From(fold, names, k) {
      var i :| 0 <= i < |names| && 1 <= |k| <= |names[i]| && Key(fold, names[i], |k|) == k;
      assert Key(fold, all[i], |k|) == k;
    } else {
      assert Key(fold, all[|names|], |k|) == k;
    }
  }

  lemma TablesNext(fold: string -> string, names: seq<Path>, before: map<Path, Path>, files: set<Path>,
                   after: map<Path, Path>, name: Path)
    requires Tables(fold, names, before, files) && name != [] && Entered(fold, before, after, name, 1)
    ensures Tables(fold, names + [name], after, files + {Fold(fold, name)})
  {
    hide Key, Fold, From;
    var all := names + [name];
    FilesNext(fold, names, files, name);
    forall k | k in after ensures From(fold, all, k) {
      FromNext(fold, names, name, k);
    }
    forall i, m | 0 <= i < |all| && 1 <= m <= |all[i]|
      ensures Key(fold, all[i], m) in after && after[Key(fold, all[i], m)] == all[i][..m]
    {
      assert i < |names| ==> all[i] == names[i];
    }
  }

  class Precheck {
    const fold: string -> string
    var seen: map<Path, Path>
    var files: set<Path>
    ghost var names: seq<Path>

    constructor (fold: string -> string)
      ensures this.fold == fold && names == [] && Tables(fold, names, seen, files)
    {
      this.fold := fold;
      seen, files, names := map[], {}, [];
    }

    /** One entry against everything before it. */
    method Admit(name: Path) returns (ok: bool)
      requires Tables(fold, names, seen, files) && name != []
      modifies this
      ensures ok <==> forall i :: 0 <= i < |old(names)| ==> Compatible(fold, old(names)[i], name)
      ensures ok ==> names == old(names) + [name] && Tables(fold, names, seen, files)
    {
      hide Tables, Entered, DirFree, Compatible, Key;
      ghost var before, known := seen, files;
      TablesDecide(fold, names, seen, files, name);
      if Fold(fold, name) in seen {
        return false;
      }
      EnterName(fold, seen, name);
      seen := seen[Fold(fold, name) := name];
      files := files + {Fold(fold, name)};
      var m := |name| - 1;
      while m >= 1
        invariant names == old(names) && 0 <= m < |name| && Entered(fold, before, seen, name, m + 1) && files == known + {Fold(fold, name)}
        invariant forall j :: m < j < |name| ==> DirFree(fold, before, known, name, j)
      {
        EnterDir(fold, before, seen, known, name, m);
        OwnName(fold, seen, known, name, m);
        if !DirFree(fold, seen, files, name, m) {
          return false;
        }
        seen := seen[Key(fold, name, m) := name[..m]];
        m := m - 1;
      }
      TablesNext(fold, names, before, known, seen, name);
      names := names + [name];
      return true;
    }
  }

  /** A name does not stand in the way of its own directories. */
  lemma OwnName(fold: string -> string, seen: map<Path, Path>, files: set<Path>, name: Path, m: nat)
    requires m < |name|
    ensures DirFree(fold, seen, files + {Fold(fold, name)}, name, m) <==> DirFree(fold, seen, files, name, m)
  {
  }

  // ---------------------------------------------------------------- the whole check

  function NamesOf(entries: seq<Entry>): (r: seq<Path>)
    ensures |r| == |entries| && forall i :: 0 <= i < |r| ==> r[i] == entries[i].name
  {
    seq(|entries|, i requires 0 <= i < |entries| => entries[i].name)
  }

  function Total(entries: seq<Entry>): nat {
    if entries == [] then 0 else Total(entries[..|entries| - 1]) + entries[|entries| - 1].size
  }

  predicate SafeEntry(e: Entry, rules: Rules) {
    e.name != [] && rules.safe(e.name) && e.regular && e.size <= rules.limit
  }

  /** The order-free meaning of the check. */
  ghost predicate Accepted(entries: seq<Entry>, rules: Rules) {
    && |entries| <= MAX_ENTRIES && Total(entries) <= 5 * rules.limit
    && (forall i :: 0 <= i < |entries| ==> SafeEntry(entries[i], rules))
    && AllCompatible(rules.fold, NamesOf(entries))
  }

  lemma {:induction false} TotalGrows(entries: seq<Entry>, n: nat)
    requires n <= |entries|
    ensures Total(entries[..n]) <= Total(entries)
    decreases |entries|
  {
    if n < |entries| {
      TotalGrows(entries[..|entries| - 1], n);
      assert entries[..|entries| - 1][..n] == entries[..n];
    } else {
      assert entries[..n] == entries;
    }
  }

  /** The first pass. */
  method CheckEntries(entries: seq<Entry>, rules: Rules) returns (ok: bool)
    ensures ok <==> Accepted(entries, rules)
  {
    hide AllCompatible, Tables, Compatible, Fold, Total;
    if |entries| > MAX_ENTRIES {
      return false;
    }
    var pre := new Precheck(rules.fold);
    var total := 0;
    var i := 0;
    NoNames(rules.fold);
    while i < |entries|
      invariant 0 <= i <= |entries| && total == Total(entries[..i]) <= 5 * rules.limit
      invariant pre.fold == rules.fold && pre.names == NamesOf(entries)[..i]
      invariant Tables(pre.fold, pre.names, pre.seen, pre.files) && AllCompatible(rules.fold, pre.names)
      invariant forall k :: 0 <= k < i ==> SafeEntry(entries[k], rules)
      invariant fresh(pre)
    {
      var e := entries[i];
      if e.name == [] || !rules.safe(e.name) || !e.regular || e.size > rules.limit {
        return false;
      }
      EntriesNext(entries, rules, i);
      var free := pre.Admit(e.name);
      if !free {
        return false;
      }
      total := total + e.size;
      if total > 5 * rules.limit {
        return false;
      }
      i := i + 1;
    }
    assert entries[..i] == entries && NamesOf(entries)[..i] == NamesOf(entries);
    return true;
  }

  /** What the i-th entry adds. */
  lemma EntriesNext(entries: seq<Entry>, rules: Rules, i: nat)
    requires i < |entries|
    ensures Total(entries[..i + 1]) == Total(entries[..i]) + entries[i].size
    ensures Total(entries[..i + 1]) <= Total(entries)
    ensures var names := NamesOf(entries);
            && names[..i + 1] == names[..i] + [entries[i].name]
            && (AllCompatible(rules.fold, names[..i + 1]) <==>
                  && AllCompatible(rules.fold, names[..i])
                  && forall k :: 0 <= k < i ==> Compatible(rules.fold, names[..i][k], entries[i].name))
            && (!AllCompatible(rules.fold, names[..i + 1]) ==> !AllCompatible(rules.fold, names))
  {
    hide AllCompatible, Compatible, Total;
    TotalNext(entries, i);
    TotalGrows(entries, i + 1);
    NamesNext(rules.fold, NamesOf(entries), i);
  }

  lemma TotalNext(entries: seq<Entry>, i: nat)
    requires i < |entries|
    ensures Total(entries[..i + 1]) == Total(entries[..i]) + entries[i].size
  {
    assert entries[..i + 1][..i] == entries[..i];
  }

  lemma NamesNext(fold: string -> string, names: seq<Path>, i: nat)
    requires i < |names|
    ensures names[..i + 1] == names[..i] + [names[i]]
    ensures AllCompatible(fold, names[..i + 1]) <==>
              AllCompatible(fold, names[..i]) && forall k :: 0 <= k < i ==> Compatible(fold, names[..i][k], names[i])
    ensures !AllCompatible(fold, names[..i + 1]) ==> !AllCompatible(fold, names)
  {
    hide AllCompatible, Compatible;
    assert names[..i + 1] == names[..i] + [names[i]];
    AllCompatibleSnoc(fold, names[..i], names[i]);
    if !AllCompatible(fold, names[..i + 1]) {
      NotCompatible(fold, names, i + 1);
    }
  }

  lemma NoNames(fold: string -> string)
    ensures AllCompatible(fold, []) && Total([]) == 0
  {
  }

  lemma NotCompatible(fold: string -> string, names: seq<Path>, n: nat)
    requires n <= |names| && !AllCompatible(fold, names[..n])
    ensures !AllCompatible(fold, names)
  {
  }

  // ---------------------------------------------------------------- what the check comes to

  /** The first m components are the same up to folding. */
  predicate AlikeTo(fold: string -> string, a: Path, b: Path, m: nat) {
    m <= |a| && m <= |b| && forall k :: 0 <= k < m ==> fold(a[k]) == fold(b[k])
  }

  lemma AlikeIs(fold: string -> string, a: Path, b: Path, m: nat)
    requires m <= |a| && m <= |b|
    ensures AlikeTo(fold, a, b, m) <==> Key(fold, a, m) == Key(fold, b, m)
  {
    if Key(fold, a, m) == Key(fold, b, m) {
      forall k | 0 <= k < m ensures fold(a[k]) == fold(b[k]) {
        assert Key(fold, a, m)[k] == fold(a[k]) && Key(fold, b, m)[k] == fold(b[k]);
      }
    }
  }

  /** Wherever two names agree up to folding both go on and are spelled alike. */
  ghost predicate Distinguished(fold: string -> string, a: Path, b: Path) {
    forall m: nat :: m >= 1 && AlikeTo(fold, a, b, m) ==> m < |a| && m < |b| && a[..m] == b[..m]
  }

  lemma CompatibleIs(fold: string -> string, a: Path, b: Path)
    requires a != [] && b != []
    ensures Compatible(fold, a, b) <==> Distinguished(fold, a, b)
  {
    hide Key, Fold;
    WholeKey(fold, a);
    WholeKey(fold, b);
    forall m: nat | m <= |a| && m <= |b| ensures AlikeTo(fold, a, b, m) <==> Key(fold, a, m) == Key(fold, b, m) {
      AlikeIs(fold, a, b, m);
    }
    if Distinguished(fold, a, b) {
      forall m | 1 <= m <= |b| ensures Fold(fold, a) != Key(fold, b, m) {
        if m == |a| {
          assert !AlikeTo(fold, a, b, m);
        }
      }
      forall m | 1 <= m <= |a| ensures Fold(fold, b) != Key(fold, a, m) {
        if m == |b| {
          assert !AlikeTo(fold, a, b, m);
        }
      }
    }
  }

  /** The sizes add up. */
  lemma {:induction false} TotalThen(a: seq<Entry>, b: seq<Entry>)
    ensures Total([]) == 0 && Total(a + b) == Total(a) + Total(b)
    ensures forall e :: Total([e]) == e.size
    decreases |b|
  {
    if b == [] {
      assert a + b == a;
    } else {
      TotalThen(a, b[..|b| - 1]);
      assert (a + b)[..|a + b| - 1] == a + b[..|b| - 1];
    }
  }

  /**
   An archive is accepted exactly when it has at most 128 entries of at most five times the limit in all, each a
   regular file within the limit under a safe name, and any two names go on, spelled alike, where folding confuses them.
   */
  lemma AcceptedIs(entries: seq<Entry>, rules: Rules)
    ensures Accepted(entries, rules) <==>
              && |entries| <= 128 && Total(entries) <= 5 * rules.limit
              && (forall e :: e in entries ==> e.name != [] && rules.safe(e.name) && e.regular && e.size <= rules.limit)
              && forall i, j :: 0 <= i < j < |entries| ==> Distinguished(rules.fold, entries[i].name, entries[j].name)
  {
    hide Compatible, Distinguished;
    if forall e :: e in entries ==> SafeEntry(e, rules) {
      forall i, j | 0 <= i < j < |entries|
        ensures Compatible(rules.fold, entries[i].name, entries[j].name) <==>
                  Distinguished(rules.fold, entries[i].name, entries[j].name)
      {
        assert entries[i] in entries && entries[j] in entries;
        CompatibleIs(rules.fold, entries[i].name, entries[j].name);
      }
    }
  }

  // ---------------------------------------------------------------- the order of the entries does not matter

  /** Any two occurrences are compatible, and no name occurs twice. */
  lemma AllCompatibleIs(fold: string -> string, names: seq<Path>)
    requires forall i :: 0 <= i < |names| ==> names[i] != []
    ensures AllCompatible(fold, names) <==>
              && (forall a, b :: a in names && b in names && a != b ==> Compatible(fold, a, b))
              && (forall a :: a in names ==> multiset(names)[a] == 1)
  {
    hide Compatible;
    if AllCompatible(fold, names) {
      forall a, b | a in names && b in names && a != b ensures Compatible(fold, a, b) {
        var i :| 0 <= i < |names| && names[i] == a;
        var j :| 0 <= j < |names| && names[j] == b;
        CompatibleSymmetric(fold, a, b);
      }
      forall i, j | 0 <= i < j < |names| ensures names[i] != names[j] {
        SelfClash(fold, names[i]);
      }
      DistinctOnce(names);
    }
    if (forall a, b :: a in names && b in names && a != b ==> Compatible(fold, a, b))
       && (forall a :: a in names ==> multiset(names)[a] == 1) {
      OnceDistinct(names);
    }
  }

  lemma SelfClash(fold: string -> string, a: Path)
    requires a != []
    ensures !Compatible(fold, a, a)
  {
    WholeKey(fold, a);
  }

  lemma {:induction false} DistinctOnce(s: seq<Path>)
    requires Distinct(s)
    ensures forall a :: a in s ==> multiset(s)[a] == 1
  {
    if s != [] {
      var init, last := s[..|s| - 1], s[|s| - 1];
      assert s == init + [last];
      DistinctOnce(init);
      assert last !in init;
      assert multiset(init)[last] == 0;
    }
  }

  lemma {:induction false} OnceDistinct(s: seq<Path>)
    requires forall a :: a in s ==> multiset(s)[a] == 1
    ensures Distinct(s)
  {
    if s != [] {
      var init, last := s[..|s| - 1], s[|s| - 1];
      assert s == init + [last];
      forall a | a in init ensures multiset(init)[a] == 1 && a != last {
        assert multiset(init)[a] >= 1 && a in s;
      }
      OnceDistinct(init);
      forall i | 0 <= i < |init| ensures s[i] != last {
        assert init[i] in init;
      }
    }
  }

  lemma {:induction false} TotalOfAny(entries: seq<Entry>, i: nat)
    requires i < |entries|
    ensures Total(entries) == Total(entries[..i] + entries[i + 1..]) + entries[i].size
    decreases |entries|
  {
    var n := |entries| - 1;
    var init := entries[..n];
    if i == n {
      assert entries[..i] + entries[i + 1..] == init;
    } else {
      TotalOfAny(init, i);
      var rest := entries[..i] + entries[i + 1..];
      assert rest[..|rest| - 1] == init[..i] + init[i + 1..];
    }
  }

  lemma Removed<T>(a: seq<T>, i: nat)
    requires i < |a|
    ensures multiset(a) == multiset(a[..i] + a[i + 1..]) + multiset{a[i]}
  {
    assert a == a[..i] + [a[i]] + a[i + 1..];
  }

  /** Taking one element that both lists end up sharing leaves the same elements. */
  lemma SameRest<T>(a: seq<T>, b: seq<T>, i: nat)
    requires b != [] && multiset(a) == multiset(b) && i < |a| && a[i] == b[|b| - 1]
    ensures multiset(a[..i] + a[i + 1..]) == multiset(b[..|b| - 1])
  {
    var rest, init := a[..i] + a[i + 1..], b[..|b| - 1];
    Removed(a, i);
    Removed(b, |b| - 1);
    assert init + b[|b|..] == init;
    assert multiset(rest) == multiset(a) - multiset{a[i]};
    assert multiset(init) == multiset(b) - multiset{a[i]};
  }

  lemma {:induction false} TotalPermuted(a: seq<Entry>, b: seq<Entry>)
    requires multiset(a) == multiset(b)
    ensures Total(a) == Total(b) && |a| == |b|
    decreases |b|
  {
    assert |multiset(a)| == |a| && |multiset(b)| == |b|;
    if b != [] {
      var last := b[|b| - 1];
      assert b == b[..|b| - 1] + [last];
      assert last in multiset(a);
      var i :| 0 <= i < |a| && a[i] == last;
      var rest := a[..i] + a[i + 1..];
      SameRest(a, b, i);
      TotalPermuted(rest, b[..|b| - 1]);
      TotalOfAny(a, i);
    }
  }

  lemma NamesRemoved(a: seq<Entry>, i: nat)
    requires i < |a|
    ensures multiset(NamesOf(a)) == multiset(NamesOf(a[..i] + a[i + 1..])) + multiset{a[i].name}
  {
    Removed(NamesOf(a), i);
    assert NamesOf(a[..i] + a[i + 1..]) == NamesOf(a)[..i] + NamesOf(a)[i + 1..];
  }

  lemma {:induction false} NamesPermuted(a: seq<Entry>, b: seq<Entry>)
    requires multiset(a) == multiset(b)
    ensures multiset(NamesOf(a)) == multiset(NamesOf(b))
    decreases |b|
  {
    hide NamesOf;
    assert |multiset(a)| == |a| && |multiset(b)| == |b|;
    if b == [] {
      assert a == b;
    } else {
      var n := |b| - 1;
      assert b[n] in multiset(b);
      var i :| 0 <= i < |a| && a[i] == b[n];
      SameRest(a, b, i);
      NamesPermuted(a[..i] + a[i + 1..], b[..n]);
      NamesRemoved(a, i);
      NamesRemoved(b, n);
      assert b[..n] + b[n + 1..] == b[..n];
    }
  }

  /** Acceptance depends only on which entries there are. */
  lemma AcceptedPermuted(a: seq<Entry>, b: seq<Entry>, rules: Rules)
    requires multiset(a) == multiset(b) && Accepted(a, rules)
    ensures Accepted(b, rules)
  {
    hide AllCompatible, Compatible, SafeEntry;
    TotalPermuted(a, b);
    NamesPermuted(a, b);
    SafePermuted(a, b, rules);
    AllCompatibleIs(rules.fold, NamesOf(a));
    AllCompatibleIs(rules.fold, NamesOf(b));
    assert forall n :: n in NamesOf(b) <==> n in multiset(NamesOf(b));
    assert forall n :: n in NamesOf(a) <==> n in multiset(NamesOf(a));
  }

  lemma SafePermuted(a: seq<Entry>, b: seq<Entry>, rules: Rules)
    requires multiset(a) == multiset(b) && forall i :: 0 <= i < |a| ==> SafeEntry(a[i], rules)
    ensures forall i :: 0 <= i < |b| ==> SafeEntry(b[i], rules)
    ensures forall i :: 0 <= i < |a| ==> NamesOf(a)[i] != []
    ensures forall i :: 0 <= i < |b| ==> NamesOf(b)[i] != []
  {
    forall i | 0 <= i < |b| ensures SafeEntry(b[i], rules) {
      assert b[i] in multiset(b);
      assert b[i] in a;
    }
  }

  // ---------------------------------------------------------------- the second pass

  /** A filesystem that takes names for the same when their folded forms agree. */
  class Disk {
    const same: string -> string
    var dirs: set<Path>
    var files: set<Path>

    constructor (same: string -> string)
      ensures this.same == same && dirs == {} && files == {}
    {
      this.same := same;
      dirs, files := {}, {};
    }

    /** Creating a directory is exclusive and needs its parent. */
    method Mkdir(p: Path) returns (ok: bool)
      modifies this`dirs
      ensures ok <==> !Taken(same, old(dirs) + files, p) && ParentThere(same, old(dirs), p)
      ensures dirs == if ok then old(dirs) + {p} else old(dirs)
    {
      ok := !Taken(same, dirs + files, p) && ParentThere(same, dirs, p);
      if ok {
        dirs := dirs + {p};
      }
    }

    /** So is creating a file. */
    method Create(p: Path) returns (ok: bool)
      modifies this`files
      ensures ok <==> !Taken(same, dirs + old(files), p) && ParentThere(same, dirs, p)
      ensures files == if ok then old(files) + {p} else old(files)
    {
      ok := !Taken(same, dirs + files, p) && ParentThere(same, dirs, p);
      if ok {
        files := files + {p};
      }
    }
  }

  predicate Taken(same: string -> string, nodes: set<Path>, p: Path) {
    exists q :: q in nodes && Fold(same, q) == Fold(same, p)
  }

  predicate ParentThere(same: string -> string, dirs: set<Path>, p: Path) {
    |p| == 1 || (|p| > 1 && Taken(same, dirs, p[..|p| - 1]))
  }

  lemma TakenIs(same: string -> string, nodes: set<Path>, p: Path)
    ensures Taken(same, nodes, p) <==> exists q :: q in nodes && |q| == |p| && AlikeTo(same, q, p, |p|)
  {
    forall q | |q| == |p| ensures AlikeTo(same, q, p, |p|) <==> Fold(same, q) == Fold(same, p) {
      AlikeIs(same, q, p, |p|);
      WholeKey(same, q);
      WholeKey(same, p);
    }
    assert forall q :: Fold(same, q) == Fold(same, p) ==> |q| == |Fold(same, q)| == |p|;
  }

  /** Whatever the filesystem takes for the same, the check's folding does too. */
  ghost predicate Finer(same: string -> string, fold: string -> string) {
    forall x, y :: same(x) == same(y) ==> fold(x) == fold(y)
  }

  /** A filesystem is no coarser than itself. */
  lemma FinerSelf(fold: string -> string)
    ensures Finer(fold, fold)
  {
  }

  /** Below the root nothing is made without a directory above it, under whatever spelling. */
  lemma ParentIs(same: string -> string, dirs: set<Path>, p: Path)
    ensures ParentThere(same, dirs, p) <==>
              |p| == 1 || exists q :: q in dirs && |q| + 1 == |p| && |p| > 1 && AlikeTo(same, q, p, |p| - 1)
  {
    if |p| > 1 {
      TakenIs(same, dirs, p[..|p| - 1]);
      forall q | |q| + 1 == |p| ensures AlikeTo(same, q, p[..|p| - 1], |p| - 1) <==> AlikeTo(same, q, p, |p| - 1) {
      }
    }
  }

  predicate DirOf(names: seq<Path>, p: Path) {
    exists i :: 0 <= i < |names| && 1 <= |p| < |names[i]| && p == names[i][..|p|]
  }

  /** The disk holds the names, their directories, and the directories of one more name up to m components. */
  ghost predicate Stored(names: seq<Path>, name: Path, m: nat, dirs: set<Path>, files: set<Path>) {
    && (forall p :: p in files <==> p in names)
    && (forall p :: p in dirs <==> DirOf(names, p) || (1 <= |p| < m && |p| < |name| && p == name[..|p|]))
  }

  /** Names the check's folding tells apart, the filesystem tells apart. */
  lemma FinerApart(same: string -> string, fold: string -> string, p: Path, q: Path)
    requires Finer(same, fold) && Fold(fold, p) != Fold(fold, q)
    ensures Fold(same, p) != Fold(same, q)
  {
  }

  lemma LengthApart(same: string -> string, p: Path, q: Path)
    requires |p| != |q|
    ensures Fold(same, p) != Fold(same, q)
  {
  }

  lemma FileApart(same: string -> string, fold: string -> string, a: Path, name: Path, m: nat)
    requires Finer(same, fold) && Compatible(fold, a, name) && 1 <= m <= |name|
    ensures Fold(same, a) != Fold(same, name[..m])
  {
    hide Fold, Finer;
    assert Fold(fold, a) != Key(fold, name, m);
    FinerApart(same, fold, a, name[..m]);
  }

  lemma DirApart(same: string -> string, fold: string -> string, a: Path, n: nat, name: Path, m: nat)
    requires Finer(same, fold) && Compatible(fold, a, name) && 1 <= n < |a| && 1 <= m < |name| && a[..n] != name[..m]
    ensures Fold(same, a[..n]) != Fold(same, name[..m])
  {
  }

  /** A directory not made yet does not exist under any spelling the filesystem confuses with it. */
  lemma NewDir(same: string -> string, fold: string -> string, names: seq<Path>, name: Path, m: nat, dirs: set<Path>,
               files: set<Path>)
    requires Finer(same, fold) && (forall i :: 0 <= i < |names| ==> Compatible(fold, names[i], name))
    requires 1 <= m < |name| && Stored(names, name, m, dirs, files) && name[..m] !in dirs
    ensures !Taken(same, dirs + files, name[..m])
  {
    hide Fold, Finer, Compatible;
    forall q | q in dirs + files ensures Fold(same, q) != Fold(same, name[..m]) {
      if q in files {
        var i :| 0 <= i < |names| && names[i] == q;
        FileApart(same, fold, names[i], name, m);
      } else if DirOf(names, q) {
        var i :| 0 <= i < |names| && 1 <= |q| < |names[i]| && q == names[i][..|q|];
        DirApart(same, fold, names[i], |q|, name, m);
      } else {
        LengthApart(same, q, name[..m]);
      }
    }
  }

  lemma NewFile(same: string -> string, fold: string -> string, names: seq<Path>, name: Path, dirs: set<Path>,
                files: set<Path>)
    requires Finer(same, fold) && (forall i :: 0 <= i < |names| ==> Compatible(fold, names[i], name)) && name != []
    requires Stored(names, name, |name|, dirs, files)
    ensures !Taken(same, dirs + files, name)
  {
    hide Fold, Finer;
    WholeKey(fold, name);
    forall q | q in dirs + files ensures Fold(same, q) != Fold(same, name) {
      if q in files {
        var i :| 0 <= i < |names| && names[i] == q;
        assert Compatible(fold, names[i], name);
        FinerApart(same, fold, q, name);
      } else if |q| != |name| {
        LengthApart(same, q, name);
      } else {
        assert DirOf(names, q);
        var i :| 0 <= i < |names| && 1 <= |q| < |names[i]| && q == names[i][..|q|];
        assert Compatible(fold, names[i], name);
        assert Fold(fold, name) != Key(fold, names[i], |q|);
        FinerApart(same, fold, q, name);
      }
    }
  }

  /** mkdirParents: the directories of a name, shortest first, skipping those already made. */
  method MkdirParents(disk: Disk, directories: set<Path>, name: Path, ghost fold: string -> string,
                      ghost names: seq<Path>)
    returns (ok: bool, made: set<Path>)
    requires name != [] && directories == disk.dirs && Stored(names, name, 1, disk.dirs, disk.files)
    requires Finer(disk.same, fold) && (forall i :: 0 <= i < |names| ==> Compatible(fold, names[i], name))
    modifies disk`dirs
    ensures ok && made == disk.dirs && Stored(names, name, |name|, disk.dirs, disk.files)
  {
    hide Compatible, Fold;
    made := directories;
    var m := 1;
    while m < |name|
      invariant 1 <= m <= |name| && made == disk.dirs && Stored(names, name, m, disk.dirs, disk.files)
    {
      var dir := name[..m];
      if dir !in made {
        NewDir(disk.same, fold, names, name, m, disk.dirs, disk.files);
        ParentIsThere(disk.same, names, name, m, disk.dirs, disk.files);
        ok := disk.Mkdir(dir);
        made := made + {dir};
      }
      StoredNext(names, name, m, made - {dir}, made, disk.files);
      m := m + 1;
    }
    return true, made;
  }

  lemma ParentIsThere(same: string -> string, names: seq<Path>, name: Path, m: nat, dirs: set<Path>, files: set<Path>)
    requires 1 <= m <= |name| && Stored(names, name, m, dirs, files)
    ensures ParentThere(same, dirs, name[..m])
  {
    if m > 1 {
      var parent := name[..m - 1];
      assert name[..m][..m - 1] == parent && parent == name[..|parent|];
      assert parent in dirs;
    }
  }

  lemma StoredNext(names: seq<Path>, name: Path, m: nat, before: set<Path>, after: set<Path>, files: set<Path>)
    requires 1 <= m < |name| && after == before + {name[..m]}
    requires Stored(names, name, m, before, files) || Stored(names, name, m, after, files)
    ensures Stored(names, name, m + 1, after, files)
  {
    hide DirOf;
    assert name[..m] == name[..|name[..m]|];
  }

  /** extractPublicationEvidence, every write succeeding that can: into a fresh root it never meets an existing path. */
  method Extract(entries: seq<Entry>, rules: Rules, disk: Disk) returns (ok: bool)
    requires disk.dirs == {} && disk.files == {} && Finer(disk.same, rules.fold)
    modifies disk
    ensures ok <==> Accepted(entries, rules)
    ensures !ok ==> disk.dirs == {} && disk.files == {}
    ensures ok ==> forall p :: p in disk.files <==> exists e :: e in entries && e.name == p
    ensures ok ==> forall p :: p in disk.dirs <==> exists e :: e in entries && 1 <= |p| < |e.name| && e.name[..|p|] == p
  {
    hide Stored, Compatible, DirOf, Fold, AllCompatible, Accepted, Finer, Taken, ParentThere;
    ok := CheckEntries(entries, rules);
    if !ok {
      return;
    }
    ghost var names := NamesOf(entries);
    var directories: set<Path> := {};
    EmptyDisk();
    var i := 0;
    while i < |entries|
      invariant 0 <= i <= |entries| && directories == disk.dirs
      invariant Stored(names[..i], [], 0, disk.dirs, disk.files)
    {
      var name := entries[i].name;
      assert names[..i + 1] == names[..i] + [name];
      AcceptedAt(entries, rules, i);
      StoredStart(names[..i], name, disk.dirs, disk.files);
      var made, created;
      made, directories := MkdirParents(disk, directories, name, rules.fold, names[..i]);
      NewFile(disk.same, rules.fold, names[..i], name, disk.dirs, disk.files);
      ParentOfFile(disk.same, names[..i], name, disk.dirs, disk.files);
      ghost var files := disk.files;
      created := disk.Create(name);
      StoredEntry(names[..i], name, disk.dirs, files);
      i := i + 1;
    }
    assert names[..i] == names;
    StoredMeans(entries, disk.dirs, disk.files);
    return true;
  }

  lemma AcceptedAt(entries: seq<Entry>, rules: Rules, i: nat)
    requires Accepted(entries, rules) && i < |entries|
    ensures entries[i].name != []
    ensures forall k :: 0 <= k < i ==> Compatible(rules.fold, NamesOf(entries)[..i][k], entries[i].name)
  {
  }

  lemma EmptyDisk()
    ensures Stored([], [], 0, {}, {})
  {
  }

  lemma StoredStart(names: seq<Path>, name: Path, dirs: set<Path>, files: set<Path>)
    requires Stored(names, [], 0, dirs, files)
    ensures Stored(names, name, 1, dirs, files)
  {
  }

  lemma ParentOfFile(same: string -> string, names: seq<Path>, name: Path, dirs: set<Path>, files: set<Path>)
    requires name != [] && Stored(names, name, |name|, dirs, files)
    ensures ParentThere(same, dirs, name)
  {
    ParentIsThere(same, names, name, |name|, dirs, files);
    assert name[..|name|] == name;
  }

  lemma StoredEntry(names: seq<Path>, name: Path, dirs: set<Path>, files: set<Path>)
    requires Stored(names, name, |name|, dirs, files)
    ensures Stored(names + [name], [], 0, dirs, files + {name})
  {
    var all := names + [name];
    assert all[|names|] == name && forall i :: 0 <= i < |names| ==> all[i] == names[i];
    forall p ensures DirOf(all, p) <==> DirOf(names, p) || (1 <= |p| < |name| && p == name[..|p|]) {
      if DirOf(names, p) {
        var i :| 0 <= i < |names| && 1 <= |p| < |names[i]| && p == names[i][..|p|];
        assert all[i] == names[i];
      }
    }
  }

  lemma StoredMeans(entries: seq<Entry>, dirs: set<Path>, files: set<Path>)
    requires Stored(NamesOf(entries), [], 0, dirs, files)
    ensures forall p :: p in files <==> exists e :: e in entries && e.name == p
    ensures forall p :: p in dirs <==> exists e :: e in entries && 1 <= |p| < |e.name| && e.name[..|p|] == p
  {
    var names := NamesOf(entries);
    forall p ensures p in names <==> exists e :: e in entries && e.name == p {
      if p in names {
        var i :| 0 <= i < |names| && names[i] == p;
        assert entries[i] in entries;
      }
    }
    forall p ensures DirOf(names, p) <==> exists e :: e in entries && 1 <= |p| < |e.name| && e.name[..|p|] == p {
      if DirOf(names, p) {
        var i :| 0 <= i < |names| && 1 <= |p| < |names[i]| && p == names[i][..|p|];
        assert entries[i] in entries;
      }
      if e :| e in entries && 1 <= |p| < |e.name| && e.name[..|p|] == p {
        var i :| 0 <= i < |entries| && entries[i] == e;
        assert names[i] == e.name;
      }
    }
  }
}
