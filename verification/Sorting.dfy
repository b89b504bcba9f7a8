/** Sorting by a string key, as the repository sorts names, ids and records. */
module Sorting {
  import opened Text

  predicate AscendingBy<T>(key: T -> string, s: seq<T>) {
    forall i, j :: 0 <= i < j < |s| ==> Less(key(s[i]), key(s[j]))
  }

  predicate DistinctBy<T>(key: T -> string, s: seq<T>) {
    forall i, j :: 0 <= i < j < |s| ==> key(s[i]) != key(s[j])
  }

  function InsertBy<T(!new)>(key: T -> string, s: seq<T>, x: T): (r: seq<T>)
    ensures |r| == |s| + 1 && forall y :: y in r <==> y in s || y == x
  {
    if s == [] || Less(key(x), key(s[0])) then [x] + s
    else
      assert s == [s[0]] + s[1..];
      [s[0]] + InsertBy(key, s[1..], x)
  }

  function SortBy<T(!new)>(key: T -> string, s: seq<T>): (r: seq<T>)
    ensures |r| == |s| && forall y :: y in r <==> y in s
  {
    if s == [] then []
    else
      assert s == s[..|s| - 1] + [s[|s| - 1]];
      InsertBy(key, SortBy(key, s[..|s| - 1]), s[|s| - 1])
  }

  lemma {:induction false} InsertAscends<T(!new)>(key: T -> string, s: seq<T>, x: T)
    requires AscendingBy(key, s) && forall y :: y in s ==> key(y) != key(x)
    ensures AscendingBy(key, InsertBy(key, s, x))
  {
    if s != [] {
      assert s[0] in s;
      LessTrichotomy(key(x), key(s[0]));
      if Less(key(x), key(s[0])) {
        forall j | 0 < j < |s| ensures Less(key(x), key(s[j])) {
          LessTransitive(key(x), key(s[0]), key(s[j]));
        }
      } else {
        InsertAscends(key, s[1..], x);
        var r := InsertBy(key, s[1..], x);
        forall j | 0 <= j < |r| ensures Less(key(s[0]), key(r[j])) {
          assert r[j] in r;
          assert r[j] in s[1..] || r[j] == x;
        }
      }
    }
  }

  lemma {:induction false} SortAscends<T(!new)>(key: T -> string, s: seq<T>)
    requires DistinctBy(key, s)
    ensures AscendingBy(key, SortBy(key, s))
  {
    if s != [] {
      SortAscends(key, s[..|s| - 1]);
      InsertAscends(key, SortBy(key, s[..|s| - 1]), s[|s| - 1]);
    }
  }

  lemma AscendingDistinct<T>(key: T -> string, s: seq<T>)
    requires AscendingBy(key, s)
    ensures DistinctBy(key, s)
  {
    forall i, j | 0 <= i < j < |s| ensures key(s[i]) != key(s[j]) {
      LessIrreflexive(key(s[i]));
    }
  }

  /** A set has one listing in ascending order of distinct keys. */
  lemma {:induction false} AscendingUnique<T(!new)>(key: T -> string, a: seq<T>, b: seq<T>)
    requires AscendingBy(key, a) && AscendingBy(key, b) && forall x :: x in a <==> x in b
    ensures a == b
  {
    if b != [] {
      assert b[0] in b;
    }
    if a != [] {
      assert a[0] in b;
      SameFirst(key, a, b);
      Tail(key, a);
      Tail(key, b);
      AscendingUnique(key, a[1..], b[1..]);
    }
  }

  lemma SameFirst<T(!new)>(key: T -> string, a: seq<T>, b: seq<T>)
    requires AscendingBy(key, a) && AscendingBy(key, b) && a != [] && b != [] && forall x :: x in a <==> x in b
    ensures a[0] == b[0]
  {
    assert a[0] in b && b[0] in a;
    var i :| 0 <= i < |b| && b[i] == a[0];
    var j :| 0 <= j < |a| && a[j] == b[0];
    LessTrichotomy(key(a[0]), key(b[0]));
  }

  lemma Tail<T(!new)>(key: T -> string, a: seq<T>)
    requires AscendingBy(key, a) && a != []
    ensures forall x :: x in a[1..] <==> x in a && x != a[0]
  {
    assert a == [a[0]] + a[1..];
    LessIrreflexive(key(a[0]));
  }
}
