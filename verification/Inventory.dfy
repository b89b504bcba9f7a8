/** The exact-inventory walk: it consumes the allow-set as it descends the tree. */
module Inventory {
  import opened Text

  /** A path below the root, component by component. */
  type Path = seq<string>

  /** What a directory entry is: a regular file, a directory, or anything else (links included). */
  datatype Node = Regular(size: nat) | Irregular | Dir(entries: seq<Entry>)

  datatype Entry = Entry(name: string, node: Node)

  const NONE: Path := []

  const MAX_METADATA: nat := 2 * 1024 * 1024

  /** The bound for archives is a parameter of the walk. */
  function LimitOf(p: Path, archiveLimit: nat): nat
    requires p != []
  {
    var name := p[|p| - 1];
    if EndsWith(name, ".zip") || EndsWith(name, ".tar.gz") then archiveLimit else MAX_METADATA
  }

  predicate SafeName(name: string) {
    Lacks(name, '\\') && Lacks(name, ':')
  }

  /** The file can be opened as a regular file within its bound. */
  predicate Acceptable(p: Path, node: Node, archiveLimit: nat) {
    && p != [] && node.Regular? && node.size <= LimitOf(p, archiveLimit)
    && forall k :: 0 <= k < |p| ==> SafeName(p[k])
  }

  predicate Under(dir: Path, file: Path) {
    |dir| < |file| && file[..|dir|] == dir
  }

  /** Entries of one directory have different names, at every level. */
  predicate WellNamed(entries: seq<Entry>) {
    && (forall i, j :: 0 <= i < j < |entries| ==> entries[i].name != entries[j].name)
    && (forall i :: 0 <= i < |entries| && entries[i].node.Dir? ==> WellNamed(entries[i].node.entries))
  }

  // ---------------------------------------------------------------- what is where

  function Find(entries: seq<Entry>, name: string): (r: Option<Node>)
    ensures r.Some? ==> exists i :: 0 <= i < |entries| && entries[i] == Entry(name, r.value)
    ensures r.None? ==> forall i :: 0 <= i < |entries| ==> entries[i].name != name
  {
    if entries == [] then None
    else if entries[0].name == name then
      assert entries[0] == Entry(name, entries[0].node);
      Some(entries[0].node)
    else
      assert forall i :: 0 < i < |entries| ==> entries[i] == entries[1..][i - 1];
      Find(entries[1..], name)
  }

  /** The node at a path. */
  function Lookup(entries: seq<Entry>, p: Path): Option<Node>
    decreases |p|
  {
    if p == [] then None
    else if |p| == 1 then Find(entries, p[0])
    else
      match Find(entries, p[0])
      case Some(Dir(inner)) => Lookup(inner, p[1..])
      case _ => None
  }

  predicate Wanted(dir: Path, allowed: set<Path>) {
    exists f :: f in allowed && Under(dir, f)
  }

  /** A file must be allowed and acceptable, a directory on the way to something allowed. */
  predicate NodeFits(p: Path, node: Node, allowed: set<Path>, archiveLimit: nat) {
    if node.Dir? then Wanted(p, allowed) else p in allowed && Acceptable(p, node, archiveLimit)
  }

  /** Everything below these entries fits. */
  ghost predicate AllFit(at: Path, entries: seq<Entry>, allowed: set<Path>, archiveLimit: nat) {
    forall p :: Lookup(entries, p).Some? ==> NodeFits(at + p, Lookup(entries, p).value, allowed, archiveLimit)
  }

  predicate IsFile(entries: seq<Entry>, p: Path) {
    Lookup(entries, p).Some? && !Lookup(entries, p).value.Dir?
  }

  /** The tree is exactly the allow-set: its files are the allowed paths, and every directory leads to one. */
  ghost predicate Exact(entries: seq<Entry>, allowed: set<Path>, archiveLimit: nat) {
    && (forall p :: p in allowed <==> IsFile(entries, p))
    && (forall p :: IsFile(entries, p) ==> Acceptable(p, Lookup(entries, p).value, archiveLimit))
    && (forall p :: Lookup(entries, p).Some? && Lookup(entries, p).value.Dir? ==> Wanted(p, allowed))
  }

  // ---------------------------------------------------------------- one entry at a time

  lemma LookupAt(entries: seq<Entry>, i: nat, rest: Path)
    requires WellNamed(entries) && i < |entries|
    ensures Lookup(entries, [entries[i].name] + rest) ==
              if rest == [] then Some(entries[i].node)
              else if entries[i].node.Dir? then Lookup(entries[i].node.entries, rest) else None
  {
  }

  lemma LookupSplits(entries: seq<Entry>, p: Path)
    requires Lookup(entries, p).Some?
    ensures p != [] && exists i :: 0 <= i < |entries| && entries[i].name == p[0]
  {
  }

  /** The subtree of one entry. */
  ghost predicate EntryFits(at: Path, e: Entry, allowed: set<Path>, archiveLimit: nat) {
    && NodeFits(at + [e.name], e.node, allowed, archiveLimit)
    && (e.node.Dir? ==> AllFit(at + [e.name], e.node.entries, allowed, archiveLimit))
  }

  lemma AllFitIs(at: Path, entries: seq<Entry>, allowed: set<Path>, archiveLimit: nat)
    requires WellNamed(entries)
    ensures AllFit(at, entries, allowed, archiveLimit) <==>
              forall i :: 0 <= i < |entries| ==> EntryFits(at, entries[i], allowed, archiveLimit)
  {
    hide NodeFits, EntryFits, WellNamed, Lookup;
    if AllFit(at, entries, allowed, archiveLimit) {
      forall i | 0 <= i < |entries| ensures EntryFits(at, entries[i], allowed, archiveLimit) {
        EntryOfAll(at, entries, i, allowed, archiveLimit);
      }
    }
    if forall i :: 0 <= i < |entries| ==> EntryFits(at, entries[i], allowed, archiveLimit) {
      forall p | Lookup(entries, p).Some? ensures NodeFits(at + p, Lookup(entries, p).value, allowed, archiveLimit) {
        LookupSplits(entries, p);
        var i :| 0 <= i < |entries| && entries[i].name == p[0];
        assert p == [entries[i].name] + p[1..];
        NodeInEntry(at, entries, i, p[1..], allowed, archiveLimit);
      }
    }
  }

  lemma NodeInEntry(at: Path, entries: seq<Entry>, i: nat, rest: Path, allowed: set<Path>, archiveLimit: nat)
    requires WellNamed(entries) && i < |entries| && EntryFits(at, entries[i], allowed, archiveLimit)
    requires Lookup(entries, [entries[i].name] + rest).Some?
    ensures NodeFits(at + ([entries[i].name] + rest), Lookup(entries, [entries[i].name] + rest).value, allowed, archiveLimit)
  {
    hide NodeFits, WellNamed, Lookup;
    LookupAt(entries, i, rest);
    assert at + ([entries[i].name] + rest) == (at + [entries[i].name]) + rest;
    if rest == [] {
      assert (at + [entries[i].name]) + rest == at + [entries[i].name];
    }
  }

  lemma EntryOfAll(at: Path, entries: seq<Entry>, i: nat, allowed: set<Path>, archiveLimit: nat)
    requires WellNamed(entries) && i < |entries| && AllFit(at, entries, allowed, archiveLimit)
    ensures EntryFits(at, entries[i], allowed, archiveLimit)
  {
    hide NodeFits, WellNamed, Lookup;
    var e := entries[i];
    LookupAt(entries, i, []);
    assert [e.name] + [] == [e.name];
    assert NodeFits(at + [e.name], e.node, allowed, archiveLimit);
    if e.node.Dir? {
      forall p | Lookup(e.node.entries, p).Some?
        ensures NodeFits(at + [e.name] + p, Lookup(e.node.entries, p).value, allowed, archiveLimit)
      {
        EmptyLookup(e.node.entries);
        LookupAt(entries, i, p);
        assert at + ([e.name] + p) == at + [e.name] + p;
      }
    }
  }

  lemma EmptyLookup(entries: seq<Entry>)
    ensures Lookup(entries, []).None?
  {
  }

  // ---------------------------------------------------------------- the walk

  class Walker {
    const archiveLimit: nat
    var allowed: set<Path>

    constructor (allowed: set<Path>, archiveLimit: nat)
      ensures this.allowed == allowed && this.archiveLimit == archiveLimit
    {
      this.allowed, this.archiveLimit := allowed, archiveLimit;
    }

    /** supplyInventory: succeeds when everything below fits, and has then removed exactly the files it met. */
    method Walk(at: Path, entries: seq<Entry>) returns (ok: bool)
      requires WellNamed(entries)
      modifies this
      decreases entries
      ensures ok <==> AllFit(at, entries, old(allowed), archiveLimit)
      ensures ok ==> forall f :: f in allowed <==> f in old(allowed) && !Met(at, entries, |entries|, f)
    {
      hide AllFit, Lookup, WellNamed, Wanted, Acceptable;
      AllFitIs(at, entries, allowed, archiveLimit);
      NothingMet(at, entries);
      var i := 0;
      while i < |entries|
        invariant 0 <= i <= |entries|
        invariant forall k :: 0 <= k < i ==> EntryFits(at, entries[k], old(allowed), archiveLimit)
        invariant forall f :: f in allowed <==> f in old(allowed) && !Met(at, entries, i, f)
      {
        var e := entries[i];
        var name := at + [e.name];
        NotMetYet(at, entries, i);
        SameBelow(name, e, old(allowed), allowed, archiveLimit);
        MetNext(at, entries, i);
        if e.node.Dir? {
          if !Wanted(name, allowed) {
            return false;
          }
          InnerNamed(entries, i);
          ok := Walk(name, e.node.entries);
          if !ok {
            return;
          }
        } else {
          if name !in allowed || !Acceptable(name, e.node, archiveLimit) {
            return false;
          }
          allowed := allowed - {name};
        }
        i := i + 1;
      }
      return true;
    }
  }

  lemma InnerNamed(entries: seq<Entry>, i: nat)
    requires WellNamed(entries) && i < |entries| && entries[i].node.Dir?
    ensures WellNamed(entries[i].node.entries)
  {
  }

  /** f is a file below one of the first n entries. */
  ghost predicate Met(at: Path, entries: seq<Entry>, n: nat, f: Path)
    requires n <= |entries|
  {
    exists k :: 0 <= k < n && FileOf(at + [entries[k].name], entries[k].node, f)
  }

  /** f is the node at p itself, or a file in the directory there. */
  predicate FileOf(p: Path, node: Node, f: Path) {
    if node.Dir? then p <= f && IsFile(node.entries, f[|p|..]) else f == p
  }

  lemma NothingMet(at: Path, entries: seq<Entry>)
    ensures forall f :: !Met(at, entries, 0, f)
  {
  }

  lemma FileExtends(p: Path, node: Node, f: Path)
    requires !(p <= f)
    ensures !FileOf(p, node, f)
  {
  }

  lemma Diverge(at: Path, x: string, y: string, f: Path)
    requires x != y && at + [y] <= f
    ensures !(at + [x] <= f)
  {
    assert (at + [x])[|at|] == x && (at + [y])[|at|] == y && f[|at|] == y;
  }

  /** The walk has met nothing at or below an entry it has not reached. */
  lemma NotMetYet(at: Path, entries: seq<Entry>, i: nat)
    requires WellNamed(entries) && i < |entries|
    ensures forall f :: at + [entries[i].name] <= f ==> !Met(at, entries, i, f)
  {
    hide FileOf;
    forall f | at + [entries[i].name] <= f ensures !Met(at, entries, i, f) {
      forall k | 0 <= k < i ensures !FileOf(at + [entries[k].name], entries[k].node, f) {
        Diverge(at, entries[k].name, entries[i].name, f);
        FileExtends(at + [entries[k].name], entries[k].node, f);
      }
    }
  }

  lemma SameBelow(name: Path, e: Entry, a: set<Path>, b: set<Path>, archiveLimit: nat)
    requires forall f :: name <= f ==> (f in a <==> f in b)
    ensures Wanted(name, a) <==> Wanted(name, b)
    ensures e.node.Dir? ==> (AllFit(name, e.node.entries, a, archiveLimit) <==> AllFit(name, e.node.entries, b, archiveLimit))
  {
  }

  lemma MetBelow(p: Path, entries: seq<Entry>, i: nat, rest: Path)
    requires WellNamed(entries) && i < |entries|
    ensures FileOf(p, entries[i].node, p + rest) <==> IsFile(entries, [entries[i].name] + rest)
  {
    hide WellNamed, Lookup;
    LookupAt(entries, i, rest);
    assert (p + rest)[|p|..] == rest;
    assert p + rest == p <==> rest == [];
    if entries[i].node.Dir? {
      EmptyLookup(entries[i].node.entries);
    }
  }

  lemma MetOne(at: Path, entries: seq<Entry>, i: nat, f: Path)
    requires WellNamed(entries) && i < |entries|
    ensures FileOf(at + [entries[i].name], entries[i].node, f) <==>
              at + [entries[i].name] <= f && IsFile(entries, f[|at|..])
  {
    hide WellNamed, FileOf, IsFile;
    var name := at + [entries[i].name];
    if name <= f {
      var rest := f[|name|..];
      assert f[|at|] == name[|at|] == entries[i].name;
      assert f[|at|..] == [entries[i].name] + rest;
      assert f == name + rest;
      MetBelow(name, entries, i, rest);
    } else {
      FileExtends(name, entries[i].node, f);
    }
  }

  /** Meeting a file in some entry is its being a file of the directory. */
  lemma MetIsFile(at: Path, entries: seq<Entry>, f: Path)
    requires WellNamed(entries)
    ensures Met(at, entries, |entries|, f) <==> at <= f && IsFile(entries, f[|at|..])
  {
    hide WellNamed, FileOf, Lookup;
    if Met(at, entries, |entries|, f) {
      var k :| 0 <= k < |entries| && FileOf(at + [entries[k].name], entries[k].node, f);
      MetOne(at, entries, k, f);
      assert f[..|at|] == (at + [entries[k].name])[..|at|] == at;
    }
    if at <= f && IsFile(entries, f[|at|..]) {
      var p := f[|at|..];
      LookupSplits(entries, p);
      var k :| 0 <= k < |entries| && entries[k].name == p[0];
      assert f == at + [p[0]] + p[1..];
      MetOne(at, entries, k, f);
    }
  }

  /** One more entry: what the walk below it removes is what that entry adds. */
  lemma MetNext(at: Path, entries: seq<Entry>, i: nat)
    requires i < |entries| && WellNamed(entries)
    ensures forall f :: Met(at, entries, i + 1, f) <==> Met(at, entries, i, f) || FileOf(at + [entries[i].name], entries[i].node, f)
    ensures entries[i].node.Dir? ==> forall f ::
              FileOf(at + [entries[i].name], entries[i].node, f) <==>
              Met(at + [entries[i].name], entries[i].node.entries, |entries[i].node.entries|, f)
  {
  }

  // ---------------------------------------------------------------- what exactness comes to

  /** Following the names of p from these entries on leads to the node. */
  ghost predicate LeadsTo(entries: seq<Entry>, p: Path, node: Node)
    decreases |p|
  {
    p != [] && exists e :: e in entries && e.name == p[0]
                           && if |p| == 1 then e.node == node else e.node.Dir? && LeadsTo(e.node.entries, p[1..], node)
  }

  lemma {:induction false} LookupIs(entries: seq<Entry>, p: Path, node: Node)
    requires WellNamed(entries)
    ensures Lookup(entries, p) == Some(node) <==> LeadsTo(entries, p, node)
    decreases |p|
  {
    hide WellNamed, Lookup;
    if p == [] {
      EmptyLookup(entries);
    } else {
      forall i | 0 <= i < |entries| && entries[i].name == p[0]
        ensures Lookup(entries, p) == Some(node) <==>
                  if |p| == 1 then entries[i].node == node else entries[i].node.Dir? && LeadsTo(entries[i].node.entries, p[1..], node)
      {
        LookupAt(entries, i, p[1..]);
        assert p == [entries[i].name] + p[1..];
        if |p| > 1 && entries[i].node.Dir? {
          InnerNamed(entries, i);
          LookupIs(entries[i].node.entries, p[1..], node);
        }
      }
      if Lookup(entries, p) == Some(node) {
        LookupSplits(entries, p);
        var i :| 0 <= i < |entries| && entries[i].name == p[0];
        assert entries[i] in entries;
      }
    }
  }

  /** Archives within the given bound, everything else within two mebibytes. */
  ghost predicate Bounded(name: string, size: nat, archiveLimit: nat) {
    size <= if exists stem: string :: name == stem + ".zip" || name == stem + ".tar.gz" then archiveLimit else 2097152
  }

  lemma BoundedIs(p: Path, size: nat, archiveLimit: nat)
    requires p != []
    ensures size <= LimitOf(p, archiveLimit) <==> Bounded(p[|p| - 1], size, archiveLimit)
  {
    var name := p[|p| - 1];
    if EndsWith(name, ".zip") {
      assert name == name[..|name| - 4] + ".zip";
    }
    if EndsWith(name, ".tar.gz") {
      assert name == name[..|name| - 7] + ".tar.gz";
    }
  }

  /** What may be found at a path: an allowed file in bounds under a portable name, or a directory above one. */
  ghost predicate Fits(p: Path, node: Node, allowed: set<Path>, archiveLimit: nat)
    requires p != []
  {
    match node
    case Regular(size) =>
      && p in allowed && Bounded(p[|p| - 1], size, archiveLimit)
      && forall k, i :: 0 <= k < |p| && 0 <= i < |p[k]| ==> p[k][i] != '\\' && p[k][i] != ':'
    case Irregular => false
    case Dir(_) => exists f :: f in allowed && |p| < |f| && f[..|p|] == p
  }

  /** The tree is exactly the allow-set when whatever is in it fits and every allowed path leads to a file. */
  lemma ExactIs(entries: seq<Entry>, allowed: set<Path>, archiveLimit: nat)
    requires WellNamed(entries)
    ensures Exact(entries, allowed, archiveLimit) <==>
              && (forall p, node :: LeadsTo(entries, p, node) ==> p != [] && Fits(p, node, allowed, archiveLimit))
              && (forall p :: p in allowed ==> exists node :: LeadsTo(entries, p, node) && !node.Dir?)
  {
    hide WellNamed, Lookup, Fits, NodeFits, LeadsTo;
    FitsAndDrained(entries, allowed, archiveLimit);
    forall p, node ensures Lookup(entries, p) == Some(node) <==> LeadsTo(entries, p, node) {
      LookupIs(entries, p, node);
    }
    forall p, node | LeadsTo(entries, p, node)
      ensures p != [] && (Fits(p, node, allowed, archiveLimit) <==> NodeFits(NONE + p, node, allowed, archiveLimit))
    {
      LookupSplits(entries, p);
      assert NONE + p == p;
      FitsIs(p, node, allowed, archiveLimit);
    }
    forall p ensures IsFile(entries, p) <==> exists node :: LeadsTo(entries, p, node) && !node.Dir? {
      if IsFile(entries, p) {
        assert LeadsTo(entries, p, Lookup(entries, p).value);
      }
    }
  }

  lemma FitsIs(p: Path, node: Node, allowed: set<Path>, archiveLimit: nat)
    requires p != []
    ensures Fits(p, node, allowed, archiveLimit) <==> NodeFits(p, node, allowed, archiveLimit)
  {
    hide LimitOf, Bounded;
    if node.Regular? {
      BoundedIs(p, node.size, archiveLimit);
    }
  }

  // ---------------------------------------------------------------- the verdict

  /** The end of verifySupply: the walk succeeds and nothing allowed is left over exactly on the allowed tree. */
  method VerifyInventory(entries: seq<Entry>, allowed: set<Path>, archiveLimit: nat) returns (ok: bool)
    requires WellNamed(entries)
    ensures ok <==>
              && (forall p, node :: LeadsTo(entries, p, node) ==> p != [] && Fits(p, node, allowed, archiveLimit))
              && (forall p :: p in allowed ==> exists node :: LeadsTo(entries, p, node) && !node.Dir?)
  {
    hide WellNamed, AllFit, Exact, Met, Fits;
    ExactIs(entries, allowed, archiveLimit);
    var walker := new Walker(allowed, archiveLimit);
    ok := walker.Walk([], entries);
    forall f ensures Met([], entries, |entries|, f) <==> IsFile(entries, f) {
      MetIsFile([], entries, f);
      assert f[0..] == f;
    }
    FitsAndDrained(entries, allowed, archiveLimit);
    ok := ok && walker.allowed == {};
  }

  lemma FitsAndDrained(entries: seq<Entry>, allowed: set<Path>, archiveLimit: nat)
    ensures Exact(entries, allowed, archiveLimit) <==>
              AllFit([], entries, allowed, archiveLimit) && forall f :: f in allowed ==> IsFile(entries, f)
  {
    hide Acceptable, Wanted;
    forall p: Path ensures NONE + p == p {
    }
  }

  // ---------------------------------------------------------------- slash-separated names

  predicate Plain(p: Path) {
    forall k :: 0 <= k < |p| ==> Lacks(p[k], '/')
  }

  /** A first component, up to the first slash. */
  lemma FirstComponent(x: string, y: string, rest: string, tail: string)
    requires Lacks(x, '/') && Lacks(y, '/') && (tail == "" || tail == "/" + rest)
    ensures x + "/" <= y + tail <==> x == y && tail != ""
  {
    var whole := y + tail;
    if x + "/" <= whole {
      assert whole[|x|] == (x + "/")[|x|] == '/';
      assert |y| <= |x|;
      forall k | 0 <= k < |x| ensures whole[k] != '/' {
        assert whole[k] == (x + "/")[k] == x[k];
      }
      assert |y| < |whole| ==> whole[|y|] == '/';
      assert |x| <= |y|;
      assert x == whole[..|x|] == y;
    }
  }

  /** The prefix test on slash-separated names is containment of paths. */
  lemma {:induction false} UnderIsPrefix(dir: Path, file: Path)
    requires dir != [] && Plain(dir) && Plain(file)
    ensures Under(dir, file) <==> Join(dir, '/') + "/" <= Join(file, '/')
  {
    if file == [] {
      assert Join(file, '/') == "";
    } else {
      var d, f := Join(dir, '/'), Join(file, '/');
      var tail := if |file| == 1 then "" else "/" + Join(file[1..], '/');
      assert f == file[0] + tail;
      FirstComponent(dir[0], file[0], Join(file[1..], '/'), tail);
      if |dir| == 1 {
        assert Under(dir, file) <==> |file| > 1 && file[0] == dir[0];
      } else {
        var inner := Join(dir[1..], '/');
        assert d + "/" == dir[0] + "/" + (inner + "/");
        assert d + "/" <= f ==> dir[0] + "/" <= f;
        assert Under(dir, file) ==> file[..|dir|][0] == dir[0];
        if dir[0] == file[0] && |file| > 1 {
          UnderIsPrefix(dir[1..], file[1..]);
          CommonHead(dir[0] + "/", inner + "/", Join(file[1..], '/'));
          assert f == dir[0] + "/" + Join(file[1..], '/');
          assert Under(dir, file) <==> Under(dir[1..], file[1..]) by {
            assert Under(dir, file) ==> file[1..][..|dir| - 1] == file[..|dir|][1..];
            assert Under(dir[1..], file[1..]) ==> file[..|dir|] == [file[0]] + file[1..][..|dir| - 1];
          }
        }
      }
    }
  }

  lemma CommonHead(head: string, a: string, b: string)
    ensures head + a <= head + b <==> a <= b
  {
    if head + a <= head + b {
      assert forall k :: 0 <= k < |a| ==> a[k] == (head + a)[|head| + k] == (head + b)[|head| + k] == b[k];
    }
  }
}
