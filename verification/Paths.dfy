/** The path guard on slash-separated systems: cleaning, traversal and lexical confinement. */
module Paths {
  import opened Text

  /** An absolute path as its components below the filesystem root. */
  type Path = seq<string>

  // ---------------------------------------------------------------- cleaning

  /** One component of the walk over a relative path. */
  function Step(stack: Path, c: string): Path {
    if c == "" || c == "." then stack
    else if c == ".." && stack != [] && stack[|stack| - 1] != ".." then stack[..|stack| - 1]
    else stack + [c]
  }

  function Walk(cs: seq<string>): Path {
    if cs == [] then [] else Step(Walk(cs[..|cs| - 1]), cs[|cs| - 1])
  }

  /** Below the filesystem root ".." at the top goes nowhere. */
  function StepAbs(stack: Path, c: string): Path {
    if c == "" || c == "." then stack
    else if c == ".." then (if stack == [] then [] else stack[..|stack| - 1])
    else stack + [c]
  }

  function WalkAbs(cs: seq<string>): Path {
    if cs == [] then [] else StepAbs(WalkAbs(cs[..|cs| - 1]), cs[|cs| - 1])
  }

  /** filepath.Clean. */
  function Clean(s: string): string {
    if s != "" && s[0] == '/' then Render(WalkAbs(Split(s[1..], '/')))
    else Relative(Walk(Split(s, '/')))
  }

  function Relative(stack: Path): string {
    if stack == [] then "." else Join(stack, '/')
  }

  function Render(p: Path): string {
    "/" + Join(p, '/')
  }

  predicate Plain(c: string) {
    c != "" && c != "." && c != ".." && Lacks(c, '/')
  }

  /** The components of an absolute, cleaned path. */
  predicate Clear(p: Path) {
    forall i :: 0 <= i < |p| ==> Plain(p[i])
  }

  // ---------------------------------------------------------------- what a walk does

  /** A plain component is entered, ".." behind it leaves it again, and "." and "" stay. */
  lemma WalkLaws(cs: seq<string>, x: string)
    requires Plain(x)
    ensures Walk([]) == [] && Walk(cs + [x]) == Walk(cs) + [x] && Walk(cs + [x, ".."]) == Walk(cs)
    ensures Walk(cs + ["."]) == Walk(cs) && Walk(cs + [""]) == Walk(cs)
    ensures Walk(cs) == [] || Walk(cs)[|Walk(cs)| - 1] == ".." ==> Walk(cs + [".."]) == Walk(cs) + [".."]
  {
    NowhereYet();
    hide Walk, Lacks;
    WalkSnoc(cs, x);
    WalkSnoc(cs + [x], "..");
    assert cs + [x] + [".."] == cs + [x, ".."];
    WalkSnoc(cs, ".");
    WalkSnoc(cs, "");
    WalkSnoc(cs, "..");
  }

  lemma NowhereYet()
    ensures Walk([]) == WalkAbs([]) == []
  {
  }

  lemma WalkSnoc(cs: seq<string>, c: string)
    ensures Walk(cs + [c]) == Step(Walk(cs), c)
  {
    assert (cs + [c])[..|cs|] == cs;
  }

  /** A walk goes on from where its first part ended: a detour back to where it began can be left out. */
  lemma {:induction false} WalkOn(a: seq<string>, b: seq<string>, c: seq<string>)
    requires Walk(a) == Walk(b)
    ensures Walk(a + c) == Walk(b + c)
    decreases |c|
  {
    hide Walk, Step;
    if c == [] {
      assert a + c == a && b + c == b;
    } else {
      var init, last := c[..|c| - 1], c[|c| - 1];
      WalkOn(a, b, init);
      WalkSnoc(a + init, last);
      WalkSnoc(b + init, last);
      assert a + init + [last] == a + c && b + init + [last] == b + c;
    }
  }

  /** The same below the filesystem root, where ".." at the top stays there. */
  lemma WalkAbsLaws(cs: seq<string>, x: string)
    requires Plain(x)
    ensures WalkAbs([]) == [] && WalkAbs(cs + [x]) == WalkAbs(cs) + [x] && WalkAbs(cs + [x, ".."]) == WalkAbs(cs)
    ensures WalkAbs(cs + ["."]) == WalkAbs(cs) && WalkAbs(cs + [""]) == WalkAbs(cs)
    ensures WalkAbs(cs) == [] ==> WalkAbs(cs + [".."]) == []
  {
    NowhereYet();
    hide WalkAbs, Lacks;
    WalkAbsSnoc(cs, x);
    WalkAbsSnoc(cs + [x], "..");
    assert cs + [x] + [".."] == cs + [x, ".."];
    WalkAbsSnoc(cs, ".");
    WalkAbsSnoc(cs, "");
    WalkAbsSnoc(cs, "..");
  }

  lemma WalkAbsSnoc(cs: seq<string>, c: string)
    ensures WalkAbs(cs + [c]) == StepAbs(WalkAbs(cs), c)
  {
    assert (cs + [c])[..|cs|] == cs;
  }

  // ---------------------------------------------------------------- depth

  /** How far below its start the walk over these components ends. */
  function Depth(cs: seq<string>): int {
    if cs == [] then 0
    else
      var c := cs[|cs| - 1];
      Depth(cs[..|cs| - 1]) + if c == "" || c == "." then 0 else if c == ".." then -1 else 1
  }

  ghost predicate NeverBelow(cs: seq<string>) {
    forall n :: 0 <= n <= |cs| ==> Depth(cs[..n]) >= 0
  }

  lemma NeverBelowInit(cs: seq<string>)
    requires cs != []
    ensures NeverBelow(cs) <==> NeverBelow(cs[..|cs| - 1]) && Depth(cs) >= 0
  {
    var init := cs[..|cs| - 1];
    forall n | 0 <= n <= |init| ensures init[..n] == cs[..n] {
    }
    assert cs[..|cs|] == cs;
    if NeverBelow(cs) {
      forall n | 0 <= n <= |init| ensures Depth(init[..n]) >= 0 {
        assert init[..n] == cs[..n];
      }
    }
    if NeverBelow(init) && Depth(cs) >= 0 {
      forall n | 0 <= n <= |cs| ensures Depth(cs[..n]) >= 0 {
        if n < |cs| {
          assert cs[..n] == init[..n];
        }
      }
    }
  }

  /** A walk that never goes below its start ends on plain components, as many as its depth. */
  lemma {:induction false} StaysAbove(cs: seq<string>)
    requires NeverBelow(cs) && forall i :: 0 <= i < |cs| ==> Lacks(cs[i], '/')
    ensures Clear(Walk(cs)) && |Walk(cs)| == Depth(cs)
  {
    if cs != [] {
      NeverBelowInit(cs);
      StaysAbove(cs[..|cs| - 1]);
    }
  }

  /** A walk that does go below its start keeps a leading "..". */
  lemma {:induction false} StaysBelow(cs: seq<string>)
    requires !NeverBelow(cs) && forall i :: 0 <= i < |cs| ==> Lacks(cs[i], '/')
    ensures Walk(cs) != [] && Walk(cs)[0] == ".."
  {
    if cs != [] {
      var init := cs[..|cs| - 1];
      NeverBelowInit(cs);
      if NeverBelow(init) {
        StaysAbove(init);
      } else {
        StaysBelow(init);
      }
    }
  }

  // ---------------------------------------------------------------- the string tests

  predicate IsTraversal(path: string) {
    path == ".." || "../" <= path
  }

  /** On components: the traversal test asks whether the first one is "..". */
  lemma TraversalIsFirst(stack: Path)
    requires stack != [] && forall i :: 0 <= i < |stack| ==> Lacks(stack[i], '/')
    ensures IsTraversal(Join(stack, '/')) <==> stack[0] == ".."
  {
    if |stack| > 1 {
      assert Join(stack, '/') == stack[0] + "/" + Join(stack[1..], '/');
      FirstIsParent(stack[0], Join(stack[1..], '/'));
    } else {
      assert |stack[0]| > 2 ==> stack[0][2] != '/';
    }
  }

  lemma FirstIsParent(first: string, tail: string)
    requires Lacks(first, '/')
    ensures IsTraversal(first + "/" + tail) <==> first == ".."
  {
    var whole := first + "/" + tail;
    assert whole[|first|] == '/';
    if "../" <= whole {
      assert whole[0] == '.' && whole[1] == '.' && whole[2] == '/';
      FirstSlash(first, tail, 2);
    }
  }

  lemma FirstSlash(first: string, tail: string, n: nat)
    requires Lacks(first, '/') && n < |first + "/" + tail| && (first + "/" + tail)[n] == '/'
    requires forall k :: 0 <= k < n ==> (first + "/" + tail)[k] != '/'
    ensures |first| == n && first == (first + "/" + tail)[..n]
  {
    var whole := first + "/" + tail;
    assert whole[|first|] == '/';
    assert forall k :: 0 <= k < |first| ==> whole[k] == first[k];
  }

  lemma {:induction false} WalkLacks(cs: seq<string>)
    requires forall i :: 0 <= i < |cs| ==> Lacks(cs[i], '/')
    ensures forall i :: 0 <= i < |Walk(cs)| ==> Lacks(Walk(cs)[i], '/')
  {
    if cs != [] {
      WalkLacks(cs[..|cs| - 1]);
    }
  }

  /** A relative path passes the traversal test exactly when its walk never goes below the start. */
  lemma TraversalIsBelow(userPath: string)
    requires !(userPath != "" && userPath[0] == '/')
    ensures IsTraversal(Clean(userPath)) <==> !NeverBelow(Split(userPath, '/'))
  {
    var cs := Split(userPath, '/');
    JoinSplit(userPath, '/');
    WalkLacks(cs);
    if NeverBelow(cs) {
      StaysAbove(cs);
    } else {
      StaysBelow(cs);
    }
    if Walk(cs) != [] {
      TraversalIsFirst(Walk(cs));
    }
  }

  // ---------------------------------------------------------------- joining and containment

  lemma {:induction false} WalkAbsPlain(p: Path)
    requires Clear(p)
    ensures WalkAbs(p) == p
  {
    if p != [] {
      WalkAbsPlain(p[..|p| - 1]);
      assert p == p[..|p| - 1] + [p[|p| - 1]];
    }
  }

  /** Cleaning a rendered path changes nothing. */
  lemma CleanRendered(p: Path)
    requires Clear(p)
    ensures Clean(Render(p)) == Render(p)
  {
    assert Render(p)[1..] == Join(p, '/');
    WalkAbsPlain(p);
    if p == [] {
      assert Split("", '/') == [""];
      assert WalkAbs([""]) == [];
    } else {
      SplitJoin(p, '/');
    }
  }

  lemma {:induction false} SplitAfter(p: Path, s: string)
    requires p != [] && forall i :: 0 <= i < |p| ==> Lacks(p[i], '/')
    ensures Split(Join(p, '/') + "/" + s, '/') == p + Split(s, '/')
  {
    hide Split, Lacks, Join;
    if |p| == 1 {
      JoinOne(p);
      SplitPeel(p[0], s, '/');
      assert p == [p[0]];
    } else {
      SplitAfter(p[1..], s);
      var rest := Join(p[1..], '/') + "/" + s;
      JoinPeel(p, s);
      SplitPeel(p[0], rest, '/');
      ConsThen(p, Split(s, '/'));
    }
  }

  /** Splitting two paths with a slash between them splits each. */
  lemma SplitThen(a: string, b: string)
    ensures Split(a + "/" + b, '/') == Split(a, '/') + Split(b, '/')
  {
    JoinSplit(a, '/');
    SplitAfter(Split(a, '/'), b);
  }

  lemma JoinOne(p: Path)
    requires |p| == 1
    ensures Join(p, '/') == p[0]
  {
  }

  lemma JoinPeel(p: Path, s: string)
    requires |p| > 1
    ensures Join(p, '/') + "/" + s == p[0] + "/" + (Join(p[1..], '/') + "/" + s)
  {
    var rest := Join(p[1..], '/');
    assert Join(p, '/') == p[0] + "/" + rest;
  }

  lemma ConsThen<T>(p: seq<T>, q: seq<T>)
    requires p != []
    ensures [p[0]] + (p[1..] + q) == p + q
  {
  }

  lemma {:induction false} WalkAbsThen(p: Path, cs: seq<string>)
    requires Clear(p) && forall i :: 0 <= i < |cs| ==> Plain(cs[i]) || cs[i] == "."  || cs[i] == ""
    ensures WalkAbs(p + cs) == p + Walk(cs)
    decreases |cs|
  {
    if cs == [] {
      assert p + cs == p;
      WalkAbsPlain(p);
    } else {
      WalkAbsThen(p, cs[..|cs| - 1]);
      assert (p + cs)[..|p + cs| - 1] == p + cs[..|cs| - 1];
    }
  }

  lemma {:induction false} WalkPlain(p: Path)
    requires Clear(p)
    ensures Walk(p) == p
  {
    if p != [] {
      WalkPlain(p[..|p| - 1]);
    }
  }

  /** filepath.Join of a cleaned root and a cleaned relative path: cleaning the two with a slash between. */
  function JoinPath(root: Path, relative: string): string {
    Clean(Render(root) + "/" + relative)
  }

  /** Cleaning the root, a slash and further components. */
  lemma CleanJoined(root: Path, relative: string, parts: seq<string>)
    requires Clear(root) && Split(relative, '/') == parts
    requires forall i :: 0 <= i < |parts| ==> Plain(parts[i]) || parts[i] == "." || parts[i] == ""
    ensures JoinPath(root, relative) == Render(root + Walk(parts))
  {
    hide Split, Plain, Join, Walk, WalkAbs;
    var s := Render(root) + "/" + relative;
    if root == [] {
      NoRoot(relative);
      SplitPeel("", relative, '/');
      assert s[1..] == "" + "/" + relative;
      SkipEmpty(parts);
      WalkAbsThen([], parts);
      assert [] + parts == parts;
    } else {
      assert s[1..] == Join(root, '/') + "/" + relative;
      ClearLacks(root);
      SplitAfter(root, relative);
      WalkAbsThen(root, parts);
    }
  }

  lemma NoRoot(relative: string)
    ensures Render([]) + "/" + relative == "//" + relative
  {
  }

  lemma ClearLacks(p: Path)
    requires Clear(p)
    ensures forall i :: 0 <= i < |p| ==> Lacks(p[i], '/')
  {
  }

  /** Joining an accepted path appends its cleaned components to the root. */
  lemma JoinedIsBelow(root: Path, stack: Path)
    requires Clear(root) && Clear(stack)
    ensures JoinPath(root, Relative(stack)) == Render(root + stack)
  {
    hide JoinPath, Render, Join, Split;
    if stack == [] {
      SplitLacking(".", '/');
      CleanJoined(root, ".", ["."]);
      assert ["."][..0] == [];
      assert root + stack == root;
    } else {
      ClearLacks(stack);
      SplitJoin(stack, '/');
      CleanJoined(root, Join(stack, '/'), stack);
      WalkPlain(stack);
    }
  }

  lemma {:induction false} SkipEmpty(cs: seq<string>)
    ensures WalkAbs([""] + cs) == WalkAbs(cs)
    decreases |cs|
  {
    if cs == [] {
      assert [""] + cs == [""];
      assert [""][..0] == [];
    } else {
      SkipEmpty(cs[..|cs| - 1]);
      assert ([""] + cs)[..|cs|] == [""] + cs[..|cs| - 1];
    }
  }

  function Common(a: Path, b: Path): (k: nat)
    ensures k <= |a| && k <= |b| && a[..k] == b[..k]
    ensures k < |a| && k < |b| ==> a[k] != b[k]
  {
    if a == [] || b == [] || a[0] != b[0] then 0
    else
      var k := Common(a[1..], b[1..]);
      assert a[..k + 1] == [a[0]] + a[1..][..k] && b[..k + 1] == [b[0]] + b[1..][..k];
      k + 1
  }

  /** filepath.Rel between cleaned absolute paths, as components. */
  function Rel(base: Path, target: Path): Path {
    var k := Common(base, target);
    seq(|base| - k, _ => "..") + target[k..]
  }

  /** isInsideRoot. */
  predicate IsInside(root: Path, target: Path) {
    var relative := Rel(root, target);
    relative == [] || !IsTraversal(Join(relative, '/'))
  }

  lemma RelLacks(root: Path, target: Path)
    requires Clear(target)
    ensures forall i :: 0 <= i < |Rel(root, target)| ==> Lacks(Rel(root, target)[i], '/')
  {
  }

  /** Containment is being below the root component by component. */
  lemma InsideIsPrefix(root: Path, target: Path)
    requires Clear(root) && Clear(target)
    ensures IsInside(root, target) <==> root <= target
  {
    hide IsTraversal, Join, Common;
    var k, relative := Common(root, target), Rel(root, target);
    RelLacks(root, target);
    if relative != [] {
      TraversalIsFirst(relative);
    }
    if k == |root| {
      assert relative == target[k..];
      assert relative != [] ==> relative[0] == target[k] && Plain(target[k]);
    } else {
      assert relative[0] == "..";
    }
  }
}
