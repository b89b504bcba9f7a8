/** The path guard: which user paths it admits, where they resolve, and what must exist. */
module Guard {
  import opened Text
  import opened Paths

  datatype Failure = UNCDenied | AbsolutePath | Traversal | HiddenDenied | OutsideRoot | Missing | OtherError

  datatype Resolution = Resolved(path: Path) | Denied(why: Failure)

  /** A location's effective path after symbolic links, if it exists. */
  datatype Effective = At(path: Path) | Nowhere | Broken

  /** The filesystem and the platform tests, left open. metadata is what validatePathMetadata answers. */
  datatype Environment = Environment(metadata: Path -> Option<Failure>, effective: Path -> Effective,
                                     blank: string -> bool, unc: string -> bool)

  datatype Guard = Guard(root: Path, effectiveRoot: Path, allowUNC: bool, allowHidden: bool)

  predicate IsHidden(name: string) {
    name != "" && name != "." && name != ".." && name[0] == '.'
  }

  // ---------------------------------------------------------------- lexical resolution

  function Normalize(env: Environment, userPath: string): string {
    if env.blank(userPath) then "." else Clean(userPath)
  }

  predicate HasHidden(path: string) {
    path != "." && exists i :: 0 <= i < |Split(path, '/')| && IsHidden(Split(path, '/')[i])
  }

  /** The components of a rendered path. */
  function Components(s: string): Path
    requires s != ""
  {
    if s == "/" then [] else Split(s[1..], '/')
  }

  lemma ComponentsOfRendered(p: Path)
    requires Clear(p)
    ensures Components(Render(p)) == p
  {
    if p != [] {
      ClearLacks(p);
      SplitJoin(p, '/');
      assert Render(p)[1..] == Join(p, '/');
      NotEmpty(p);
    }
  }

  lemma NotEmpty(p: Path)
    requires Clear(p) && p != []
    ensures Join(p, '/') != ""
  {
  }

  /** Where a user path leads from the root: nowhere further when blank, else along its walk. */
  function Target(env: Environment, userPath: string): Path {
    if env.blank(userPath) then [] else Walk(Split(userPath, '/'))
  }

  /** What the guard admits lexically. */
  ghost predicate Admissible(g: Guard, env: Environment, userPath: string) {
    && (env.blank(userPath) || (!(userPath != "" && userPath[0] == '/') && NeverBelow(Split(userPath, '/'))))
    && (g.allowUNC || !env.unc(Normalize(env, userPath)))
    && (g.allowHidden || forall c :: c in Target(env, userPath) ==> c == "" || c == ".." || c[0] != '.')
  }

  /** A normalized relative path that is no traversal is its cleaned walk. */
  lemma NormalizedIs(env: Environment, userPath: string)
    requires env.blank(userPath) || !(userPath != "" && userPath[0] == '/')
    ensures var n := Normalize(env, userPath);
            && n != "" && n[0] != '/'
            && (IsTraversal(n) <==> !env.blank(userPath) && !NeverBelow(Split(userPath, '/')))
            && (!IsTraversal(n) ==> Clear(Target(env, userPath)) && n == Relative(Target(env, userPath)))
  {
    if !env.blank(userPath) {
      var cs := Split(userPath, '/');
      JoinSplit(userPath, '/');
      TraversalIsBelow(userPath);
      if NeverBelow(cs) {
        StaysAbove(cs);
      } else {
        StaysBelow(cs);
      }
      WalkLacks(cs);
      if Walk(cs) != [] {
        LeadingPlain(Walk(cs));
      }
    }
  }

  lemma LeadingPlain(p: Path)
    requires p != [] && p[0] != "" && Lacks(p[0], '/')
    ensures Join(p, '/') != "" && Join(p, '/')[0] != '/'
  {
  }

  lemma RootedStaysRooted(userPath: string)
    requires userPath != "" && userPath[0] == '/'
    ensures Clean(userPath) != "" && Clean(userPath)[0] == '/'
  {
  }

  lemma HiddenIs(p: Path)
    requires Clear(p)
    ensures HasHidden(Relative(p)) <==> !forall c :: c in p ==> c == "" || c == ".." || c[0] != '.'
  {
    if p != [] {
      ClearLacks(p);
      SplitJoin(p, '/');
      SplitLacking(".", '/');
      assert Plain(p[0]);
    }
  }

  // ---------------------------------------------------------------- where user paths lead

  /** A path of plain components leads to exactly these. */
  lemma PlainPathLeads(env: Environment, p: Path)
    requires Clear(p) && p != [] && !env.blank(Join(p, '/'))
    ensures Target(env, Join(p, '/')) == p && Admissible(Guard([], [], true, true), env, Join(p, '/'))
  {
    hide Walk, Split, Join;
    ClearLacks(p);
    SplitJoin(p, '/');
    WalkPlain(p);
    PlainStaysAbove(p);
    LeadingPlain(p);
  }

  lemma {:induction false} PlainStaysAbove(p: Path)
    requires Clear(p)
    ensures NeverBelow(p) && Depth(p) == |p|
  {
    if p == [] {
      assert Depth(p[..0]) == 0;
    } else {
      PlainStaysAbove(p[..|p| - 1]);
      NeverBelowInit(p);
    }
  }

  /** Entering a plain directory and leaving it again changes neither the decision nor the place. */
  lemma DetourLeadsBack(g: Guard, env: Environment, userPath: string, x: string)
    requires Plain(x) && userPath != "" && !env.blank(userPath) && !env.blank(userPath + "/" + x + "/..")
    ensures var detour := userPath + "/" + x + "/..";
            && Target(env, detour) == Target(env, userPath) && Normalize(env, detour) == Normalize(env, userPath)
            && (Admissible(g, env, detour) <==> Admissible(g, env, userPath))
            && Refusal(g, env, detour) == Refusal(g, env, userPath)
  {
    var detour, cs := userPath + "/" + x + "/..", Split(userPath, '/');
    DetourSplits(userPath, x);
    assert detour[1..] == userPath[1..] + "/" + x + "/..";
    DetourSplits(userPath[1..], x);
    DetourDepth(cs, x);
    hide Split, Walk, WalkAbs, Depth, NeverBelow, Relative, Render, Lacks;
    WalkLaws(cs, x);
    WalkAbsLaws(Split(userPath[1..], '/'), x);
  }

  lemma DetourSplits(s: string, x: string)
    requires Plain(x)
    ensures Split(s + "/" + x + "/..", '/') == Split(s, '/') + [x, ".."]
  {
    hide Split, Join;
    SplitThen(s, x + "/..");
    assert s + "/" + x + "/.." == s + "/" + (x + "/..");
    SplitPeel(x, "..", '/');
    assert x + ['/'] + ".." == x + "/..";
    SplitLacking("..", '/');
    assert Split(s, '/') + ([x] + [".."]) == Split(s, '/') + [x, ".."];
  }

  lemma DetourDepth(cs: seq<string>, x: string)
    requires Plain(x)
    ensures NeverBelow(cs + [x, ".."]) <==> NeverBelow(cs)
  {
    var one, two := cs + [x], cs + [x, ".."];
    assert two[..|two| - 1] == one && one[..|one| - 1] == cs;
    NeverBelowInit(two);
    NeverBelowInit(one);
    assert cs[..|cs|] == cs;
  }

  /** Why a path is refused: the first of these that applies. */
  ghost function Refusal(g: Guard, env: Environment, userPath: string): Failure {
    if !g.allowUNC && env.unc(Normalize(env, userPath)) then UNCDenied
    else if !env.blank(userPath) && userPath != "" && userPath[0] == '/' then AbsolutePath
    else if !env.blank(userPath) && !NeverBelow(Split(userPath, '/')) then Traversal
    else HiddenDenied
  }

  /** resolveLexical: what it admits lies below the root, at exactly the root plus the walk. */
  method ResolveLexical(g: Guard, env: Environment, userPath: string) returns (r: Resolution)
    requires Clear(g.root)
    ensures r.Resolved? <==> Admissible(g, env, userPath)
    ensures r.Resolved? ==> r.path == g.root + Target(env, userPath) && Clear(r.path)
    ensures r.Denied? ==> r.why == Refusal(g, env, userPath)
    ensures r != Denied(OutsideRoot)
  {
    hide Walk, Split, Join, NeverBelow, IsTraversal, Clean, Clear, IsInside, HasHidden, Relative, JoinPath, Render,
         Components;
    var normalized := Normalize(env, userPath);
    if !g.allowUNC && env.unc(normalized) {
      return Denied(UNCDenied);
    }
    if !env.blank(userPath) && userPath != "" && userPath[0] == '/' {
      RootedStaysRooted(userPath);
    } else {
      NormalizedIs(env, userPath);
    }
    if normalized != "" && normalized[0] == '/' {
      return Denied(AbsolutePath);
    }
    if IsTraversal(normalized) {
      return Denied(Traversal);
    }
    HiddenIs(Target(env, userPath));
    if !g.allowHidden && HasHidden(normalized) {
      return Denied(HiddenDenied);
    }
    JoinedIsBelow(g.root, Target(env, userPath));
    ClearJoined(g.root, Target(env, userPath));
    var text := JoinPath(g.root, normalized);
    RenderNotEmpty(g.root + Target(env, userPath));
    ComponentsOfRendered(g.root + Target(env, userPath));
    var resolved := Components(text);
    InsideIsPrefix(g.root, resolved);
    if !IsInside(g.root, resolved) {
      return Denied(OutsideRoot);
    }
    return Resolved(resolved);
  }

  lemma ClearJoined(a: Path, b: Path)
    requires Clear(a) && Clear(b)
    ensures Clear(a + b)
  {
  }

  lemma RenderNotEmpty(p: Path)
    ensures Render(p) != ""
  {
  }

  // ---------------------------------------------------------------- policy along a path

  /** The objection to the n-th prefix of a path. */
  function ObjectionAt(g: Guard, env: Environment, p: Path, n: nat): Option<Failure>
    requires 0 < n <= |p|
  {
    if !g.allowHidden && IsHidden(p[n - 1]) then Some(HiddenDenied) else env.metadata(p[..n])
  }

  /** The first objection below the root; the root itself is looked at only when it is the path. */
  ghost function Policy(g: Guard, env: Environment, p: Path): Option<Failure>
    requires g.root <= p
  {
    if p == g.root then env.metadata(p) else FirstObjection(g, env, p, |g.root| + 1)
  }

  ghost function FirstObjection(g: Guard, env: Environment, p: Path, n: nat): Option<Failure>
    requires 0 < n
    decreases |p| - n
  {
    if n > |p| then None
    else if ObjectionAt(g, env, p, n).Some? then ObjectionAt(g, env, p, n)
    else FirstObjection(g, env, p, n + 1)
  }

  /** A path passes exactly when no prefix below the root is objected to. */
  lemma {:induction false} PassesIs(g: Guard, env: Environment, p: Path, n: nat)
    requires 0 < n
    ensures FirstObjection(g, env, p, n) == None <==> forall k :: n <= k <= |p| ==> ObjectionAt(g, env, p, k) == None
    decreases |p| - n
  {
    if n <= |p| && ObjectionAt(g, env, p, n).None? {
      PassesIs(g, env, p, n + 1);
    }
  }

  /** The name shows itself as it is allowed to. */
  predicate Shown(g: Guard, name: string) {
    g.allowHidden || name == "" || name == "." || name == ".." || name[0] != '.'
  }

  /** Nothing is objected to the k-th prefix: its name is shown and its metadata are in order. */
  predicate Unobjected(g: Guard, env: Environment, p: Path, k: nat)
    requires 0 < k <= |p|
  {
    Shown(g, p[k - 1]) && env.metadata(p[..k]) == None
  }

  /** The first objection is this one, to the k-th prefix: a hidden name, or what its metadata answer. */
  ghost predicate ObjectedAt(g: Guard, env: Environment, p: Path, k: nat, why: Failure) {
    && |g.root| < k <= |p| && (if Shown(g, p[k - 1]) then env.metadata(p[..k]) == Some(why) else why == HiddenDenied)
    && forall j :: |g.root| < j < k ==> Unobjected(g, env, p, j)
  }

  /** The policy answers with the first objection below the root, and nothing when there is none. */
  lemma PolicyIs(g: Guard, env: Environment, p: Path)
    requires g.root <= p && p != g.root
    ensures Policy(g, env, p) == None <==> forall k :: |g.root| < k <= |p| ==> Unobjected(g, env, p, k)
    ensures forall why :: Policy(g, env, p) == Some(why) <==> exists k: nat :: ObjectedAt(g, env, p, k, why)
  {
    FirstIs(g, env, p, |g.root| + 1);
  }

  lemma {:induction false} FirstIs(g: Guard, env: Environment, p: Path, n: nat)
    requires |g.root| < n <= |p| + 1 && forall j :: |g.root| < j < n ==> Unobjected(g, env, p, j)
    ensures FirstObjection(g, env, p, n) == None <==> forall k :: |g.root| < k <= |p| ==> Unobjected(g, env, p, k)
    ensures forall why :: FirstObjection(g, env, p, n) == Some(why) <==> exists k: nat :: ObjectedAt(g, env, p, k, why)
    decreases |p| - n
  {
    hide Shown;
    forall k: nat, why | k != n && (k < n || (n <= |p| && !Unobjected(g, env, p, n)))
      ensures !ObjectedAt(g, env, p, k, why)
    {
      NotThere(g, env, p, n, k, why);
    }
    if n <= |p| {
      HiddenOrShown(g, p[n - 1]);
      if ObjectionAt(g, env, p, n).Some? {
        assert !Unobjected(g, env, p, n);
        assert ObjectedAt(g, env, p, n, ObjectionAt(g, env, p, n).value);
      } else {
        FirstIs(g, env, p, n + 1);
      }
    }
  }

  lemma NotThere(g: Guard, env: Environment, p: Path, n: nat, k: nat, why: Failure)
    requires |g.root| < n && forall j :: |g.root| < j < n && j <= |p| ==> Unobjected(g, env, p, j)
    requires k < n || (n <= |p| && n < k && !Unobjected(g, env, p, n))
    ensures !ObjectedAt(g, env, p, k, why)
  {
    if |g.root| < k <= |p| {
      assert k < n ==> Unobjected(g, env, p, k);
      assert n < k ==> !Unobjected(g, env, p, n);
    }
  }

  lemma HiddenOrShown(g: Guard, name: string)
    ensures Shown(g, name) <==> g.allowHidden || !IsHidden(name)
  {
  }

  method ValidateExistingPathPolicy(g: Guard, env: Environment, p: Path) returns (r: Option<Failure>)
    requires g.root <= p
    ensures r == Policy(g, env, p)
  {
    if p == g.root {
      return env.metadata(g.root);
    }
    var current := g.root;
    var components := p[|g.root|..];
    var i := 0;
    while i < |components|
      invariant 0 <= i <= |components| && current == p[..|g.root| + i]
      invariant FirstObjection(g, env, p, |g.root| + 1) == FirstObjection(g, env, p, |g.root| + 1 + i)
    {
      if !g.allowHidden && IsHidden(components[i]) {
        return Some(HiddenDenied);
      }
      current := current + [components[i]];
      assert current == p[..|g.root| + i + 1];
      var objection := env.metadata(current);
      if objection.Some? {
        return objection;
      }
      i := i + 1;
    }
    return None;
  }

  // ---------------------------------------------------------------- the nearest existing parent

  /** The guard finds nothing there. */
  ghost predicate Gone(g: Guard, env: Environment, p: Path)
    requires g.root <= p
  {
    Policy(g, env, p) == Some(Missing) || (Policy(g, env, p) == None && env.effective(p) == Nowhere)
  }

  ghost predicate GoneFrom(g: Guard, env: Environment, p: Path, n: nat)
    requires g.root <= p && |g.root| <= n
  {
    forall m :: n <= m < |p| ==> Gone(g, env, p[..m])
  }

  /** The n-th prefix is the nearest proper ancestor the guard finds, with everything below it missing. */
  ghost predicate Nearest(g: Guard, env: Environment, p: Path, n: nat)
    requires g.root <= p
  {
    |g.root| <= n < |p| && GoneFrom(g, env, p, n + 1) && !Gone(g, env, p[..n])
  }

  /** Effective locations are absolute, cleaned paths. */
  ghost predicate Settled(env: Environment) {
    forall p :: env.effective(p).At? ==> Clear(env.effective(p).path)
  }

  function Dir(p: Path): Path {
    if p == [] then [] else p[..|p| - 1]
  }

  method ResolveExistingParent(g: Guard, env: Environment, p: Path) returns (r: Resolution)
    requires Clear(g.root) && Clear(p) && g.root <= p && Settled(env)
    ensures r.Resolved? ==> Clear(r.path)
    ensures r.Resolved? ==> exists n: nat :: Nearest(g, env, p, n) && Policy(g, env, p[..n]) == None
                                        && env.effective(p[..n]) == At(r.path)
    ensures (forall n: nat :: !Nearest(g, env, p, n)) ==> r == Denied(OutsideRoot)
    ensures forall n: nat :: Nearest(g, env, p, n) ==>
              r == if Policy(g, env, p[..n]).Some? then Denied(Policy(g, env, p[..n]).value)
                   else if env.effective(p[..n]).At? then Resolved(env.effective(p[..n]).path) else Denied(OtherError)
  {
    hide Policy, IsInside, Clear;
    var current := p;
    while true
      invariant g.root <= current <= p && GoneFrom(g, env, p, |current|)
      decreases |current|
    {
      var parent := Dir(current);
      ClearPrefix(p, |parent|);
      assert parent <= p && parent == p[..|parent|];
      InsideIsPrefix(g.root, parent);
      if parent == current || !IsInside(g.root, parent) {
        assert current == g.root;
        NoneNearest(g, env, p);
        return Denied(OutsideRoot);
      }
      var objection := ValidateExistingPathPolicy(g, env, parent);
      if objection.Some? {
        if objection.value != Missing {
          OnlyNearest(g, env, p, |parent|);
          return Denied(objection.value);
        }
      } else {
        var effective := env.effective(parent);
        if effective.At? {
          OnlyNearest(g, env, p, |parent|);
          return Resolved(effective.path);
        }
        if effective.Broken? {
          OnlyNearest(g, env, p, |parent|);
          return Denied(OtherError);
        }
      }
      GoneMore(g, env, p, |parent|);
      current := parent;
    }
  }

  lemma ClearPrefix(p: Path, n: nat)
    requires Clear(p) && n <= |p|
    ensures Clear(p[..n])
  {
  }

  lemma GoneMore(g: Guard, env: Environment, p: Path, n: nat)
    requires g.root <= p && |g.root| <= n < |p| && GoneFrom(g, env, p, n + 1) && Gone(g, env, p[..n])
    ensures GoneFrom(g, env, p, n)
  {
  }

  /** There is at most one nearest ancestor. */
  lemma OnlyNearest(g: Guard, env: Environment, p: Path, n: nat)
    requires g.root <= p && |g.root| <= n < |p| && GoneFrom(g, env, p, n + 1) && !Gone(g, env, p[..n])
    ensures Nearest(g, env, p, n) && forall m: nat :: Nearest(g, env, p, m) ==> m == n
  {
  }

  lemma NoneNearest(g: Guard, env: Environment, p: Path)
    requires g.root <= p && GoneFrom(g, env, p, |g.root|)
    ensures forall m: nat :: !Nearest(g, env, p, m)
  {
  }

  // ---------------------------------------------------------------- the two resolutions

  /** Why a path below the root is refused when it has to exist: the first objection in the order of the checks. */
  ghost function PlaceRefusal(g: Guard, env: Environment, p: Path): Option<Failure>
    requires g.root <= p
  {
    if Policy(g, env, p).Some? then Policy(g, env, p)
    else
      match env.effective(p)
      case Nowhere => Some(Missing)
      case Broken => Some(OtherError)
      case At(effective) => if g.effectiveRoot <= effective then None else Some(OutsideRoot)
  }

  method ResolveExisting(g: Guard, env: Environment, userPath: string) returns (r: Resolution)
    requires Clear(g.root) && Clear(g.effectiveRoot)
    requires Settled(env)
    ensures r.Resolved? <==> && Admissible(g, env, userPath)
                             && var p := g.root + Target(env, userPath);
                                Policy(g, env, p) == None && env.effective(p).At? && g.effectiveRoot <= env.effective(p).path
    ensures r.Resolved? ==> r.path == g.root + Target(env, userPath)
    ensures r.Denied? ==>
              if Admissible(g, env, userPath) then PlaceRefusal(g, env, g.root + Target(env, userPath)) == Some(r.why)
              else r.why == Refusal(g, env, userPath)
  {
    hide Policy, Admissible, Target, IsInside;
    r := ResolveLexical(g, env, userPath);
    if r.Denied? {
      return;
    }
    var objection := ValidateExistingPathPolicy(g, env, r.path);
    if objection.Some? {
      return Denied(objection.value);
    }
    var effective := env.effective(r.path);
    if !effective.At? {
      return Denied(if effective.Nowhere? then Missing else OtherError);
    }
    InsideIsPrefix(g.effectiveRoot, effective.path);
    if !IsInside(g.effectiveRoot, effective.path) {
      return Denied(OutsideRoot);
    }
  }

  /** Either the path exists inside the effective root, or its nearest existing ancestor does. */
  ghost predicate Creatable(g: Guard, env: Environment, p: Path)
    requires g.root <= p
  {
    match env.effective(p)
    case At(effective) => Policy(g, env, p) == None && g.effectiveRoot <= effective
    case Nowhere =>
      exists n: nat :: && Nearest(g, env, p, n) && Policy(g, env, p[..n]) == None && env.effective(p[..n]).At?
                  && g.effectiveRoot <= env.effective(p[..n]).path
    case Broken => false
  }

  /** The n-th prefix exists inside the effective root, the policy passes it, and nothing is found between it and p. */
  ghost predicate ParentAt(g: Guard, env: Environment, p: Path, n: nat)
    requires g.root <= p
  {
    && |g.root| <= n < |p| && Policy(g, env, p[..n]) == None && env.effective(p[..n]).At?
    && g.effectiveRoot <= env.effective(p[..n]).path
    && forall m :: n < m < |p| ==>
         Policy(g, env, p[..m]) == Some(Missing) || (Policy(g, env, p[..m]) == None && env.effective(p[..m]) == Nowhere)
  }

  /** What may be created is what exists in order, or what is nowhere below a parent that does. */
  lemma CreatableIs(g: Guard, env: Environment, p: Path)
    requires g.root <= p
    ensures Creatable(g, env, p) <==>
              || (env.effective(p).At? && Policy(g, env, p) == None && g.effectiveRoot <= env.effective(p).path)
              || (env.effective(p) == Nowhere && exists n: nat :: ParentAt(g, env, p, n))
  {
    hide Policy;
    if env.effective(p) == Nowhere {
      forall n: nat | |g.root| <= n < |p| && Policy(g, env, p[..n]) == None && env.effective(p[..n]).At?
        ensures ParentAt(g, env, p, n) <==> Nearest(g, env, p, n) && g.effectiveRoot <= env.effective(p[..n]).path
      {
        assert !Gone(g, env, p[..n]);
      }
    }
  }

  /** Why a path that may be created is refused: by its own place, or by its nearest existing ancestor. */
  ghost predicate CreationRefused(g: Guard, env: Environment, p: Path, why: Failure)
    requires g.root <= p
  {
    match env.effective(p)
    case Broken => why == OtherError
    case At(_) => PlaceRefusal(g, env, p) == Some(why)
    case Nowhere =>
      || (why == OutsideRoot && forall n: nat :: !Nearest(g, env, p, n))
      || exists n: nat :: Nearest(g, env, p, n) && AncestorRefused(g, env, p[..n], why)
  }

  ghost predicate AncestorRefused(g: Guard, env: Environment, ancestor: Path, why: Failure)
    requires g.root <= ancestor
  {
    if Policy(g, env, ancestor).Some? then why == Policy(g, env, ancestor).value
    else
      match env.effective(ancestor)
      case At(effective) => why == OutsideRoot && !(g.effectiveRoot <= effective)
      case _ => why == OtherError
  }

  method ResolveForCreate(g: Guard, env: Environment, userPath: string) returns (r: Resolution)
    requires Clear(g.root) && Clear(g.effectiveRoot)
    requires Settled(env)
    ensures r.Resolved? <==> Admissible(g, env, userPath) && Creatable(g, env, g.root + Target(env, userPath))
    ensures r.Resolved? ==> r.path == g.root + Target(env, userPath)
    ensures r.Denied? ==>
              if Admissible(g, env, userPath) then CreationRefused(g, env, g.root + Target(env, userPath), r.why)
              else r.why == Refusal(g, env, userPath)
  {
    hide Policy, Admissible, Target, IsInside, Nearest, Clear;
    r := ResolveLexical(g, env, userPath);
    if r.Denied? {
      return;
    }
    var effective := env.effective(r.path);
    match effective {
      case At(there) =>
        var objection := ValidateExistingPathPolicy(g, env, r.path);
        if objection.Some? {
          return Denied(objection.value);
        }
        InsideIsPrefix(g.effectiveRoot, there);
        if !IsInside(g.effectiveRoot, there) {
          return Denied(OutsideRoot);
        }
      case Broken =>
        return Denied(OtherError);
      case Nowhere =>
        var parent := ResolveExistingParent(g, env, r.path);
        if parent.Denied? {
          return parent;
        }
        InsideIsPrefix(g.effectiveRoot, parent.path);
        if !IsInside(g.effectiveRoot, parent.path) {
          return Denied(OutsideRoot);
        }
    }
  }
}
