/** Classifying the modules of an inventory: package identities, closure and exposure. */
module ModuleGraph {
  import opened Text
  import opened Evidence
  import Sorting

  datatype Package = Package(id: string, name: string, version: string)

  datatype Relationship = Relationship(from: string, kind: string, to: string)

  const PRODUCT := "SPDXRef-FlashGate"
  const BUILD_KINDS := {"BUILD_DEPENDENCY_OF"}
  const TEST_KINDS := {"TEST_DEPENDENCY_OF"}
  const LIVE_KINDS := {"RUNTIME_DEPENDENCY_OF", "DEPENDENCY_OF"}

  // ---------------------------------------------------------------- package identities

  /** The packages naming modules are one to one with the modules, with matching versions and distinct ids. */
  predicate Identified(packages: seq<Package>, modules: map<string, Module>) {
    && SoFar(packages, modules) && modules != map[]
    && forall n :: n in modules ==> exists k :: 0 <= k < |packages| && packages[k].name == n
  }

  predicate SoFar(packages: seq<Package>, modules: map<string, Module>) {
    && (forall k :: 0 <= k < |packages| && packages[k].name in modules ==>
          modules[packages[k].name].version == packages[k].version)
    && (forall k, l :: 0 <= k < l < |packages| && packages[k].name in modules && packages[l].name in modules ==>
          packages[k].id != packages[l].id && packages[k].name != packages[l].name)
  }

  /** ids is the id table of the packages naming modules. */
  ghost predicate IdTable(ids: map<string, string>, packages: seq<Package>, modules: map<string, Module>) {
    && (forall k :: 0 <= k < |packages| && packages[k].name in modules ==>
          packages[k].id in ids && ids[packages[k].id] == packages[k].name)
    && (forall i :: i in ids ==> Backs(ids, packages, modules, i))
    && (forall i, j :: i in ids && j in ids && i != j ==> ids[i] != ids[j])
  }

  ghost predicate Backs(ids: map<string, string>, packages: seq<Package>, modules: map<string, Module>, i: string)
    requires i in ids
  {
    ids[i] in modules && exists k :: 0 <= k < |packages| && packages[k].id == i && packages[k].name == ids[i]
  }

  lemma TableGrows(ids: map<string, string>, packages: seq<Package>, modules: map<string, Module>, p: Package)
    requires IdTable(ids, packages, modules) && SoFar(packages, modules)
    ensures p.name !in modules ==> IdTable(ids, packages + [p], modules) && SoFar(packages + [p], modules)
    ensures p.name in modules && modules[p.name].version == p.version && p.id !in ids && p.name !in ids.Values ==>
              IdTable(ids[p.id := p.name], packages + [p], modules) && SoFar(packages + [p], modules)
    ensures p.name in modules && !(modules[p.name].version == p.version && p.id !in ids && p.name !in ids.Values) ==>
              !SoFar(packages + [p], modules)
  {
    hide Backs;
    if p.name in modules {
      if modules[p.name].version != p.version {
        assert (packages + [p])[|packages|] == p;
      } else if p.id in ids {
        BackedClash(ids, packages, modules, p, p.id);
      } else if p.name in ids.Values {
        var i :| i in ids && ids[i] == p.name;
        BackedClash(ids, packages, modules, p, i);
      } else {
        var more := ids[p.id := p.name];
        KeepsBacking(ids, packages, modules, p, more);
        NewPackage(ids, packages, modules, p, more);
      }
    } else {
      KeepsBacking(ids, packages, modules, p, ids);
      OtherPackage(ids, packages, modules, p);
    }
  }

  lemma OtherPackage(ids: map<string, string>, packages: seq<Package>, modules: map<string, Module>, p: Package)
    requires IdTable(ids, packages, modules) && SoFar(packages, modules) && p.name !in modules
    requires forall i :: i in ids ==> Backs(ids, packages + [p], modules, i)
    ensures IdTable(ids, packages + [p], modules) && SoFar(packages + [p], modules)
  {
    hide Backs;
    var all := packages + [p];
    assert all[|packages|] == p && forall k :: 0 <= k < |packages| ==> all[k] == packages[k];
  }

  lemma NewPackage(ids: map<string, string>, packages: seq<Package>, modules: map<string, Module>, p: Package,
                   more: map<string, string>)
    requires IdTable(ids, packages, modules) && SoFar(packages, modules)
    requires p.name in modules && modules[p.name].version == p.version && p.id !in ids && p.name !in ids.Values
    requires more == ids[p.id := p.name] && forall i :: i in more ==> Backs(more, packages + [p], modules, i)
    ensures IdTable(more, packages + [p], modules) && SoFar(packages + [p], modules)
  {
    hide Backs;
    var all := packages + [p];
    assert all[|packages|] == p;
    forall k | 0 <= k < |packages| && packages[k].name in modules
      ensures all[k] == packages[k] && packages[k].id != p.id && packages[k].name != p.name
    {
      assert ids[packages[k].id] in ids.Values;
    }
    forall i, j | i in more && j in more && i != j ensures more[i] != more[j] {
      assert i in ids ==> ids[i] in ids.Values;
      assert j in ids ==> ids[j] in ids.Values;
    }
  }

  lemma BackedClash(ids: map<string, string>, packages: seq<Package>, modules: map<string, Module>, p: Package,
                    i: string)
    requires IdTable(ids, packages, modules) && p.name in modules && i in ids && (i == p.id || ids[i] == p.name)
    ensures !SoFar(packages + [p], modules)
  {
    assert Backs(ids, packages, modules, i);
    var k :| 0 <= k < |packages| && packages[k].id == i && packages[k].name == ids[i];
    var all := packages + [p];
    assert all[k] == packages[k] && all[|packages|] == p;
  }

  lemma KeepsBacking(ids: map<string, string>, packages: seq<Package>, modules: map<string, Module>, p: Package,
                     more: map<string, string>)
    requires IdTable(ids, packages, modules)
    requires more == ids || (p.name in modules && p.id !in ids && more == ids[p.id := p.name])
    ensures forall i :: i in more ==> Backs(more, packages + [p], modules, i)
  {
    var all := packages + [p];
    forall i | i in more ensures Backs(more, all, modules, i) {
      if i in ids {
        assert Backs(ids, packages, modules, i);
        var k :| 0 <= k < |packages| && packages[k].id == i && packages[k].name == ids[i];
        assert all[k].id == i && all[k].name == more[i];
      } else {
        assert all[|packages|].id == i && all[|packages|].name == more[i];
      }
    }
  }

  method BindIds(packages: seq<Package>, modules: map<string, Module>) returns (ok: bool, ids: map<string, string>)
    ensures ok <==> Identified(packages, modules)
    ensures ok ==> IdTable(ids, packages, modules)
  {
    hide IdTable, SoFar;
    ids := map[];
    NoIds(modules);
    var i := 0;
    while i < |packages|
      invariant 0 <= i <= |packages| && IdTable(ids, packages[..i], modules) && SoFar(packages[..i], modules)
    {
      var p := packages[i];
      assert packages[..i + 1] == packages[..i] + [p];
      TableGrows(ids, packages[..i], modules, p);
      if p.name in modules {
        if modules[p.name].version != p.version || p.id in ids || p.name in ids.Values {
          NotSoFar(packages, modules, i + 1);
          return false, ids;
        }
        ids := ids[p.id := p.name];
      }
      i := i + 1;
    }
    assert packages[..i] == packages;
    TableCounts(ids, packages, modules);
    return |ids| == |modules| && |modules| > 0, ids;
  }

  lemma NoIds(modules: map<string, Module>)
    ensures IdTable(map[], [], modules) && SoFar([], modules)
  {
  }

  lemma NotSoFar(packages: seq<Package>, modules: map<string, Module>, n: nat)
    requires n <= |packages| && !SoFar(packages[..n], modules)
    ensures !SoFar(packages, modules)
  {
  }

  /** Comparing counts tells whether every module has its package. */
  lemma TableCounts(ids: map<string, string>, packages: seq<Package>, modules: map<string, Module>)
    requires IdTable(ids, packages, modules)
    ensures |ids| == |modules| <==> forall n :: n in modules ==> exists k :: 0 <= k < |packages| && packages[k].name == n
  {
    InjectiveValues(ids);
    forall n ensures n in ids.Values <==> n in modules && exists k :: 0 <= k < |packages| && packages[k].name == n {
      if n in ids.Values {
        var i :| i in ids && ids[i] == n;
        assert Backs(ids, packages, modules, i);
      }
      if n in modules && exists k :: 0 <= k < |packages| && packages[k].name == n {
        var k :| 0 <= k < |packages| && packages[k].name == n;
        assert ids[packages[k].id] == n;
      }
    }
    assert ids.Values <= modules.Keys;
    if |ids| == |modules| {
      SubsetOfSameSize(ids.Values, modules.Keys);
    }
    if forall n :: n in modules ==> exists k :: 0 <= k < |packages| && packages[k].name == n {
      assert ids.Values == modules.Keys;
    }
  }

  lemma InjectiveValues(ids: map<string, string>)
    requires forall i, j :: i in ids && j in ids && i != j ==> ids[i] != ids[j]
    ensures |ids.Values| == |ids|
  {
    ImageCount(ids, ids.Keys);
    assert ids.Values == set i | i in ids.Keys :: ids[i];
  }

  lemma {:induction false} ImageCount(ids: map<string, string>, keys: set<string>)
    requires keys <= ids.Keys && forall i, j :: i in ids && j in ids && i != j ==> ids[i] != ids[j]
    ensures |set i | i in keys :: ids[i]| == |keys|
  {
    if keys != {} {
      var i :| i in keys;
      var rest := keys - {i};
      ImageCount(ids, rest);
      var image := set k | k in rest :: ids[k];
      assert ids[i] !in image;
      assert (set k | k in keys :: ids[k]) == image + {ids[i]};
    }
  }

  // ---------------------------------------------------------------- the dependency graph

  type Edges = map<string, seq<string>>

  function Children(edges: Edges, n: string): set<string> {
    if n in edges then Elements(edges[n]) else {}
  }

  /** A dependency between two modules is declared. */
  ghost predicate Declared(relationships: seq<Relationship>, ids: map<string, string>, a: string, b: string) {
    exists k :: 0 <= k < |relationships| && Dependency(relationships[k], ids)
                && ids[relationships[k].from] == a && ids[relationships[k].to] == b
  }

  predicate Dependency(r: Relationship, ids: map<string, string>) {
    r.kind == "DEPENDS_ON" && r.from in ids && r.to in ids
  }

  /** What the relations with the product say about a module. */
  ghost predicate Related(relationships: seq<Relationship>, ids: map<string, string>, n: string, kinds: set<string>) {
    exists k :: 0 <= k < |relationships| && relationships[k].to == PRODUCT && relationships[k].kind in kinds
                && relationships[k].from in ids && ids[relationships[k].from] == n
  }

  ghost predicate Runtime(relationships: seq<Relationship>, ids: map<string, string>, n: string) {
    || Related(relationships, ids, n, LIVE_KINDS)
    || exists k :: 0 <= k < |relationships| && relationships[k].from == PRODUCT && relationships[k].kind == "DEPENDS_ON"
                   && relationships[k].to in ids && ids[relationships[k].to] == n
  }

  // ---------------------------------------------------------------- reachability

  ghost predicate Walk(edges: Edges, p: seq<string>) {
    forall k :: 0 <= k < |p| - 1 ==> p[k + 1] in Children(edges, p[k])
  }

  /** There is a path of at least one edge. */
  ghost predicate Reaches(edges: Edges, a: string, b: string) {
    exists p: seq<string> :: |p| >= 2 && p[0] == a && p[|p| - 1] == b && Walk(edges, p)
  }

  /** The nodes reachable from some root by a nonempty path. */
  ghost predicate FromRoots(edges: Edges, roots: set<string>, b: string) {
    exists a :: a in roots && Reaches(edges, a, b)
  }

  lemma ReachesChild(edges: Edges, a: string, b: string)
    requires b in Children(edges, a)
    ensures Reaches(edges, a, b)
  {
    assert Walk(edges, [a, b]);
  }

  lemma ReachesFurther(edges: Edges, a: string, b: string, c: string)
    requires b in Children(edges, a) && Reaches(edges, b, c)
    ensures Reaches(edges, a, c)
  {
    var p :| |p| >= 2 && p[0] == b && p[|p| - 1] == c && Walk(edges, p);
    var q := [a] + p;
    forall k | 0 <= k < |q| - 1 ensures q[k + 1] in Children(edges, q[k]) {
      if k > 0 {
        assert q[k] == p[k - 1] && q[k + 1] == p[k];
      }
    }
    assert Walk(edges, q);
  }

  /** A set that contains a node's children and is closed contains everything the node reaches. */
  lemma {:induction false} ClosedContains(edges: Edges, s: set<string>, p: seq<string>, n: nat)
    requires 1 <= n < |p| && Walk(edges, p) && Children(edges, p[0]) <= s
    requires forall x :: x in s ==> Children(edges, x) <= s
    ensures p[n] in s
  {
    if n > 1 {
      ClosedContains(edges, s, p, n - 1);
    }
    assert p[n - 1 + 1] in Children(edges, p[n - 1]);
  }

  /** All nodes that occur as children. */
  function Targets(edges: Edges): set<string> {
    set n, c | n in edges && c in edges[n] :: c
  }

  class Closure {
    const edges: Edges
    var reached: set<string>

    constructor (edges: Edges)
      ensures this.edges == edges && reached == {}
    {
      this.edges := edges;
      reached := {};
    }

    /** The recursive marking. Cycles are cut by the marks. */
    method Visit(name: string)
      modifies this
      decreases |Targets(edges) - reached|
      ensures old(reached) <= reached && Children(edges, name) <= reached
      ensures forall x :: x in reached - old(reached) ==> Children(edges, x) <= reached && Reaches(edges, name, x)
    {
      hide Reaches, Walk;
      if name !in edges {
        return;
      }
      var children := edges[name];
      var i := 0;
      while i < |children|
        invariant 0 <= i <= |children| && old(reached) <= reached && Elements(children[..i]) <= reached
        invariant forall x :: x in reached - old(reached) ==> Children(edges, x) <= reached && Reaches(edges, name, x)
      {
        var child := children[i];
        assert children[..i + 1] == children[..i] + [child];
        assert child in Children(edges, name);
        if child !in reached {
          ghost var before := reached;
          reached := reached + {child};
          assert child in Targets(edges) - before;
          Fewer(Targets(edges), old(reached), before, child);
          ReachesChild(edges, name, child);
          Visit(child);
          forall x | x in reached - old(reached) ensures Children(edges, x) <= reached && Reaches(edges, name, x) {
            if x !in before && x != child {
              ReachesFurther(edges, name, child, x);
            }
          }
        }
        i := i + 1;
      }
      assert children[..i] == children;
    }

    /** The closure over all roots, in whatever order they are taken. */
    method VisitAll(roots: set<string>)
      requires reached == {}
      modifies this
      ensures forall x :: x in reached <==> FromRoots(edges, roots, x)
    {
      hide Reaches, Walk;
      var left := roots;
      while left != {}
        invariant left <= roots
        invariant forall a :: a in roots - left ==> Children(edges, a) <= reached
        invariant forall x :: x in reached ==> Children(edges, x) <= reached && FromRoots(edges, roots, x)
        decreases |left|
      {
        var name :| name in left;
        ghost var before := reached;
        Visit(name);
        left := left - {name};
        forall x | x in reached ensures Children(edges, x) <= reached && FromRoots(edges, roots, x) {
          if x in before {
            assert Children(edges, x) <= before;
          }
        }
      }
      forall x | FromRoots(edges, roots, x) ensures x in reached {
        Complete(edges, roots, reached, x);
      }
    }
  }

  lemma Fewer(all: set<string>, start: set<string>, now: set<string>, x: string)
    requires start <= now && x in all && x !in now
    ensures |all - (now + {x})| < |all - start|
  {
    assert all - (now + {x}) <= all - start - {x};
    SubsetCount(all - (now + {x}), all - start - {x});
  }

  lemma Complete(edges: Edges, roots: set<string>, reached: set<string>, x: string)
    requires FromRoots(edges, roots, x) && (forall a :: a in roots ==> Children(edges, a) <= reached)
    requires forall y :: y in reached ==> Children(edges, y) <= reached
    ensures x in reached
  {
    var a :| a in roots && Reaches(edges, a, x);
    var p :| |p| >= 2 && p[0] == a && p[|p| - 1] == x && Walk(edges, p);
    ClosedContains(edges, reached, p, |p| - 1);
  }

  // ---------------------------------------------------------------- edges and exposure from the relationships

  ghost predicate EdgesOf(edges: Edges, relationships: seq<Relationship>, ids: map<string, string>) {
    forall a, b :: b in Children(edges, a) <==> Declared(relationships, ids, a, b)
  }

  function AddEdge(edges: Edges, a: string, b: string): (r: Edges)
    ensures forall x :: Children(r, x) == Children(edges, x) + if x == a then {b} else {}
  {
    var before := if a in edges then edges[a] else [];
    assert forall c :: c in before + [b] <==> c in before || c == b;
    edges[a := before + [b]]
  }

  lemma DeclaredSnoc(relationships: seq<Relationship>, r: Relationship, ids: map<string, string>, a: string, b: string)
    ensures Declared(relationships + [r], ids, a, b) <==>
              Declared(relationships, ids, a, b) || (Dependency(r, ids) && ids[r.from] == a && ids[r.to] == b)
  {
    var all := relationships + [r];
    assert all[|relationships|] == r;
    if Declared(relationships, ids, a, b) {
      var k :| 0 <= k < |relationships| && Dependency(relationships[k], ids)
               && ids[relationships[k].from] == a && ids[relationships[k].to] == b;
      assert all[k] == relationships[k];
    }
  }

  lemma EdgesSnoc(edges: Edges, relationships: seq<Relationship>, r: Relationship, ids: map<string, string>)
    requires EdgesOf(edges, relationships, ids)
    ensures EdgesOf(if Dependency(r, ids) then AddEdge(edges, ids[r.from], ids[r.to]) else edges, relationships + [r], ids)
  {
    hide Declared, AddEdge, Children;
    var more := if Dependency(r, ids) then AddEdge(edges, ids[r.from], ids[r.to]) else edges;
    forall a, b ensures b in Children(more, a) <==> Declared(relationships + [r], ids, a, b) {
      DeclaredSnoc(relationships, r, ids, a, b);
    }
  }

  predicate IsRelated(r: Relationship, ids: map<string, string>, n: string, kinds: set<string>) {
    r.to == PRODUCT && r.kind in kinds && r.from in ids && ids[r.from] == n
  }

  predicate IsUsed(r: Relationship, ids: map<string, string>, n: string) {
    r.from == PRODUCT && r.kind == "DEPENDS_ON" && r.to in ids && ids[r.to] == n
  }

  ghost predicate Exposed(relationships: seq<Relationship>, ids: map<string, string>, build: set<string>,
                          forTests: set<string>, live: set<string>)
  {
    && (forall n :: n in build <==> Related(relationships, ids, n, BUILD_KINDS))
    && (forall n :: n in forTests <==> Related(relationships, ids, n, TEST_KINDS))
    && (forall n :: n in live <==> Runtime(relationships, ids, n))
  }

  lemma RelatedSnoc(relationships: seq<Relationship>, r: Relationship, ids: map<string, string>, n: string,
                    kinds: set<string>)
    ensures Related(relationships + [r], ids, n, kinds) <==>
              Related(relationships, ids, n, kinds) || IsRelated(r, ids, n, kinds)
  {
    var all := relationships + [r];
    assert all[|relationships|] == r;
    if Related(relationships, ids, n, kinds) {
      var k :| 0 <= k < |relationships| && relationships[k].to == PRODUCT && relationships[k].kind in kinds
               && relationships[k].from in ids && ids[relationships[k].from] == n;
      assert all[k] == relationships[k];
    }
  }

  lemma RuntimeSnoc(relationships: seq<Relationship>, r: Relationship, ids: map<string, string>, n: string)
    ensures Runtime(relationships + [r], ids, n) <==>
              || Runtime(relationships, ids, n)
              || IsRelated(r, ids, n, LIVE_KINDS) || IsUsed(r, ids, n)
  {
    hide Related;
    var all := relationships + [r];
    RelatedSnoc(relationships, r, ids, n, LIVE_KINDS);
    assert all[|relationships|] == r;
    if k :| 0 <= k < |relationships| && relationships[k].from == PRODUCT && relationships[k].kind == "DEPENDS_ON"
            && relationships[k].to in ids && ids[relationships[k].to] == n {
      assert all[k] == relationships[k];
    }
  }

  /** The loop over the relationships. */
  method ReadRelationships(relationships: seq<Relationship>, ids: map<string, string>)
    returns (edges: Edges, build: set<string>, forTests: set<string>, live: set<string>)
    ensures EdgesOf(edges, relationships, ids) && Exposed(relationships, ids, build, forTests, live)
  {
    hide EdgesOf, AddEdge, Related, Runtime, Children;
    edges, build, forTests, live := map[], {}, {}, {};
    NoRelationships(ids);
    var i := 0;
    while i < |relationships|
      invariant 0 <= i <= |relationships| && EdgesOf(edges, relationships[..i], ids)
      invariant Exposed(relationships[..i], ids, build, forTests, live)
    {
      var r := relationships[i];
      assert relationships[..i + 1] == relationships[..i] + [r];
      EdgesSnoc(edges, relationships[..i], r, ids);
      ExposedSnoc(relationships[..i], r, ids);
      if Dependency(r, ids) {
        edges := AddEdge(edges, ids[r.from], ids[r.to]);
      }
      if r.to == PRODUCT && r.from in ids {
        if r.kind == "BUILD_DEPENDENCY_OF" {
          build := build + {ids[r.from]};
        }
        if r.kind == "TEST_DEPENDENCY_OF" {
          forTests := forTests + {ids[r.from]};
        }
        if r.kind == "RUNTIME_DEPENDENCY_OF" || r.kind == "DEPENDENCY_OF" {
          live := live + {ids[r.from]};
        }
      }
      if r.from == PRODUCT && r.to in ids && r.kind == "DEPENDS_ON" {
        live := live + {ids[r.to]};
      }
      i := i + 1;
    }
    assert relationships[..i] == relationships;
  }

  lemma NoRelationships(ids: map<string, string>)
    ensures EdgesOf(map[], [], ids) && Exposed([], ids, {}, {}, {})
  {
  }

  lemma ExposedSnoc(relationships: seq<Relationship>, r: Relationship, ids: map<string, string>)
    ensures forall n :: Related(relationships + [r], ids, n, BUILD_KINDS) <==>
              Related(relationships, ids, n, BUILD_KINDS) || IsRelated(r, ids, n, BUILD_KINDS)
    ensures forall n :: Related(relationships + [r], ids, n, TEST_KINDS) <==>
              Related(relationships, ids, n, TEST_KINDS) || IsRelated(r, ids, n, TEST_KINDS)
    ensures forall n :: Runtime(relationships + [r], ids, n) <==>
              || Runtime(relationships, ids, n)
              || IsRelated(r, ids, n, LIVE_KINDS) || IsUsed(r, ids, n)
  {
    hide Related, Runtime, IsRelated, IsUsed;
    forall n ensures Related(relationships + [r], ids, n, BUILD_KINDS) <==>
                       Related(relationships, ids, n, BUILD_KINDS) || IsRelated(r, ids, n, BUILD_KINDS)
    {
      RelatedSnoc(relationships, r, ids, n, BUILD_KINDS);
    }
    forall n ensures Related(relationships + [r], ids, n, TEST_KINDS) <==>
                       Related(relationships, ids, n, TEST_KINDS) || IsRelated(r, ids, n, TEST_KINDS)
    {
      RelatedSnoc(relationships, r, ids, n, TEST_KINDS);
    }
    forall n ensures Runtime(relationships + [r], ids, n) <==>
                       Runtime(relationships, ids, n) || IsRelated(r, ids, n, LIVE_KINDS) || IsUsed(r, ids, n)
    {
      RuntimeSnoc(relationships, r, ids, n);
    }
  }

  // ---------------------------------------------------------------- classification

  /** Exposure by precedence: runtime, then build, then test. */
  ghost function Classified(m: Module, relationships: seq<Relationship>, ids: map<string, string>): Module {
    if Runtime(relationships, ids, m.name) then m.(exposure := "RUNTIME")
    else if Related(relationships, ids, m.name, BUILD_KINDS) then m.(exposure := "BUILD")
    else if Related(relationships, ids, m.name, TEST_KINDS) then m.(exposure := "TEST")
    else m
  }

  function Directs(modules: map<string, Module>): set<string> {
    set n | n in modules && modules[n].dependency == "DIRECT"
  }

  /** The go.mod markers agree with the graph: indirect modules are needed by direct ones, direct ones by none. */
  ghost predicate Agrees(m: Module, edges: Edges, roots: set<string>) {
    && (m.dependency == "INDIRECT" ==> FromRoots(edges, roots, m.name))
    && (m.dependency == "DIRECT" ==> !FromRoots(edges, roots, m.name))
  }

  // ---------------------------------------------------------------- the same on packages and relationships

  /** Each module has one package, of its version and under an id of its own. */
  ghost predicate OneToOne(packages: seq<Package>, modules: map<string, Module>) {
    && modules != map[]
    && (forall n :: n in modules ==> exists p :: p in packages && p.name == n && p.version == modules[n].version)
    && (forall k, l :: 0 <= k < l < |packages| && packages[k].name in modules && packages[l].name in modules ==>
          packages[k].id != packages[l].id && packages[k].name != packages[l].name)
  }

  lemma OneToOneIs(packages: seq<Package>, modules: map<string, Module>)
    ensures Identified(packages, modules) <==> OneToOne(packages, modules)
  {
    if OneToOne(packages, modules) {
      forall k | 0 <= k < |packages| && packages[k].name in modules
        ensures modules[packages[k].name].version == packages[k].version
      {
        var p :| p in packages && p.name == packages[k].name && p.version == modules[packages[k].name].version;
        var l :| 0 <= l < |packages| && packages[l] == p;
        assert l < k || k < l || k == l;
      }
    }
  }

  /** The id stands for the module of this name. */
  ghost predicate StandsFor(packages: seq<Package>, modules: map<string, Module>, id: string, n: string) {
    n in modules && exists p :: p in packages && p.id == id && p.name == n
  }

  lemma TableStands(ids: map<string, string>, packages: seq<Package>, modules: map<string, Module>)
    requires IdTable(ids, packages, modules) && Identified(packages, modules)
    ensures forall id, n :: StandsFor(packages, modules, id, n) <==> id in ids && ids[id] == n
  {
    forall id, n ensures StandsFor(packages, modules, id, n) <==> id in ids && ids[id] == n {
      if StandsFor(packages, modules, id, n) {
        var p :| p in packages && p.id == id && p.name == n;
        var k :| 0 <= k < |packages| && packages[k] == p;
      }
      if id in ids && ids[id] == n {
        assert Backs(ids, packages, modules, id);
      }
    }
  }

  ghost predicate DependsOn(packages: seq<Package>, modules: map<string, Module>, relationships: seq<Relationship>,
                            a: string, b: string) {
    exists r :: r in relationships && r.kind == "DEPENDS_ON" && StandsFor(packages, modules, r.from, a)
                && StandsFor(packages, modules, r.to, b)
  }

  /** A chain of declared dependencies. */
  ghost predicate Chain(packages: seq<Package>, modules: map<string, Module>, relationships: seq<Relationship>,
                        p: seq<string>) {
    |p| >= 2 && forall k :: 0 <= k < |p| - 1 ==> DependsOn(packages, modules, relationships, p[k], p[k + 1])
  }

  /** Some DIRECT module depends on it, through however many others. */
  ghost predicate Needed(packages: seq<Package>, modules: map<string, Module>, relationships: seq<Relationship>, n: string) {
    exists p :: Chain(packages, modules, relationships, p) && p[0] in modules && modules[p[0]].dependency == "DIRECT"
                && p[|p| - 1] == n
  }

  ghost predicate DependencyOf(packages: seq<Package>, modules: map<string, Module>, relationships: seq<Relationship>,
                               n: string, kind: string) {
    exists r :: r in relationships && r.kind == kind && r.to == "SPDXRef-FlashGate" && StandsFor(packages, modules, r.from, n)
  }

  ghost predicate ProductDependsOn(packages: seq<Package>, modules: map<string, Module>,
                                   relationships: seq<Relationship>, n: string) {
    exists r :: r in relationships && r.kind == "DEPENDS_ON" && r.from == "SPDXRef-FlashGate"
                && StandsFor(packages, modules, r.to, n)
  }

  ghost function ExposureOf(packages: seq<Package>, modules: map<string, Module>, relationships: seq<Relationship>,
                            m: Module): string {
    if DependencyOf(packages, modules, relationships, m.name, "RUNTIME_DEPENDENCY_OF")
       || DependencyOf(packages, modules, relationships, m.name, "DEPENDENCY_OF")
       || ProductDependsOn(packages, modules, relationships, m.name) then "RUNTIME"
    else if DependencyOf(packages, modules, relationships, m.name, "BUILD_DEPENDENCY_OF") then "BUILD"
    else if DependencyOf(packages, modules, relationships, m.name, "TEST_DEPENDENCY_OF") then "TEST"
    else m.exposure
  }

  lemma DependsIs(packages: seq<Package>, modules: map<string, Module>, relationships: seq<Relationship>,
                  ids: map<string, string>, edges: Edges, a: string, b: string)
    requires forall id, n :: StandsFor(packages, modules, id, n) <==> id in ids && ids[id] == n
    requires EdgesOf(edges, relationships, ids)
    ensures b in Children(edges, a) <==> DependsOn(packages, modules, relationships, a, b)
  {
    hide StandsFor, Children;
    if Declared(relationships, ids, a, b) {
      var k :| 0 <= k < |relationships| && Dependency(relationships[k], ids)
               && ids[relationships[k].from] == a && ids[relationships[k].to] == b;
      assert relationships[k] in relationships;
    }
    if r :| r in relationships && r.kind == "DEPENDS_ON" && StandsFor(packages, modules, r.from, a)
            && StandsFor(packages, modules, r.to, b) {
      var k :| 0 <= k < |relationships| && relationships[k] == r;
      assert Dependency(relationships[k], ids);
    }
  }

  lemma NeededIs(packages: seq<Package>, modules: map<string, Module>, relationships: seq<Relationship>,
                 ids: map<string, string>, edges: Edges, n: string)
    requires forall id, n :: StandsFor(packages, modules, id, n) <==> id in ids && ids[id] == n
    requires EdgesOf(edges, relationships, ids)
    ensures FromRoots(edges, Directs(modules), n) <==> Needed(packages, modules, relationships, n)
  {
    hide StandsFor, DependsOn, Children, EdgesOf;
    forall a, b ensures b in Children(edges, a) <==> DependsOn(packages, modules, relationships, a, b) {
      DependsIs(packages, modules, relationships, ids, edges, a, b);
    }
    if FromRoots(edges, Directs(modules), n) {
      var a :| a in Directs(modules) && Reaches(edges, a, n);
      var p: seq<string> :| |p| >= 2 && p[0] == a && p[|p| - 1] == n && Walk(edges, p);
      assert Chain(packages, modules, relationships, p);
    }
    if p :| Chain(packages, modules, relationships, p) && p[0] in modules && modules[p[0]].dependency == "DIRECT"
            && p[|p| - 1] == n {
      assert Walk(edges, p);
      assert Reaches(edges, p[0], n) && p[0] in Directs(modules);
    }
  }

  lemma RelatedIs(packages: seq<Package>, modules: map<string, Module>, relationships: seq<Relationship>,
                  ids: map<string, string>, n: string, kinds: set<string>)
    requires forall id, n :: StandsFor(packages, modules, id, n) <==> id in ids && ids[id] == n
    ensures Related(relationships, ids, n, kinds) <==>
              exists kind :: kind in kinds && DependencyOf(packages, modules, relationships, n, kind)
  {
    hide StandsFor;
    if k :| 0 <= k < |relationships| && relationships[k].to == PRODUCT && relationships[k].kind in kinds
            && relationships[k].from in ids && ids[relationships[k].from] == n {
      assert relationships[k] in relationships;
      assert DependencyOf(packages, modules, relationships, n, relationships[k].kind);
    }
    if kind :| kind in kinds && DependencyOf(packages, modules, relationships, n, kind) {
      var r :| r in relationships && r.kind == kind && r.to == PRODUCT && StandsFor(packages, modules, r.from, n);
      var k :| 0 <= k < |relationships| && relationships[k] == r;
    }
  }

  lemma ProductIs(packages: seq<Package>, modules: map<string, Module>, relationships: seq<Relationship>,
                  ids: map<string, string>, n: string)
    requires forall id, n :: StandsFor(packages, modules, id, n) <==> id in ids && ids[id] == n
    ensures (exists k :: 0 <= k < |relationships| && relationships[k].from == PRODUCT && relationships[k].kind == "DEPENDS_ON"
                         && relationships[k].to in ids && ids[relationships[k].to] == n)
            <==> ProductDependsOn(packages, modules, relationships, n)
  {
    hide StandsFor;
    if k :| 0 <= k < |relationships| && relationships[k].from == PRODUCT && relationships[k].kind == "DEPENDS_ON"
            && relationships[k].to in ids && ids[relationships[k].to] == n {
      assert relationships[k] in relationships;
    }
    if r :| r in relationships && r.kind == "DEPENDS_ON" && r.from == PRODUCT && StandsFor(packages, modules, r.to, n) {
      var k :| 0 <= k < |relationships| && relationships[k] == r;
    }
  }

  /** The exposure read off the relationships is the one the loop assigns. */
  lemma ClassifiedIs(packages: seq<Package>, modules: map<string, Module>, relationships: seq<Relationship>,
                     ids: map<string, string>, m: Module)
    requires forall id, n :: StandsFor(packages, modules, id, n) <==> id in ids && ids[id] == n
    ensures Classified(m, relationships, ids) == m.(exposure := ExposureOf(packages, modules, relationships, m))
  {
    hide StandsFor, Related, DependencyOf, ProductDependsOn;
    RelatedIs(packages, modules, relationships, ids, m.name, LIVE_KINDS);
    RelatedIs(packages, modules, relationships, ids, m.name, BUILD_KINDS);
    RelatedIs(packages, modules, relationships, ids, m.name, TEST_KINDS);
    ProductIs(packages, modules, relationships, ids, m.name);
  }

  function ModuleKey(m: Module): string {
    m.name
  }

  /**
   classifySecurityModules after the go.mod lines have been read: modules are its requirements by name.
   The order in which the maps are walked has no influence on the result.
   */
  method ClassifySecurityModules(modules: map<string, Module>, packages: seq<Package>, relationships: seq<Relationship>)
    returns (ok: bool, result: seq<Module>)
    requires forall n :: n in modules ==> modules[n].name == n
    ensures ok <==> && OneToOne(packages, modules)
                    && forall n :: n in modules ==>
                         && (modules[n].dependency == "INDIRECT" ==> Needed(packages, modules, relationships, n))
                         && (modules[n].dependency == "DIRECT" ==> !Needed(packages, modules, relationships, n))
    ensures ok ==> |result| == |modules| && forall i, j :: 0 <= i < j < |result| ==> Less(result[i].name, result[j].name)
    ensures ok ==> forall m :: m in result <==>
                     exists n :: n in modules && m == modules[n].(exposure := ExposureOf(packages, modules, relationships, modules[n]))
  {
    ghost var ids, edges;
    ok, result, ids, edges := ClassifyModules(modules, packages, relationships);
    hide Identified, IdTable, EdgesOf, OneToOne, StandsFor, ExposureOf, Classified, FromRoots, Needed;
    OneToOneIs(packages, modules);
    if Identified(packages, modules) {
      TableStands(ids, packages, modules);
      forall n ensures FromRoots(edges, Directs(modules), n) <==> Needed(packages, modules, relationships, n) {
        NeededIs(packages, modules, relationships, ids, edges, n);
      }
      forall m ensures Classified(m, relationships, ids) == m.(exposure := ExposureOf(packages, modules, relationships, m)) {
        ClassifiedIs(packages, modules, relationships, ids, m);
      }
    }
  }

  /** The same with the id table and the edges it works on. */
  method ClassifyModules(modules: map<string, Module>, packages: seq<Package>, relationships: seq<Relationship>)
    returns (ok: bool, result: seq<Module>, ghost ids: map<string, string>, ghost edges: Edges)
    requires forall n :: n in modules ==> modules[n].name == n
    ensures Identified(packages, modules) ==> IdTable(ids, packages, modules) && EdgesOf(edges, relationships, ids)
    ensures ok <==> && Identified(packages, modules)
                    && forall n :: n in modules ==> Agrees(modules[n], edges, Directs(modules))
    ensures ok ==> Sorting.AscendingBy(ModuleKey, result) && |result| == |modules|
    ensures ok ==> forall m :: m in result <==> exists n :: n in modules && m == Classified(modules[n], relationships, ids)
  {
    hide Identified, IdTable, EdgesOf, Related, Runtime, FromRoots;
    result, ids, edges := [], map[], map[];
    var bound, table := BindIds(packages, modules);
    if !bound {
      return false, result, ids, edges;
    }
    ids := table;
    var graph, build, forTests, live := ReadRelationships(relationships, table);
    edges := graph;
    var closure := new Closure(graph);
    closure.VisitAll(Directs(modules));
    var left := modules.Keys;
    while left != {}
      invariant left <= modules.Keys
      invariant |result| + |left| == |modules| && Sorting.DistinctBy(ModuleKey, result)
      invariant forall n :: n in modules.Keys - left ==> Agrees(modules[n], graph, Directs(modules))
      invariant forall m :: m in result ==>
                  m.name in modules.Keys - left && m == Classified(modules[m.name], relationships, table)
      invariant forall n :: n in modules.Keys - left ==> Classified(modules[n], relationships, table) in result
      decreases |left|
    {
      var name :| name in left;
      var m := modules[name];
      if (m.dependency == "INDIRECT" && name !in closure.reached) || (m.dependency == "DIRECT" && name in closure.reached) {
        assert !Agrees(modules[name], graph, Directs(modules));
        return false, result, ids, edges;
      }
      if name in live {
        m := m.(exposure := "RUNTIME");
      } else if name in build {
        m := m.(exposure := "BUILD");
      } else if name in forTests {
        m := m.(exposure := "TEST");
      }
      assert m == Classified(modules[name], relationships, table);
      left := left - {name};
      result := result + [m];
    }
    Sorting.SortAscends(ModuleKey, result);
    result := Sorting.SortBy(ModuleKey, result);
    ok := true;
  }
}
