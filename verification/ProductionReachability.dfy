/** Production modules that no entry point reaches. */
module ProductionReachability {
  import opened Results
  import opened Sorting
  import opened Graphs
  import opened DottedNames

  datatype FileName = Init | Main | Plain
  /** The parts of a syntax tree that make an edge; the base of a from-import is already resolved. */
  datatype AstNode = Import(names: seq<string>) | ImportFrom(base: Option<string>, imported: seq<string>)
                   | Text(value: string) | OtherNode
  datatype File = File(name: FileName, nodes: seq<AstNode>)

  const ENTRY_MODULES: set<string> := {"sol_execbench", "sol_execbench.cli.main",
                                       "sol_execbench.core.bench.clock_recovery", "solar", "solar.api"}
  const DYNAMIC_PACKAGE_ROOTS: set<string> := {"solar.ir.extended_einsum.operations.handlers",
                                               "sol_execbench.driver.templates"}

  function Member(base: string, name: string): string {
    base + "." + name
  }

  ghost predicate Mentions(node: AstNode, m: string) {
    match node
    case Import(names) => m in names
    case ImportFrom(base, imported) =>
      base.Some?
      && (m == base.value
          || (base.value != "" && exists k :: 0 <= k < |imported| && m == Member(base.value, imported[k])))
    case Text(value) => m == value
    case OtherNode => false
  }

  /** `p` is a package that contains `m`. */
  ghost predicate IsAncestor(p: string, m: string) {
    exists k :: 1 <= k < |Split(m)| && p == Join(Split(m)[..k])
  }

  ghost predicate MentionedIn(nodes: seq<AstNode>, m: string) {
    exists k :: 0 <= k < |nodes| && Mentions(nodes[k], m)
  }

  /** What `name` refers to: modules mentioned in its syntax tree, and its own packages. */
  ghost predicate IsEdge(name: string, nodes: seq<AstNode>, modules: set<string>, m: string) {
    m in modules && (MentionedIn(nodes, m) || IsAncestor(m, name))
  }

  method NodeEdges(node: AstNode, modules: set<string>) returns (edges: set<string>)
    ensures forall m :: m in edges <==> m in modules && Mentions(node, m)
  {
    match node
    case Import(names) =>
      edges := set m | m in names && m in modules;
    case ImportFrom(base, imported) =>
      edges := {};
      if base.Some? && base.value in modules {
        edges := {base.value};
      }
      if base.Some? && base.value != "" {
        for k := 0 to |imported|
          invariant forall m :: m in edges <==> m in modules
                                                && (m == base.value
                                                    || exists j :: 0 <= j < k && m == Member(base.value, imported[j]))
        {
          if Member(base.value, imported[k]) in modules {
            edges := edges + {Member(base.value, imported[k])};
          }
        }
      }
    case Text(value) =>
      edges := if value in modules then {value} else {};
    case OtherNode =>
      edges := {};
  }

  method Edges(name: string, nodes: seq<AstNode>, modules: set<string>) returns (edges: set<string>)
    ensures forall m :: m in edges <==> IsEdge(name, nodes, modules, m)
  {
    edges := {};
    for i := 0 to |nodes|
      invariant forall m :: m in edges <==> m in modules && exists k :: 0 <= k < i && Mentions(nodes[k], m)
    {
      var found := NodeEdges(nodes[i], modules);
      edges := edges + found;
    }
    assert forall m :: m in edges <==> m in modules && MentionedIn(nodes, m);
    var parts := Split(name);
    ghost var mentioned := edges;
    for index := 1 to |parts|
      invariant forall m :: m in edges <==>
                  m in mentioned || (m in modules && exists k :: 1 <= k < index && m == Join(parts[..k]))
    {
      if Join(parts[..index]) in modules {
        edges := edges + {Join(parts[..index])};
      }
    }
  }

  ghost predicate IsUnder(m: string, package: string) {
    m == package || (package + ".") <= m
  }

  ghost predicate IsRoot(files: map<string, File>, toolRoots: set<string>, m: string) {
    && m in files
    && (m in ENTRY_MODULES || m in toolRoots || files[m].name == Main
        || exists p :: p in DYNAMIC_PACKAGE_ROOTS && IsUnder(m, p))
  }

  ghost function ModuleGraph(files: map<string, File>): (g: Graph<string>)
    ensures g.Keys == files.Keys
    ensures forall m, n :: m in g ==> (n in g[m] <==> IsEdge(m, files[m].nodes, files.Keys, n))
  {
    map m | m in files :: set n | n in files && IsEdge(m, files[m].nodes, files.Keys, n)
  }

  ghost predicate Reached(files: map<string, File>, toolRoots: set<string>, m: string) {
    exists r :: IsRoot(files, toolRoots, r) && Reach(ModuleGraph(files), r, m)
  }

  method Roots(files: map<string, File>, toolRoots: set<string>) returns (roots: set<string>)
    ensures forall m :: m in roots <==> IsRoot(files, toolRoots, m)
  {
    roots := set m | m in files && (m in ENTRY_MODULES || m in toolRoots || files[m].name == Main
                                    || exists p :: p in DYNAMIC_PACKAGE_ROOTS && (m == p || (p + ".") <= m));
  }

  method BuildGraph(files: map<string, File>) returns (g: Graph<string>)
    ensures g == ModuleGraph(files)
  {
    g := map[];
    var rest := files.Keys;
    while rest != {}
      invariant rest <= files.Keys && g.Keys == files.Keys - rest
      invariant forall m, n :: m in g ==> (n in g[m] <==> IsEdge(m, files[m].nodes, files.Keys, n))
      decreases rest
    {
      var m :| m in rest;
      var edges := Edges(m, files[m].nodes, files.Keys);
      g, rest := g[m := edges], rest - {m};
    }
    SameGraph(g, ModuleGraph(files), files);
  }

  lemma SameGraph(g: Graph<string>, h: Graph<string>, files: map<string, File>)
    requires g.Keys == h.Keys == files.Keys
    requires forall m, n :: m in g ==> (n in g[m] <==> IsEdge(m, files[m].nodes, files.Keys, n))
    requires forall m, n :: m in h ==> (n in h[m] <==> IsEdge(m, files[m].nodes, files.Keys, n))
    ensures g == h
  {
    forall m | m in g ensures g[m] == h[m] {
    }
  }

  /** Python's `sorted` on a set of names. */
  method SortedNames(names: set<string>) returns (r: seq<string>)
    ensures Sorted(StringLeq(), r) && Distinct(r) && forall n :: n in r <==> n in names
  {
    hide TotalOrder;
    StringOrder();
    var listed := Elements(names);
    r := Sort(StringLeq(), listed);
    SameMultiset(listed, r);
    assert forall n :: n in listed <==> n in SetOf(listed);
  }

  /** Worklist closure from the roots; `queue` may hold a module many times. */
  method Closure(graph: Graph<string>, roots: set<string>) returns (reached: set<string>)
    requires ClosedGraph(graph) && roots <= graph.Keys
    ensures forall m :: m in reached <==> exists r :: r in roots && Reach(graph, r, m)
  {
    hide Frontier;
    var queue := SortedNames(roots);
    reached := {};
    Start(graph, roots, queue);
    while queue != []
      invariant Frontier(graph, roots, reached, queue)
      decreases graph.Keys - reached, |queue|
    {
      var m := queue[0];
      Next(graph, roots, reached, queue);
      if m in reached {
        queue := queue[1..];
        continue;
      }
      var unseen := SortedNames(graph[m] - (reached + {m}));
      Expand(graph, roots, reached, queue, unseen);
      reached, queue := reached + {m}, queue[1..] + unseen;
    }
    Complete(graph, roots, reached);
  }

  ghost predicate Frontier(graph: Graph<string>, roots: set<string>, reached: set<string>, queue: seq<string>) {
    && reached <= graph.Keys
    && (forall m :: m in queue ==> m in graph)
    && (forall m :: m in roots ==> m in reached || m in queue)
    && (forall m, n :: m in reached && n in graph[m] ==> n in reached || n in queue)
    && (forall m :: m in reached || m in queue ==> FromRoot(graph, roots, m))
  }

  ghost predicate FromRoot(graph: Graph<string>, roots: set<string>, m: string) {
    exists r :: r in roots && Reach(graph, r, m)
  }

  lemma Start(graph: Graph<string>, roots: set<string>, queue: seq<string>)
    requires roots <= graph.Keys && forall m :: m in queue <==> m in roots
    ensures Frontier(graph, roots, {}, queue)
  {
    forall m | m in roots ensures FromRoot(graph, roots, m) { ReachRefl(graph, m); }
  }

  lemma Next(graph: Graph<string>, roots: set<string>, reached: set<string>, queue: seq<string>)
    requires Frontier(graph, roots, reached, queue) && queue != []
    ensures queue[0] in graph && reached <= graph.Keys
    ensures queue[0] in reached ==> Frontier(graph, roots, reached, queue[1..])
  {
    assert forall m :: m in queue <==> m == queue[0] || m in queue[1..];
  }

  lemma Expand(graph: Graph<string>, roots: set<string>, reached: set<string>, queue: seq<string>, unseen: seq<string>)
    requires ClosedGraph(graph) && Frontier(graph, roots, reached, queue) && queue != [] && queue[0] in graph
    requires forall n :: n in unseen <==> n in graph[queue[0]] && n !in reached && n != queue[0]
    ensures Frontier(graph, roots, reached + {queue[0]}, queue[1..] + unseen)
  {
    var m := queue[0];
    assert forall n :: n in queue <==> n == m || n in queue[1..];
    forall n | n in unseen ensures FromRoot(graph, roots, n) {
      assert FromRoot(graph, roots, m);
      var r :| r in roots && Reach(graph, r, m);
      ReachEdge(graph, m, n);
      ReachTrans(graph, r, m, n);
    }
  }

  /** With nothing left to look at, the reached set is closed, so it holds all that is reachable. */
  lemma Complete(graph: Graph<string>, roots: set<string>, reached: set<string>)
    requires Frontier(graph, roots, reached, [])
    ensures forall m :: m in reached <==> exists r :: r in roots && Reach(graph, r, m)
  {
    forall m ensures m in reached <==> FromRoot(graph, roots, m) {
      if FromRoot(graph, roots, m) {
        var r :| r in roots && Reach(graph, r, m);
        StaysInside(graph, reached, r, m);
      }
    }
  }

  /** A set closed under edges holds everything reachable from its members: reachability is
      the least closed set. */
  lemma StaysInside(graph: Graph<string>, closed: set<string>, r: string, m: string)
    requires forall a, b {:trigger b in graph[a]} :: a in closed && a in graph && b in graph[a] ==> b in closed
    requires r in closed && Reach(graph, r, m)
    ensures m in closed
  {
    var p :| PathFrom(graph, r, p, m);
    PathStaysInside(graph, closed, r, p, m);
  }

  lemma {:induction false} PathStaysInside(graph: Graph<string>, closed: set<string>, r: string, p: seq<string>,
                                           m: string)
    requires forall a, b {:trigger b in graph[a]} :: a in closed && a in graph && b in graph[a] ==> b in closed
    requires r in closed && PathFrom(graph, r, p, m)
    ensures m in closed
    decreases |p|
  {
    if |p| > 1 {
      PathTail(graph, r, p, m);
      PathStaysInside(graph, closed, p[1], p[1..], m);
    }
  }

  /** Bundled modules with no path from a production entry, sorted; package files are not reported. */
  method UnreachableModules(files: map<string, File>, toolRoots: set<string>) returns (r: seq<string>)
    ensures Sorted(StringLeq(), r) && Distinct(r)
    ensures forall m :: m in r <==> m in files && files[m].name != Init && !Reached(files, toolRoots, m)
  {
    var roots := Roots(files, toolRoots);
    var graph := BuildGraph(files);
    var reached := Closure(graph, roots);
    r := SortedNames(set m | m in files && m !in reached && files[m].name != Init);
  }

  /** Every bundled package around a reached module is reached. */
  lemma AncestorsReached(files: map<string, File>, toolRoots: set<string>, m: string, p: string)
    requires Reached(files, toolRoots, m) && m in files && p in files && IsAncestor(p, m)
    ensures Reached(files, toolRoots, p)
  {
    var g := ModuleGraph(files);
    var r :| IsRoot(files, toolRoots, r) && Reach(g, r, m);
    assert IsEdge(m, files[m].nodes, files.Keys, p);
    ReachEdge(g, m, p);
    ReachTrans(g, r, m, p);
  }

  /** The reached modules are within every set that holds the roots and is closed under edges. */
  lemma ReachedIsLeast(files: map<string, File>, toolRoots: set<string>, closed: set<string>, m: string)
    requires forall r :: IsRoot(files, toolRoots, r) ==> r in closed
    requires forall a, b {:trigger b in ModuleGraph(files)[a]} ::
               a in closed && a in files && b in ModuleGraph(files)[a] ==> b in closed
    requires Reached(files, toolRoots, m)
    ensures m in closed
  {
    var r :| IsRoot(files, toolRoots, r) && Reach(ModuleGraph(files), r, m);
    StaysInside(ModuleGraph(files), closed, r, m);
  }

  /** What makes a bundled module reached: it is an entry, a tool root, a main file or in a dynamic package; or some
      reached module names it in an import, as the base or a member of a from-import or as a literal, or lies in it. */
  lemma ReachedExactly(files: map<string, File>, toolRoots: set<string>, m: string)
    ensures Reached(files, toolRoots, m) <==>
              && m in files
              && (|| m in ENTRY_MODULES || m in toolRoots || files[m].name == Main
                  || (exists p :: p in DYNAMIC_PACKAGE_ROOTS && (m == p || p + "." <= m))
                  || exists n :: n in files && Reached(files, toolRoots, n) && Names(n, files[n].nodes, m))
  {
    hide IsEdge, Reached, IsRoot;
    RootMeans(files, toolRoots, m);
    if Reached(files, toolRoots, m) { ReachedFrom(files, toolRoots, m); }
    if n :| m in files && n in files && Reached(files, toolRoots, n) && Names(n, files[n].nodes, m) {
      NamesMeans(n, files[n].nodes, files.Keys, m);
      EdgeReached(files, toolRoots, n, m);
    }
    if IsRoot(files, toolRoots, m) { RootReached(files, toolRoots, m); }
  }

  /** Module `n` names `m` somewhere, or lies in the package `m`. */
  ghost predicate Names(n: string, nodes: seq<AstNode>, m: string) {
    || m + "." <= n
    || exists node :: node in nodes && match node
         case Import(names) => m in names
         case ImportFrom(None, _) => false
         case ImportFrom(Some(base), imported) =>
           m == base || (base != "" && exists name :: name in imported && m == base + "." + name)
         case Text(value) => m == value
         case OtherNode => false
  }

  lemma NamesMeans(n: string, nodes: seq<AstNode>, modules: set<string>, m: string)
    ensures IsEdge(n, nodes, modules, m) <==> m in modules && Names(n, nodes, m)
  {
    PrefixIsPackage(m, n);
    forall node: AstNode ensures node in nodes <==> exists k :: 0 <= k < |nodes| && nodes[k] == node { }
    if node :| node in nodes && Mentions(node, m) {
      var k :| 0 <= k < |nodes| && nodes[k] == node;
      assert Mentions(nodes[k], m);
    }
  }

  lemma RootMeans(files: map<string, File>, toolRoots: set<string>, m: string)
    ensures IsRoot(files, toolRoots, m) <==>
              && m in files
              && (m in ENTRY_MODULES || m in toolRoots || files[m].name == Main
                  || exists p :: p in DYNAMIC_PACKAGE_ROOTS && (m == p || p + "." <= m))
  {
  }

  lemma RootReached(files: map<string, File>, toolRoots: set<string>, m: string)
    requires IsRoot(files, toolRoots, m)
    ensures Reached(files, toolRoots, m)
  {
    ReachRefl(ModuleGraph(files), m);
  }

  lemma EdgeReached(files: map<string, File>, toolRoots: set<string>, n: string, m: string)
    requires n in files && Reached(files, toolRoots, n) && IsEdge(n, files[n].nodes, files.Keys, m) && m in files
    ensures Reached(files, toolRoots, m)
  {
    var g := ModuleGraph(files);
    var r :| IsRoot(files, toolRoots, r) && Reach(g, r, n);
    ReachEdge(g, n, m);
    ReachTrans(g, r, n, m);
  }

  lemma ReachedFrom(files: map<string, File>, toolRoots: set<string>, m: string)
    requires Reached(files, toolRoots, m)
    ensures || IsRoot(files, toolRoots, m)
            || exists n :: n in files && Reached(files, toolRoots, n) && m in files && Names(n, files[n].nodes, m)
  {
    var g := ModuleGraph(files);
    var r :| IsRoot(files, toolRoots, r) && Reach(g, r, m);
    var p :| PathFrom(g, r, p, m);
    if |p| > 1 {
      var n := p[|p| - 2];
      assert PathFrom(g, r, p[..|p| - 1], n);
      NamesMeans(n, files[n].nodes, files.Keys, m);
    }
  }
}
