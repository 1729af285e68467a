/** Import cycles between modules, and the cycles that appear once modules are
    grouped by architectural domain. */
module Coupling {
  import opened Sorting
  import opened Graphs
  import opened DottedNames
  import opened Sets
  import Tarjan

  type Edges = set<(string, string)>

  function ArchitectureDomain(name: string): string {
    var parts := Split(name);
    if |parts| == 1 then
      parts[0] + ".root"
    else if parts[..2] == ["sol_execbench", "core"] then
      if |parts| >= 3 then Join(parts[..3]) else "sol_execbench.core.root"
    else
      Join(parts[..2])
  }

  /** How many leading parts name the domain. */
  ghost function Depth(parts: seq<string>): nat {
    if ["sol_execbench", "core"] <= parts then 3 else 2
  }

  /** The domain as parts: the leading ones, with `root` standing in for the package itself. */
  ghost function DomainParts(parts: seq<string>): seq<string>
    requires Plain(parts)
  {
    if |parts| < Depth(parts) then parts + ["root"] else parts[..Depth(parts)]
  }

  lemma JoinCons(x: string, rest: seq<string>)
    requires rest != []
    ensures Join([x] + rest) == x + "." + Join(rest)
  {
    assert ([x] + rest)[1..] == rest;
  }

  lemma DomainIsJoined(name: string)
    ensures ArchitectureDomain(name) == Join(DomainParts(Split(name)))
    ensures Plain(DomainParts(Split(name)))
  {
    var parts := Split(name);
    if |parts| == 1 {
      JoinCons(parts[0], ["root"]);
      assert parts + ["root"] == [parts[0]] + ["root"];
      assert ".root" == "." + "root";
    } else if parts[..2] == ["sol_execbench", "core"] {
      assert ["sol_execbench", "core"] <= parts;
      if |parts| == 2 { CoreRoot(parts); }
    } else {
      assert !(["sol_execbench", "core"] <= parts);
    }
  }

  lemma CoreRoot(parts: seq<string>)
    requires |parts| == 2 && parts[..2] == ["sol_execbench", "core"]
    ensures Join(parts + ["root"]) == "sol_execbench.core.root"
  {
    assert parts + ["root"] == ["sol_execbench"] + (["core"] + ["root"]);
    JoinCons("sol_execbench", ["core"] + ["root"]);
    JoinCons("core", ["root"]);
    assert "sol_execbench" + "." + ("core" + "." + "root") == "sol_execbench.core.root";
  }

  /** Two modules share a domain exactly when they agree on the parts that name it. */
  lemma SameDomain(a: seq<string>, b: seq<string>)
    requires Plain(a) && Plain(b)
    ensures ArchitectureDomain(Join(a)) == ArchitectureDomain(Join(b)) <==> DomainParts(a) == DomainParts(b)
  {
    SplitJoin(a);
    SplitJoin(b);
    DomainIsJoined(Join(a));
    DomainIsJoined(Join(b));
    SplitJoin(DomainParts(a));
    SplitJoin(DomainParts(b));
  }

  function Domains(modules: set<string>): set<string> {
    set m | m in modules :: ArchitectureDomain(m)
  }

  function DomainEdges(edges: Edges): Edges {
    set e | e in edges && ArchitectureDomain(e.0) != ArchitectureDomain(e.1)
      :: (ArchitectureDomain(e.0), ArchitectureDomain(e.1))
  }

  ghost function ModuleGraph(modules: set<string>, edges: Edges): (g: Graph<string>)
    ensures Tarjan.IsImportGraph(g, modules, edges) && ClosedGraph(g)
  {
    Tarjan.ImportGraph(modules, edges)
  }

  ghost function DomainGraph(modules: set<string>, edges: Edges): (g: Graph<string>)
    ensures Tarjan.IsImportGraph(g, Domains(modules), DomainEdges(edges)) && ClosedGraph(g)
  {
    Tarjan.ImportGraph(Domains(modules), DomainEdges(edges))
  }

  method ArchitectureDomainCycles(modules: set<string>, edges: Edges) returns (r: seq<seq<string>>)
    ensures Tarjan.ExactComponents(DomainGraph(modules, edges), StringLeq(), r)
  {
    StringOrder();
    r := Tarjan.StronglyConnectedComponents(Domains(modules), DomainEdges(edges), StringLeq());
  }

  method ModuleCycles(modules: set<string>, edges: Edges) returns (r: seq<seq<string>>)
    ensures Tarjan.ExactComponents(ModuleGraph(modules, edges), StringLeq(), r)
  {
    StringOrder();
    r := Tarjan.StronglyConnectedComponents(modules, edges, StringLeq());
  }

  // ----- what a domain cycle says about the modules

  /** The module graph in which one may also step to any module of the same domain. */
  ghost function Merged(g: Graph<string>): Graph<string> {
    map m | m in g :: g[m] + set n | n in g && ArchitectureDomain(n) == ArchitectureDomain(m)
  }

  lemma DomainStep(modules: set<string>, edges: Edges, a: string, b: string)
    requires a in ModuleGraph(modules, edges) && b in Merged(ModuleGraph(modules, edges))[a]
    ensures Reach(DomainGraph(modules, edges), ArchitectureDomain(a), ArchitectureDomain(b))
  {
    var dg := DomainGraph(modules, edges);
    var da, db := ArchitectureDomain(a), ArchitectureDomain(b);
    if da == db {
      ReachRefl(dg, da);
    } else {
      assert (a, b) in edges;
      assert (a, b).0 == a && (a, b).1 == b;
      assert (da, db) in DomainEdges(edges);
      assert Tarjan.IsEnd(DomainEdges(edges), da);
      ReachEdge(dg, da, db);
    }
  }

  lemma {:induction false} MergedToDomains(modules: set<string>, edges: Edges, a: string, p: seq<string>, b: string)
    requires PathFrom(Merged(ModuleGraph(modules, edges)), a, p, b)
    ensures Reach(DomainGraph(modules, edges), ArchitectureDomain(a), ArchitectureDomain(b))
    decreases |p|
  {
    var dg := DomainGraph(modules, edges);
    if |p| == 1 {
      ReachRefl(dg, ArchitectureDomain(a));
    } else {
      var c := p[1];
      PathTail(Merged(ModuleGraph(modules, edges)), a, p, b);
      DomainStep(modules, edges, a, c);
      MergedToDomains(modules, edges, c, p[1..], b);
      ReachTrans(dg, ArchitectureDomain(a), ArchitectureDomain(c), ArchitectureDomain(b));
    }
  }

  lemma {:induction false} DomainsToMerged(modules: set<string>, edges: Edges, a: string, p: seq<string>, b: string)
    requires a in ModuleGraph(modules, edges) && b in ModuleGraph(modules, edges)
    requires PathFrom(DomainGraph(modules, edges), ArchitectureDomain(a), p, ArchitectureDomain(b))
    ensures Reach(Merged(ModuleGraph(modules, edges)), a, b)
    decreases |p|
  {
    var g := ModuleGraph(modules, edges);
    if |p| == 1 {
      ReachEdge(Merged(g), a, b);
    } else {
      assert (p[0], p[1]) in DomainEdges(edges);
      var e :| e in edges && ArchitectureDomain(e.0) == p[0] && ArchitectureDomain(e.1) == p[1];
      assert Tarjan.IsEnd(edges, e.0) && Tarjan.IsEnd(edges, e.1);
      assert e == (e.0, e.1);
      ReachEdge(Merged(g), a, e.0);
      ReachEdge(Merged(g), e.0, e.1);
      PathTail(DomainGraph(modules, edges), p[0], p, ArchitectureDomain(b));
      DomainsToMerged(modules, edges, e.1, p[1..], b);
      ReachTrans(Merged(g), a, e.0, e.1);
      ReachTrans(Merged(g), a, e.1, b);
    }
  }

  /** One domain reaches another exactly when imports, with free steps inside a domain, lead there. */
  lemma DomainReach(modules: set<string>, edges: Edges, a: string, b: string)
    requires a in ModuleGraph(modules, edges) && b in ModuleGraph(modules, edges)
    ensures Reach(DomainGraph(modules, edges), ArchitectureDomain(a), ArchitectureDomain(b))
       <==> Reach(Merged(ModuleGraph(modules, edges)), a, b)
  {
    if Reach(DomainGraph(modules, edges), ArchitectureDomain(a), ArchitectureDomain(b)) {
      var p :| PathFrom(DomainGraph(modules, edges), ArchitectureDomain(a), p, ArchitectureDomain(b));
      DomainsToMerged(modules, edges, a, p, b);
    }
    if Reach(Merged(ModuleGraph(modules, edges)), a, b) {
      var p :| PathFrom(Merged(ModuleGraph(modules, edges)), a, p, b);
      MergedToDomains(modules, edges, a, p, b);
    }
  }

  ghost predicate Together(r: seq<seq<string>>, d: string, e: string) {
    exists i :: 0 <= i < |r| && d in r[i] && e in r[i]
  }

  lemma TogetherIffMutual(g: Graph<string>, r: seq<seq<string>>, d: string, e: string)
    requires Tarjan.ExactComponents(g, StringLeq(), r) && d in g && e in g && d != e
    ensures Together(r, d, e) <==> Mutual(g, d, e)
  {
    if Together(r, d, e) {
      var i :| 0 <= i < |r| && d in r[i] && e in r[i];
      SccMutual(g, SetOf(r[i]), d, e);
    }
    if Mutual(g, d, e) {
      var s := SccOf(g, d);
      SccMaximal(g, s, d, e);
      assert {d, e} <= s && |{d, e}| == 2;
      NoLarger({d, e}, s);
      var i :| 0 <= i < |r| && SetOf(r[i]) == s;
      assert d in SetOf(r[i]) && e in SetOf(r[i]);
    }
  }

  lemma DomainOfVertex(modules: set<string>, edges: Edges, a: string, b: string)
    requires a in ModuleGraph(modules, edges) && b in ModuleGraph(modules, edges)
    requires ArchitectureDomain(a) != ArchitectureDomain(b)
    requires Reach(DomainGraph(modules, edges), ArchitectureDomain(a), ArchitectureDomain(b))
    ensures ArchitectureDomain(a) in DomainGraph(modules, edges) && ArchitectureDomain(b) in DomainGraph(modules, edges)
  {
    var p :| PathFrom(DomainGraph(modules, edges), ArchitectureDomain(a), p, ArchitectureDomain(b));
    assert p[0] in DomainGraph(modules, edges);
    ReachStaysInGraph(DomainGraph(modules, edges), ArchitectureDomain(a), ArchitectureDomain(b));
  }

  /** Two modules' domains are reported in one cycle exactly when each module leads to the
      other by imports and free steps inside a domain. */
  lemma DomainCycleMeaning(modules: set<string>, edges: Edges, r: seq<seq<string>>, a: string, b: string)
    requires Tarjan.ExactComponents(DomainGraph(modules, edges), StringLeq(), r)
    requires a in ModuleGraph(modules, edges) && b in ModuleGraph(modules, edges)
    requires ArchitectureDomain(a) != ArchitectureDomain(b)
    ensures Together(r, ArchitectureDomain(a), ArchitectureDomain(b)) <==>
              Mutual(Merged(ModuleGraph(modules, edges)), a, b)
  {
    var dg := DomainGraph(modules, edges);
    var da, db := ArchitectureDomain(a), ArchitectureDomain(b);
    DomainReach(modules, edges, a, b);
    DomainReach(modules, edges, b, a);
    if Together(r, da, db) {
      var i :| 0 <= i < |r| && da in r[i] && db in r[i];
      SccMutual(dg, SetOf(r[i]), da, db);
    }
    if Mutual(dg, da, db) {
      DomainOfVertex(modules, edges, a, b);
      TogetherIffMutual(dg, r, da, db);
    }
  }

  lemma {:induction false} MergedKeepsPath(g: Graph<string>, a: string, p: seq<string>, b: string)
    requires PathFrom(g, a, p, b)
    ensures PathFrom(Merged(g), a, p, b)
  {
  }

  /** Grouping keeps cycles: every module cycle across domains lies in one reported domain cycle. */
  lemma ModuleCycleReported(modules: set<string>, edges: Edges, r: seq<seq<string>>, s: set<string>, a: string,
                            b: string)
    requires Tarjan.ExactComponents(DomainGraph(modules, edges), StringLeq(), r)
    requires IsScc(ModuleGraph(modules, edges), s) && a in s && b in s
    requires ArchitectureDomain(a) != ArchitectureDomain(b)
    ensures exists i :: 0 <= i < |r| && forall m :: m in s ==> ArchitectureDomain(m) in r[i]
  {
    var g := ModuleGraph(modules, edges);
    var dg := DomainGraph(modules, edges);
    forall m, n | m in s && n in s ensures Mutual(Merged(g), m, n) && m in g && n in g {
      SccMutual(g, s, m, n);
      var p :| PathFrom(g, m, p, n);
      var q :| PathFrom(g, n, q, m);
      MergedKeepsPath(g, m, p, n);
      MergedKeepsPath(g, n, q, m);
    }
    DomainCycleMeaning(modules, edges, r, a, b);
    var i :| 0 <= i < |r| && ArchitectureDomain(a) in r[i] && ArchitectureDomain(b) in r[i];
    forall m | m in s ensures ArchitectureDomain(m) in r[i] {
      if ArchitectureDomain(m) != ArchitectureDomain(a) {
        DomainCycleMeaning(modules, edges, r, a, m);
        var j :| 0 <= j < |r| && ArchitectureDomain(a) in r[j] && ArchitectureDomain(m) in r[j];
        SccEqual(dg, SetOf(r[i]), SetOf(r[j]), ArchitectureDomain(a));
        assert ArchitectureDomain(m) in SetOf(r[j]);
      }
    }
  }

  /** No reported domain cycle: every module component stays inside one domain. */
  lemma NoDomainCycle(modules: set<string>, edges: Edges, s: set<string>, a: string, b: string)
    requires Tarjan.ExactComponents(DomainGraph(modules, edges), StringLeq(), [])
    requires IsScc(ModuleGraph(modules, edges), s) && a in s && b in s
    ensures ArchitectureDomain(a) == ArchitectureDomain(b)
  {
    if ArchitectureDomain(a) != ArchitectureDomain(b) {
      ModuleCycleReported(modules, edges, [], s, a, b);
    }
  }

  lemma DomainOfThirdLevel(p: string, q: string, x: string)
    requires DotFree(p) && DotFree(q) && DotFree(x) && p != "sol_execbench"
    ensures ArchitectureDomain(Join([p, q, x])) == Join([p, q])
    ensures Split(Join([p, q])) == [p, q]
    ensures Split(Join([p, q, x])) == [p, q, x]
  {
    SplitJoin([p, q]);
    SplitJoin([p, q, x]);
    assert [p, q, x][..2] == [p, q];
  }

  ghost predicate OneWay(g: Graph<string>, sources: set<string>) {
    forall v, w {:trigger w in g[v]} :: v in g && w in g[v] ==> v in sources && w !in sources
  }

  lemma OneWayReach(g: Graph<string>, sources: set<string>, a: string, b: string)
    requires OneWay(g, sources)
    requires Reach(g, a, b) && a != b
    ensures a in sources && b !in sources
  {
    var p :| PathFrom(g, a, p, b);
    var i := |p| - 2;
    assert p[0] in g && p[0 + 1] in g[p[0]];
    assert p[i] in g && p[i + 1] in g[p[i]];
  }

  /** When every edge leads out of `sources`, nothing lies on a cycle. */
  lemma OneWayGraph(g: Graph<string>, sources: set<string>, a: string, b: string)
    requires OneWay(g, sources)
    requires Mutual(g, a, b)
    ensures a == b
  {
    if a != b {
      OneWayReach(g, sources, a, b);
      OneWayReach(g, sources, b, a);
    }
  }

  ghost predicate Crossed(m1: string, m2: string, n1: string, n2: string, d: string, e: string) {
    && ArchitectureDomain(m1) == ArchitectureDomain(m2) == d
    && ArchitectureDomain(n1) == ArchitectureDomain(n2) == e
    && d != e && m1 != m2 && n1 != n2
  }

  /** Two domains with one import each way, through different modules. */
  lemma CrossedDomains(m1: string, m2: string, n1: string, n2: string, d: string, e: string)
    requires Crossed(m1, m2, n1, n2, d, e)
    ensures Mutual(DomainGraph({m1, m2, n1, n2}, {(m1, n1), (n2, m2)}), d, e)
  {
    var modules: set<string>, edges: Edges := {m1, m2, n1, n2}, {(m1, n1), (n2, m2)};
    assert (m1, n1) in edges && (n2, m2) in edges;
    assert (d, e) in DomainEdges(edges) && (e, d) in DomainEdges(edges);
    var dg := DomainGraph(modules, edges);
    assert d in dg by { assert (d, e).0 == d; assert Tarjan.IsEnd(DomainEdges(edges), d); }
    assert e in dg by { assert (e, d).0 == e; assert Tarjan.IsEnd(DomainEdges(edges), e); }
    ReachEdge(dg, d, e);
    ReachEdge(dg, e, d);
  }

  lemma CrossedModules(m1: string, m2: string, n1: string, n2: string, d: string, e: string)
    requires Crossed(m1, m2, n1, n2, d, e)
    ensures forall a, b :: Mutual(ModuleGraph({m1, m2, n1, n2}, {(m1, n1), (n2, m2)}), a, b) ==> a == b
  {
    var g := ModuleGraph({m1, m2, n1, n2}, {(m1, n1), (n2, m2)});
    assert OneWay(g, {m1, n2});
    forall a, b | Mutual(g, a, b) ensures a == b {
      OneWayGraph(g, {m1, n2}, a, b);
    }
  }

  /** The converse fails: two domains can form a reported cycle while no two modules do. */
  lemma DomainCycleWithoutModuleCycle() returns (modules: set<string>, edges: Edges, d: string, e: string)
    ensures d != e && Mutual(DomainGraph(modules, edges), d, e)
    ensures forall a, b :: Mutual(ModuleGraph(modules, edges), a, b) ==> a == b
  {
    var m1, m2 := Join(["a", "d", "x"]), Join(["a", "d", "y"]);
    var n1, n2 := Join(["a", "e", "x"]), Join(["a", "e", "y"]);
    d, e := Join(["a", "d"]), Join(["a", "e"]);
    DomainOfThirdLevel("a", "d", "x");
    DomainOfThirdLevel("a", "d", "y");
    DomainOfThirdLevel("a", "e", "x");
    DomainOfThirdLevel("a", "e", "y");
    assert Split(d)[1] != Split(e)[1];
    assert Split(m1)[2] != Split(m2)[2] && Split(n1)[2] != Split(n2)[2];
    modules, edges := {m1, m2, n1, n2}, {(m1, n1), (n2, m2)};
    CrossedDomains(m1, m2, n1, n2, d, e);
    CrossedModules(m1, m2, n1, n2, d, e);
  }
}
