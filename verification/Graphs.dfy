/** Directed graphs as successor maps; reachability and strongly connected components. */
module Graphs {

  type Graph<V(==)> = map<V, set<V>>

  ghost predicate ClosedGraph<V(!new)>(g: Graph<V>) {
    forall x, y {:trigger y in g[x]} :: x in g && y in g[x] ==> y in g
  }

  ghost predicate IsPath<V>(g: Graph<V>, p: seq<V>) {
    && p != []
    && forall i :: 0 <= i < |p| - 1 ==> p[i] in g && p[i + 1] in g[p[i]]
  }

  ghost predicate PathFrom<V>(g: Graph<V>, x: V, p: seq<V>, y: V) {
    IsPath(g, p) && p[0] == x && p[|p| - 1] == y
  }

  ghost predicate Reach<V(!new)>(g: Graph<V>, x: V, y: V) {
    exists p: seq<V> :: PathFrom(g, x, p, y)
  }

  ghost predicate Mutual<V(!new)>(g: Graph<V>, x: V, y: V) {
    Reach(g, x, y) && Reach(g, y, x)
  }

  /** A strongly connected component: one full class of mutual reachability. */
  ghost predicate IsScc<V(!new)>(g: Graph<V>, s: set<V>) {
    exists x :: x in s && x in g && forall y :: y in s <==> y in g && Mutual(g, x, y)
  }

  lemma ReachRefl<V(!new)>(g: Graph<V>, x: V)
    ensures Reach(g, x, x)
  {
    assert PathFrom(g, x, [x], x);
  }

  lemma ReachEdge<V(!new)>(g: Graph<V>, x: V, y: V)
    requires x in g && y in g[x]
    ensures Reach(g, x, y)
  {
    assert PathFrom(g, x, [x, y], y);
  }

  lemma ReachTrans<V(!new)>(g: Graph<V>, x: V, y: V, z: V)
    requires Reach(g, x, y) && Reach(g, y, z)
    ensures Reach(g, x, z)
  {
    var p :| PathFrom(g, x, p, y);
    var q :| PathFrom(g, y, q, z);
    assert PathFrom(g, x, p + q[1..], z);
  }

  lemma PathTail<V>(g: Graph<V>, x: V, p: seq<V>, y: V)
    requires PathFrom(g, x, p, y) && |p| > 1
    ensures PathFrom(g, p[1], p[1..], y)
  {
  }

  /** Two members of one component reach each other. */
  lemma SccMutual<V(!new)>(g: Graph<V>, s: set<V>, a: V, b: V)
    requires IsScc(g, s) && a in s && b in s
    ensures Mutual(g, a, b) && a in g && b in g
  {
    var x :| x in s && x in g && forall y :: y in s <==> y in g && Mutual(g, x, y);
    ReachTrans(g, a, x, b);
    ReachTrans(g, b, x, a);
  }

  /** A component holds everything mutually reachable with one of its members. */
  lemma SccMaximal<V(!new)>(g: Graph<V>, s: set<V>, a: V, b: V)
    requires IsScc(g, s) && a in s && b in g && Mutual(g, a, b)
    ensures b in s
  {
    var x :| x in s && x in g && forall y :: y in s <==> y in g && Mutual(g, x, y);
    ReachTrans(g, x, a, b);
    ReachTrans(g, b, a, x);
  }

  lemma SccEqual<V(!new)>(g: Graph<V>, s: set<V>, t: set<V>, a: V)
    requires IsScc(g, s) && IsScc(g, t) && a in s && a in t
    ensures s == t
  {
    forall b ensures b in s <==> b in t {
      if b in s { SccMutual(g, s, a, b); SccMaximal(g, t, a, b); }
      if b in t { SccMutual(g, t, a, b); SccMaximal(g, s, a, b); }
    }
  }

  ghost function SccOf<V(!new)>(g: Graph<V>, x: V): (s: set<V>)
    requires x in g
    ensures IsScc(g, s) && x in s
  {
    ReachRefl(g, x);
    var s := set y | y in g && Mutual(g, x, y);
    s
  }

  lemma ReachStaysInGraph<V(!new)>(g: Graph<V>, x: V, y: V)
    requires ClosedGraph(g) && x in g && Reach(g, x, y)
    ensures y in g
  {
    var p :| PathFrom(g, x, p, y);
    if |p| > 1 { assert p[|p| - 2] in g; }
  }
}
