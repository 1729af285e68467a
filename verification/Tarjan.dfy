/** Tarjan's algorithm as the coupling check runs it: one shared counter, stack,
    on-stack set and lowlink table, and a recursive visit. */
module Tarjan {
  import opened Sorting
  import opened Graphs

  /** The part of the search state that the proof reasons about. `grays` are the
      vertices whose visit has begun and not ended. */
  datatype Env<V(==)> = Env(index: nat, onStack: set<V>, indices: map<V, nat>, grays: set<V>)

  /** Visited and already popped. */
  ghost predicate Popped<V>(e: Env<V>, v: V) {
    v in e.indices && v !in e.onStack
  }

  ghost predicate StackOk<V>(e: Env<V>) {
    && (forall v :: v in e.indices ==> e.indices[v] < e.index)
    && e.onStack <= e.indices.Keys
    && e.grays <= e.onStack
  }

  /** A finished vertex has no unvisited successor. */
  ghost predicate NoneMissed<V(!new)>(g: Graph<V>, e: Env<V>) {
    && e.indices.Keys <= g.Keys
    && (forall x, y {:trigger y in g[x]} :: x in e.indices && x !in e.grays && x in g && y in g[x] ==> y in e.indices)
  }

  /** An open vertex reaches everything above it on the stack. */
  ghost predicate OpenReach<V(!new)>(g: Graph<V>, e: Env<V>)
    requires StackOk(e)
  {
    forall x, y :: x in e.grays && y in e.onStack && e.indices[x] <= e.indices[y] ==> Reach(g, x, y)
  }

  ghost predicate ReachesOpen<V(!new)>(g: Graph<V>, e: Env<V>, y: V)
    requires StackOk(e) && y in e.onStack
  {
    exists x :: x in e.grays && e.indices[x] <= e.indices[y] && Reach(g, y, x)
  }

  /** Everything on the stack reaches an open vertex at or below it. */
  ghost predicate StackReach<V(!new)>(g: Graph<V>, e: Env<V>)
    requires StackOk(e)
  {
    forall y {:trigger ReachesOpen(g, e, y)} :: y in e.onStack ==> ReachesOpen(g, e, y)
  }

  /** Popped vertices leave with their whole component. */
  ghost predicate PoppedWhole<V(!new)>(g: Graph<V>, e: Env<V>) {
    forall x, y {:trigger Mutual(g, x, y)} :: Popped(e, x) && y in g && Mutual(g, x, y) ==> Popped(e, y)
  }

  ghost predicate WellFormed<V(!new)>(g: Graph<V>, e: Env<V>) {
    && StackOk(e)
    && NoneMissed(g, e)
    && OpenReach(g, e)
    && StackReach(g, e)
    && PoppedWhole(g, e)
  }

  /** `e` grew out of `e0` by visiting more vertices above its stack. */
  ghost predicate Grown<V>(e0: Env<V>, e: Env<V>) {
    && e0.index <= e.index
    && e0.onStack <= e.onStack
    && (forall v :: v in e0.indices ==> v in e.indices && e.indices[v] == e0.indices[v])
    && (forall v :: v in e.indices && v !in e0.indices ==> e0.index <= e.indices[v])
    && (forall v :: v in e0.indices && v in e.onStack ==> v in e0.onStack)
  }

  /** `low` bounds every index of `e0`'s stack to which `a` has an edge. */
  ghost predicate Bounds<V(!new)>(g: Graph<V>, e0: Env<V>, low: nat, a: V) {
    a in g ==> forall y :: y in g[a] && y in e0.onStack && y in e0.indices ==> low <= e0.indices[y]
  }

  /** `low` is the index of a stack vertex of `e0` that `x` reaches. */
  ghost predicate LowReached<V(!new)>(g: Graph<V>, e0: Env<V>, x: V, low: nat) {
    exists y :: y in e0.onStack && y in e0.indices && Reach(g, x, y) && low == e0.indices[y]
  }

  /** What one completed visit of `x` from `e0` to `e` leaves behind. */
  ghost predicate Visited<V(!new)>(g: Graph<V>, e0: Env<V>, e: Env<V>, x: V, low: nat) {
    && Grown(e0, e)
    && e.grays == e0.grays
    && x in e.indices && x !in e0.indices
    && low <= e.indices[x]
    && (x in e.onStack ==> LowReached(g, e0, x, low))
    && (x !in e.onStack ==> low == e.indices[x])
    && (forall a :: a in e.onStack && a !in e0.onStack ==> Bounds(g, e0, low, a))
  }

  ghost function Opened<V>(e0: Env<V>, x: V): Env<V> {
    Env(e0.index + 1, e0.onStack + {x}, e0.indices[x := e0.index], e0.grays + {x})
  }

  /** The state inside the visit of `x`, with the successors `rest` still to look at. */
  ghost predicate Exploring<V(!new)>(g: Graph<V>, e0: Env<V>, e: Env<V>, x: V, low: nat, rest: set<V>) {
    && WellFormed(g, e0) && WellFormed(g, e)
    && x in g && x !in e0.indices
    && (forall z :: z in e0.grays ==> Reach(g, z, x))
    && Grown(Opened(e0, x), e)
    && e.grays == e0.grays + {x}
    && rest <= g[x]
    && g[x] - rest <= e.indices.Keys
    && low <= e0.index
    && (low < e0.index ==> LowReached(g, e0, x, low))
    && (forall a :: a in e.onStack && a !in e0.onStack && a != x ==> Bounds(g, e0, low, a))
    && (forall t :: t in g[x] && t !in rest && t in e0.onStack ==> low <= e0.indices[t])
  }

  lemma OpenedReach<V(!new)>(g: Graph<V>, e0: Env<V>, x: V)
    requires StackOk(e0) && OpenReach(g, e0) && x !in e0.indices
    requires forall z :: z in e0.grays ==> Reach(g, z, x)
    ensures StackOk(Opened(e0, x)) && OpenReach(g, Opened(e0, x))
  {
    ReachRefl(g, x);
  }

  lemma OpenedStackReach<V(!new)>(g: Graph<V>, e0: Env<V>, x: V)
    requires StackOk(e0) && StackReach(g, e0) && x !in e0.indices && StackOk(Opened(e0, x))
    ensures StackReach(g, Opened(e0, x))
  {
    var e := Opened(e0, x);
    ReachRefl(g, x);
    forall y | y in e.onStack ensures ReachesOpen(g, e, y) {
      if y == x {
        assert x in e.grays && e.indices[x] <= e.indices[x];
      } else {
        assert ReachesOpen(g, e0, y);
        var z :| z in e0.grays && e0.indices[z] <= e0.indices[y] && Reach(g, y, z);
        assert z in e.grays && e.indices[z] <= e.indices[y];
      }
    }
  }

  lemma Open<V(!new)>(g: Graph<V>, e0: Env<V>, x: V)
    requires WellFormed(g, e0) && x in g && x !in e0.indices
    requires forall z :: z in e0.grays ==> Reach(g, z, x)
    ensures Exploring(g, e0, Opened(e0, x), x, e0.index, g[x])
  {
    var e := Opened(e0, x);
    OpenedReach(g, e0, x);
    OpenedStackReach(g, e0, x);
    assert forall v :: Popped(e, v) <==> Popped(e0, v);
    assert PoppedWhole(g, e);
    assert NoneMissed(g, e);
  }

  /** A successor was already visited: only an on-stack one lowers the link. */
  lemma SeeVisited<V(!new)>(g: Graph<V>, e0: Env<V>, e: Env<V>, x: V, low: nat, rest: set<V>, t: V)
    requires Exploring(g, e0, e, x, low, rest) && t in rest && t in e.indices
    ensures Exploring(g, e0, e, x, if t in e.onStack && e.indices[t] < low then e.indices[t] else low, rest - {t})
  {
    var low' := if t in e.onStack && e.indices[t] < low then e.indices[t] else low;
    ReachEdge(g, x, t);
    if low' < low {
      assert t in e0.onStack;
      assert LowReached(g, e0, x, low');
    }
  }

  /** A successor was visited just now, from `e` to `e'`. */
  lemma SeeNew<V(!new)>(g: Graph<V>, e0: Env<V>, e: Env<V>, x: V, low: nat, rest: set<V>, t: V, e': Env<V>, lowT: nat)
    requires Exploring(g, e0, e, x, low, rest) && t in rest && t !in e.indices
    requires WellFormed(g, e') && Visited(g, e, e', t, lowT)
    ensures Exploring(g, e0, e', x, if lowT < low then lowT else low, rest - {t})
  {
    var low' := if lowT < low then lowT else low;
    assert Grown(Opened(e0, x), e');
    ReachEdge(g, x, t);
    if lowT < low {
      assert t in e'.onStack;
      var y :| y in e.onStack && y in e.indices && Reach(g, t, y) && lowT == e.indices[y];
      ReachTrans(g, x, t, y);
      assert y in e0.onStack;
      assert LowReached(g, e0, x, lowT);
    }
    forall a | a in e'.onStack && a !in e0.onStack && a != x ensures Bounds(g, e0, low', a) {
      if a in e.onStack {
        assert Bounds(g, e0, low, a);
      } else {
        assert Bounds(g, e, lowT, a);
      }
    }
  }

  lemma StillReachesOpen<V(!new)>(g: Graph<V>, e0: Env<V>, e: Env<V>, x: V, low: nat, y: V)
    requires Exploring(g, e0, e, x, low, {}) && low < e0.index && y in e.onStack
    requires StackOk(e.(grays := e0.grays))
    ensures ReachesOpen(g, e.(grays := e0.grays), y)
  {
    var e2 := e.(grays := e0.grays);
    assert ReachesOpen(g, e, y);
    var z :| z in e.grays && e.indices[z] <= e.indices[y] && Reach(g, y, z);
    if z == x {
      var w :| w in e0.onStack && w in e0.indices && Reach(g, x, w) && low == e0.indices[w];
      assert ReachesOpen(g, e0, w);
      var z0 :| z0 in e0.grays && e0.indices[z0] <= e0.indices[w] && Reach(g, w, z0);
      ReachTrans(g, y, x, w);
      ReachTrans(g, y, w, z0);
      assert z0 in e2.grays && e2.indices[z0] <= e2.indices[y];
    } else {
      assert z in e2.grays;
    }
  }

  lemma FewerOpen<V(!new)>(g: Graph<V>, e: Env<V>, open: set<V>)
    requires WellFormed(g, e) && open <= e.grays
    ensures StackOk(e.(grays := open)) && OpenReach(g, e.(grays := open)) && PoppedWhole(g, e.(grays := open))
  {
    var e2 := e.(grays := open);
    forall a, b | Popped(e2, a) && b in g && Mutual(g, a, b) ensures Popped(e2, b) {
      assert Popped(e, a);
      assert Popped(e, b);
    }
  }

  lemma StillStackReach<V(!new)>(g: Graph<V>, e0: Env<V>, e: Env<V>, x: V, low: nat)
    requires Exploring(g, e0, e, x, low, {}) && low < e0.index
    requires StackOk(e.(grays := e0.grays))
    ensures StackReach(g, e.(grays := e0.grays))
  {
    forall y | y in e.onStack ensures ReachesOpen(g, e.(grays := e0.grays), y) {
      StillReachesOpen(g, e0, e, x, low, y);
    }
  }

  lemma StillWellFormed<V(!new)>(g: Graph<V>, e0: Env<V>, e: Env<V>, x: V, low: nat)
    requires Exploring(g, e0, e, x, low, {}) && low < e0.index
    ensures WellFormed(g, e.(grays := e0.grays))
  {
    FewerOpen(g, e, e0.grays);
    StillStackReach(g, e0, e, x, low);
  }

  /** The visit of `x` ends without a pop: `x` stays on the stack, finished. */
  lemma CloseOnStack<V(!new)>(g: Graph<V>, e0: Env<V>, e: Env<V>, x: V, low: nat)
    requires Exploring(g, e0, e, x, low, {}) && low < e0.index
    ensures WellFormed(g, e.(grays := e0.grays))
    ensures Visited(g, e0, e.(grays := e0.grays), x, low)
  {
    StillWellFormed(g, e0, e, x, low);
    var e2 := e.(grays := e0.grays);
    forall a | a in e2.onStack && a !in e0.onStack ensures Bounds(g, e0, low, a) {
      if a != x { assert Bounds(g, e0, low, a); }
    }
  }

  lemma OpenedStackMatches<V(!new)>(e0: Env<V>, x: V, stack: seq<V>)
    requires StackOk(e0) && StackMatches(stack, e0) && x !in e0.indices
    ensures StackOk(Opened(e0, x)) && StackMatches(stack + [x], Opened(e0, x))
  {
    assert forall v :: v in stack + [x] <==> v in stack || v == x;
  }

  /** What is popped: the vertices visited since `x` was opened and still on the stack. */
  ghost function Above<V>(e0: Env<V>, e: Env<V>): set<V> {
    e.onStack - e0.onStack
  }

  /** No edge leads from the part above back below `x` when the link was not lowered. */
  lemma NoWayDown<V(!new)>(g: Graph<V>, e0: Env<V>, e: Env<V>, x: V, a: V, b: V)
    requires Exploring(g, e0, e, x, e0.index, {})
    requires a in Above(e0, e) && a in g && b in g[a]
    ensures b in Above(e0, e) || Popped(e, b)
  {
    assert a == x || a !in e.grays;
    assert b in e.indices;
    assert a != x ==> Bounds(g, e0, e0.index, a);
  }

  lemma PoppedApart<V(!new)>(g: Graph<V>, e: Env<V>, b: V, x: V)
    requires WellFormed(g, e) && Popped(e, b) && x in g && !Popped(e, x)
    ensures !Mutual(g, b, x)
  {
  }

  /** A path from the part above to something that reaches `x` never leaves that part. */
  lemma {:induction false} PathStaysAbove<V(!new)>(g: Graph<V>, e0: Env<V>, e: Env<V>, x: V, p: seq<V>, y: V, c: V)
    requires Exploring(g, e0, e, x, e0.index, {})
    requires y in Above(e0, e) && PathFrom(g, y, p, c) && Reach(g, c, x)
    ensures c in Above(e0, e)
    decreases |p|
  {
    if |p| > 1 {
      var b := p[1];
      PathTail(g, y, p, c);
      NoWayDown(g, e0, e, x, y, b);
      if b in Above(e0, e) {
        PathStaysAbove(g, e0, e, x, p[1..], b, c);
      } else {
        PoppedApart(g, e, b, x);
        ReachTrans(g, b, c, x);
        ReachEdge(g, y, b);
        ReachTrans(g, x, y, b);
      }
    }
  }

  /** Everything above reaches `x` again. */
  lemma AboveReachesBack<V(!new)>(g: Graph<V>, e0: Env<V>, e: Env<V>, x: V, y: V)
    requires Exploring(g, e0, e, x, e0.index, {}) && y in Above(e0, e)
    ensures Mutual(g, x, y)
  {
    assert Reach(g, x, y);
    assert ReachesOpen(g, e, y);
    var z :| z in e.grays && e.indices[z] <= e.indices[y] && Reach(g, y, z);
    if z != x {
      var p :| PathFrom(g, y, p, z);
      PathStaysAbove(g, e0, e, x, p, y, z);
    }
  }

  lemma AboveIsScc<V(!new)>(g: Graph<V>, e0: Env<V>, e: Env<V>, x: V)
    requires Exploring(g, e0, e, x, e0.index, {})
    ensures x in Above(e0, e) && IsScc(g, Above(e0, e))
  {
    forall y ensures y in Above(e0, e) <==> y in g && Mutual(g, x, y) {
      if y in Above(e0, e) {
        AboveReachesBack(g, e0, e, x, y);
      }
      if y in g && Mutual(g, x, y) {
        var p :| PathFrom(g, x, p, y);
        PathStaysAbove(g, e0, e, x, p, x, y);
      }
    }
  }

  ghost function PoppedTo<V>(e0: Env<V>, e: Env<V>): Env<V> {
    Env(e.index, e0.onStack, e.indices, e0.grays)
  }

  lemma PoppedStackReach<V(!new)>(g: Graph<V>, e0: Env<V>, e: Env<V>, x: V)
    requires Exploring(g, e0, e, x, e0.index, {}) && StackOk(PoppedTo(e0, e))
    ensures StackReach(g, PoppedTo(e0, e))
  {
    var e2 := PoppedTo(e0, e);
    forall y | y in e2.onStack ensures ReachesOpen(g, e2, y) {
      assert ReachesOpen(g, e0, y);
      var z :| z in e0.grays && e0.indices[z] <= e0.indices[y] && Reach(g, y, z);
      assert z in e2.grays;
    }
  }

  lemma PoppedStaysWhole<V(!new)>(g: Graph<V>, e0: Env<V>, e: Env<V>, x: V)
    requires Exploring(g, e0, e, x, e0.index, {})
    ensures PoppedWhole(g, PoppedTo(e0, e))
  {
    var e2 := PoppedTo(e0, e);
    AboveIsScc(g, e0, e, x);
    forall a, b | Popped(e2, a) && b in g && Mutual(g, a, b) ensures Popped(e2, b) {
      if a in Above(e0, e) {
        SccMaximal(g, Above(e0, e), a, b);
      } else {
        assert Popped(e, a);
        assert Popped(e, b);
      }
    }
  }

  /** The visit of `x` ends with a pop down to `x`. */
  lemma CloseWithPop<V(!new)>(g: Graph<V>, e0: Env<V>, e: Env<V>, x: V)
    requires Exploring(g, e0, e, x, e0.index, {})
    ensures WellFormed(g, PoppedTo(e0, e))
    ensures Visited(g, e0, PoppedTo(e0, e), x, e0.index)
  {
    hide Reach;
    PoppedStackReach(g, e0, e, x);
    PoppedStaysWhole(g, e0, e, x);
  }

  /** The stack lists the on-stack vertices in the order they were indexed. */
  ghost predicate StackMatches<V(!new)>(stack: seq<V>, e: Env<V>)
    requires StackOk(e)
  {
    && (forall v :: v in stack <==> v in e.onStack)
    && (forall i, j :: 0 <= i < j < |stack| ==> e.indices[stack[i]] < e.indices[stack[j]])
  }

  /** The components recorded so far are exactly the popped ones with two or more members. */
  ghost predicate Recorded<V(!new)>(g: Graph<V>, leq: (V, V) -> bool, e: Env<V>, components: seq<seq<V>>) {
    && (forall i :: 0 <= i < |components| ==> IsRecord(g, leq, e, components[i]))
    && (forall v, w {:trigger Mutual(g, v, w)} :: Popped(e, v) && w in g && w != v && Mutual(g, v, w) ==>
        InSome(v, components))
    && Distinct(components)
  }

  ghost predicate InSome<V>(v: V, components: seq<seq<V>>) {
    exists i :: 0 <= i < |components| && v in components[i]
  }

  ghost predicate IsRecord<V(!new)>(g: Graph<V>, leq: (V, V) -> bool, e: Env<V>, c: seq<V>) {
    && Sorted(leq, c) && Distinct(c) && |c| > 1
    && IsScc(g, SetOf(c))
    && forall v :: v in c ==> Popped(e, v)
  }

  lemma RecordNothing<V(!new)>(g: Graph<V>, leq: (V, V) -> bool, e: Env<V>, e2: Env<V>, components: seq<seq<V>>)
    requires Recorded(g, leq, e, components)
    requires forall v :: Popped(e, v) <==> Popped(e2, v)
    ensures Recorded(g, leq, e2, components)
  {
    forall i | 0 <= i < |components| ensures IsRecord(g, leq, e2, components[i]) {
      assert IsRecord(g, leq, e, components[i]);
    }
  }

  ghost predicate PopsComponent<V(!new)>(g: Graph<V>, e: Env<V>, e2: Env<V>, component: seq<V>) {
    && component != [] && Distinct(component) && IsScc(g, SetOf(component))
    && (forall v :: v in component ==> !Popped(e, v))
    && (forall v :: Popped(e2, v) <==> Popped(e, v) || v in component)
  }

  lemma SingletonHasNoPeer<V(!new)>(g: Graph<V>, component: seq<V>, v: V, w: V)
    requires |component| == 1 && IsScc(g, SetOf(component)) && v in component
    requires w in g && Mutual(g, v, w)
    ensures v == w
  {
    SccMaximal(g, SetOf(component), v, w);
  }

  lemma SortedRecord<V(!new)>(g: Graph<V>, leq: (V, V) -> bool, e: Env<V>, e2: Env<V>, component: seq<V>)
    requires TotalOrder(leq) && PopsComponent(g, e, e2, component) && |component| > 1
    ensures IsRecord(g, leq, e2, Sort(leq, component))
    ensures forall v :: v in Sort(leq, component) <==> v in component
  {
    hide TotalOrder;
    var c := Sort(leq, component);
    SameMultiset(component, c);
    assert SetOf(c) == SetOf(component);
  }

  lemma RecordsDistinct<V(!new)>(g: Graph<V>, leq: (V, V) -> bool, e: Env<V>, c: seq<V>, components: seq<seq<V>>)
    requires Recorded(g, leq, e, components)
    requires c != [] && !Popped(e, c[0])
    ensures Distinct(components + [c])
  {
    forall i | 0 <= i < |components| ensures components[i] != c {
      assert IsRecord(g, leq, e, components[i]);
      assert c[0] in c;
    }
  }

  lemma CoverPop<V(!new)>(g: Graph<V>, leq: (V, V) -> bool, e: Env<V>, e2: Env<V>, component: seq<V>,
                          components: seq<seq<V>>, c: seq<V>, v: V, w: V)
    requires Recorded(g, leq, e, components) && PopsComponent(g, e, e2, component)
    requires forall u :: u in c <==> u in component
    requires Popped(e2, v) && w in g && w != v && Mutual(g, v, w)
    ensures InSome(v, if |component| > 1 then components + [c] else components)
  {
    if Popped(e, v) {
      assert InSome(v, components);
      var i :| 0 <= i < |components| && v in components[i];
      assert |component| > 1 ==> (components + [c])[i] == components[i];
    } else if |component| == 1 {
      SingletonHasNoPeer(g, component, v, w);
    } else {
      assert v in (components + [c])[|components|];
    }
  }

  lemma RecordKeeps<V(!new)>(g: Graph<V>, leq: (V, V) -> bool, e: Env<V>, e2: Env<V>, component: seq<V>,
                             components: seq<seq<V>>, c: seq<V>)
    requires Recorded(g, leq, e, components) && PopsComponent(g, e, e2, component)
    requires forall u :: u in c <==> u in component
    requires |component| > 1 ==> c != [] && IsRecord(g, leq, e2, c)
    ensures Recorded(g, leq, e2, if |component| > 1 then components + [c] else components)
  {
    var components' := if |component| > 1 then components + [c] else components;
    if |component| > 1 {
      assert c[0] in component;
      RecordsDistinct(g, leq, e, c, components);
    }
    forall i | 0 <= i < |components'| ensures IsRecord(g, leq, e2, components'[i]) {
      if i < |components| { assert IsRecord(g, leq, e, components[i]); }
    }
    forall v, w | Popped(e2, v) && w in g && w != v && Mutual(g, v, w) ensures InSome(v, components') {
      CoverPop(g, leq, e, e2, component, components, c, v, w);
    }
  }

  lemma RecordPop<V(!new)>(g: Graph<V>, leq: (V, V) -> bool, e: Env<V>, e2: Env<V>, component: seq<V>,
                           components: seq<seq<V>>)
    requires TotalOrder(leq) && Recorded(g, leq, e, components) && PopsComponent(g, e, e2, component)
    ensures Recorded(g, leq, e2, if |component| > 1 then components + [Sort(leq, component)] else components)
  {
    hide TotalOrder, Recorded, IsScc;
    SameMultiset(component, Sort(leq, component));
    if |component| > 1 { SortedRecord(g, leq, e, e2, component); }
    RecordKeeps(g, leq, e, e2, component, components, Sort(leq, component));
  }

  lemma AboveByIndex<V(!new)>(g: Graph<V>, e0: Env<V>, e: Env<V>, x: V, low: nat, rest: set<V>)
    requires Exploring(g, e0, e, x, low, rest)
    ensures forall v :: v in e.onStack ==> (v in Above(e0, e) <==> e.indices[x] <= e.indices[v])
    ensures forall v :: v in e0.onStack ==> v in e.onStack && e.indices[v] < e.indices[x]
    ensures x in e.onStack && e.indices[x] == e0.index && low <= e0.index
    ensures e.grays - {x} == e0.grays
  {
  }

  /** A stack sorted by index, cut at `k`: the popped part holds the larger indices. */
  lemma CutByIndex<V(!new)>(e: Env<V>, stack: seq<V>, k: nat, component: seq<V>)
    requires StackOk(e) && StackMatches(stack, e)
    requires k < |stack| && |component| == |stack| - k
    requires forall i :: 0 <= i < |component| ==> component[i] == stack[|stack| - 1 - i]
    ensures Distinct(component)
    ensures forall v :: v in component <==> v in e.onStack && e.indices[stack[k]] <= e.indices[v]
    ensures forall v :: v in stack[..k] <==> v in e.onStack && e.indices[v] < e.indices[stack[k]]
  {
    forall v | v in component ensures v in e.onStack && e.indices[stack[k]] <= e.indices[v] {
      var i :| 0 <= i < |component| && component[i] == v;
      assert stack[|stack| - 1 - i] == v;
    }
    forall v | v in stack[..k] ensures v in e.onStack && e.indices[v] < e.indices[stack[k]] {
      var j :| 0 <= j < k && stack[j] == v;
    }
    forall v | v in e.onStack ensures v in component || v in stack[..k] {
      var j :| 0 <= j < |stack| && stack[j] == v;
      if k <= j {
        assert component[|stack| - 1 - j] == v;
      } else {
        assert stack[..k][j] == v;
      }
    }
  }

  /** Popping the sorted stack down to `x` takes exactly the vertices above it. */
  lemma PopSplit<V(!new)>(g: Graph<V>, e0: Env<V>, e: Env<V>, x: V, stack: seq<V>, k: nat, component: seq<V>)
    requires Exploring(g, e0, e, x, e0.index, {}) && StackMatches(stack, e)
    requires k < |stack| && stack[k] == x && |component| == |stack| - k
    requires forall i :: 0 <= i < |component| ==> component[i] == stack[|stack| - 1 - i]
    ensures StackOk(PoppedTo(e0, e)) && StackMatches(stack[..k], PoppedTo(e0, e))
    ensures PopsComponent(g, e, PoppedTo(e0, e), component)
  {
    CutByIndex(e, stack, k, component);
    AboveByIndex(g, e0, e, x, e0.index, {});
    AboveIsScc(g, e0, e, x);
    assert SetOf(component) == Above(e0, e);
    PoppedWithAbove(g, e0, e, x);
  }

  lemma PoppedWithAbove<V(!new)>(g: Graph<V>, e0: Env<V>, e: Env<V>, x: V)
    requires Exploring(g, e0, e, x, e0.index, {})
    ensures forall v :: v in Above(e0, e) ==> !Popped(e, v)
    ensures forall v :: Popped(PoppedTo(e0, e), v) <==> Popped(e, v) || v in Above(e0, e)
  {
  }

  class Search<V(==, !new)> {
    const graph: Graph<V>
    const leq: (V, V) -> bool
    var index: nat
    var stack: seq<V>
    var onStack: set<V>
    var indices: map<V, nat>
    var lowlinks: map<V, nat>
    var components: seq<seq<V>>
    ghost var open: set<V>

    ghost function State(): Env<V>
      reads this
    {
      Env(index, onStack, indices, open)
    }

    ghost predicate Valid()
      reads this
    {
      && TotalOrder(leq) && ClosedGraph(graph)
      && WellFormed(graph, State())
      && StackOk(State()) && StackMatches(stack, State())
      && lowlinks.Keys == indices.Keys
      && Recorded(graph, leq, State(), components)
    }

    constructor (graph: Graph<V>, leq: (V, V) -> bool)
      requires TotalOrder(leq) && ClosedGraph(graph)
      ensures Valid() && this.graph == graph && this.leq == leq
      ensures open == {} && indices == map[]
    {
      this.graph, this.leq := graph, leq;
      index, stack, onStack, indices, lowlinks, components := 0, [], {}, map[], map[], [];
      open := {};
    }

    /** Pop down to `target`, which leaves last. */
    method PopComponent(target: V) returns (component: seq<V>, ghost k: nat)
      requires target in stack && Distinct(stack) && forall v :: v in stack <==> v in onStack
      modifies this`stack, this`onStack
      ensures k < |old(stack)| && old(stack)[k] == target && stack == old(stack)[..k]
      ensures |component| == |old(stack)| - k
      ensures forall i :: 0 <= i < |component| ==> component[i] == old(stack)[|old(stack)| - 1 - i]
      ensures forall v :: v in stack <==> v in onStack
    {
      component := [];
      while true
        invariant |component| + |stack| == |old(stack)| && stack == old(stack)[..|stack|]
        invariant forall i :: 0 <= i < |component| ==> component[i] == old(stack)[|old(stack)| - 1 - i]
        invariant target in stack
        invariant forall v :: v in stack <==> v in onStack
        decreases |stack|
      {
        var popped := stack[|stack| - 1];
        stack := stack[..|stack| - 1];
        onStack := onStack - {popped};
        component := component + [popped];
        if popped == target { break; }
      }
      k := |stack|;
    }

    /** Between the opening of `x` in state `e0` and its close, `rest` still to be looked at. */
    ghost predicate Inside(e0: Env<V>, x: V, rest: set<V>)
      reads this
    {
      && TotalOrder(leq) && ClosedGraph(graph)
      && x in lowlinks && Exploring(graph, e0, State(), x, lowlinks[x], rest)
      && StackOk(State()) && StackMatches(stack, State())
      && lowlinks.Keys == indices.Keys
      && Recorded(graph, leq, State(), components)
    }

    twostate predicate LinksKept()
      reads this
    {
      && old(indices.Keys) <= indices.Keys
      && forall v :: v in old(lowlinks) ==> v in lowlinks && lowlinks[v] == old(lowlinks[v])
    }

    method Visit(x: V)
      requires Valid() && x in graph && x !in indices
      requires forall z :: z in open ==> Reach(graph, z, x)
      modifies this
      ensures Valid() && LinksKept()
      ensures x in lowlinks && Visited(graph, old(State()), State(), x, lowlinks[x])
      decreases graph.Keys - indices.Keys, 1
    {
      ghost var e0 := State();
      Begin(x);
      var rest := graph[x];
      while rest != {}
        invariant Inside(e0, x, rest) && LinksKept() && x in indices
        decreases rest
      {
        var target :| target in rest;
        LookAt(e0, x, rest, target);
        rest := rest - {target};
      }
      Finish(e0, x);
    }

    method VisitAll(order: seq<V>)
      requires Valid() && open == {} && forall v :: v in order ==> v in graph
      modifies this
      ensures Valid() && open == {} && forall v :: v in order ==> v in indices
    {
      hide TotalOrder, ClosedGraph, Recorded, WellFormed;
      for i := 0 to |order|
        invariant Valid() && open == {}
        invariant forall j :: 0 <= j < i ==> order[j] in indices
      {
        if order[i] !in indices {
          Visit(order[i]);
        }
      }
    }

    method Begin(x: V)
      requires Valid() && x in graph && x !in indices
      requires forall z :: z in open ==> Reach(graph, z, x)
      modifies this
      ensures Inside(old(State()), x, graph[x]) && LinksKept() && x in indices
    {
      hide TotalOrder, ClosedGraph, Recorded, Exploring, Reach, StackReach, OpenReach, NoneMissed, PoppedWhole;
      ghost var e0 := State();
      indices := indices[x := index];
      lowlinks := lowlinks[x := index];
      index := index + 1;
      stack := stack + [x];
      onStack := onStack + {x};
      open := open + {x};
      assert State() == Opened(e0, x);
      Open(graph, e0, x);
      OpenedStackMatches(e0, x, old(stack));
      RecordNothing(graph, leq, e0, Opened(e0, x), components);
    }

    /** One turn of the loop over the successors of `x`. */
    method LookAt(ghost e0: Env<V>, x: V, ghost rest: set<V>, target: V)
      requires Inside(e0, x, rest) && target in rest
      modifies this
      ensures Inside(e0, x, rest - {target})
      ensures old(indices.Keys) <= indices.Keys
      ensures forall v :: v in old(lowlinks) && v != x ==> v in lowlinks && lowlinks[v] == old(lowlinks[v])
      decreases graph.Keys - indices.Keys, 2
    {
      hide TotalOrder, Recorded, Exploring, WellFormed, Visited, Reach;
      ghost var e, low := State(), lowlinks[x];
      if target !in indices {
        ThroughOpen(graph, e0, e, x, low, rest, target);
        Visit(target);
        SeeNew(graph, e0, e, x, low, rest, target, State(), lowlinks[target]);
        lowlinks := lowlinks[x := Min(lowlinks[x], lowlinks[target])];
      } else {
        SeeVisited(graph, e0, e, x, low, rest, target);
        if target in onStack {
          lowlinks := lowlinks[x := Min(lowlinks[x], indices[target])];
        }
      }
    }

    /** After the last successor: leave `x` on the stack, or pop its component. */
    method Finish(ghost e0: Env<V>, x: V)
      requires Inside(e0, x, {}) && x in indices
      modifies this
      ensures Valid() && lowlinks == old(lowlinks) && indices == old(indices)
      ensures x in lowlinks && Visited(graph, e0, State(), x, lowlinks[x])
    {
      hide TotalOrder, ClosedGraph, Recorded, Exploring, WellFormed, Visited;
      ghost var e := State();
      AboveByIndex(graph, e0, e, x, lowlinks[x], {});
      open := open - {x};
      if lowlinks[x] != indices[x] {
        CloseOnStack(graph, e0, e, x, lowlinks[x]);
        RecordNothing(graph, leq, e, e.(grays := e0.grays), components);
        return;
      }
      ghost var before := stack;
      var component, k := PopComponent(x);
      PopSplit(graph, e0, e, x, before, k, component);
      assert onStack == e0.onStack;
      assert State() == PoppedTo(e0, e);
      CloseWithPop(graph, e0, e, x);
      RecordPop(graph, leq, e, PoppedTo(e0, e), component, components);
      if |component| > 1 {
        components := components + [Sort(leq, component)];
      }
    }
  }

  lemma ThroughOpen<V(!new)>(g: Graph<V>, e0: Env<V>, e: Env<V>, x: V, low: nat, rest: set<V>, t: V)
    requires Exploring(g, e0, e, x, low, rest) && t in rest && ClosedGraph(g)
    ensures t in g && WellFormed(g, e) && x in e.indices && forall z :: z in e.grays ==> Reach(g, z, t)
  {
    ReachEdge(g, x, t);
    forall z | z in e.grays ensures Reach(g, z, t) {
      if z != x { ReachTrans(g, z, x, t); }
    }
  }

  function Min(a: nat, b: nat): nat {
    if b < a then b else a
  }

  ghost predicate IsEnd<V(!new)>(edges: set<(V, V)>, v: V) {
    exists e :: e in edges && (e.0 == v || e.1 == v)
  }

  /** The vertices of `g` are the modules and every end of an edge, and its edges are `edges`. */
  ghost predicate IsImportGraph<V(!new)>(g: Graph<V>, modules: set<V>, edges: set<(V, V)>) {
    && (forall v :: v in g <==> v in modules || IsEnd(edges, v))
    && (forall v, w :: v in g ==> (w in g[v] <==> (v, w) in edges))
  }

  ghost function ImportGraph<V(!new)>(modules: set<V>, edges: set<(V, V)>): (g: Graph<V>)
    ensures IsImportGraph(g, modules, edges) && ClosedGraph(g)
  {
    var vertices := modules + (set e | e in edges :: e.0) + (set e | e in edges :: e.1);
    var g := map v | v in vertices :: set e | e in edges && e.0 == v :: e.1;
    assert forall v: V, w: V :: (v, w).0 == v && (v, w).1 == w;
    assert forall v, w :: (v, w) in edges ==> IsEnd(edges, w);
    g
  }

  lemma ImportGraphUnique<V(!new)>(g: Graph<V>, h: Graph<V>, modules: set<V>, edges: set<(V, V)>)
    requires IsImportGraph(g, modules, edges) && IsImportGraph(h, modules, edges)
    ensures g == h
  {
    assert g.Keys == h.Keys;
    forall v | v in g ensures g[v] == h[v] {
      assert forall w :: w in g[v] <==> w in h[v];
    }
  }

  /** `r` lists each component with two or more members once, sorted, and nothing else. */
  ghost predicate ExactComponents<V(!new)>(g: Graph<V>, leq: (V, V) -> bool, r: seq<seq<V>>) {
    && Sorted(Lex(leq), r) && Distinct(r)
    && (forall i :: 0 <= i < |r| ==> Sorted(leq, r[i]) && Distinct(r[i]) && |r[i]| > 1 && IsScc(g, SetOf(r[i])))
    && (forall s: set<V> {:trigger IsScc(g, s)} :: IsScc(g, s) && |s| > 1 ==>
        exists i :: 0 <= i < |r| && SetOf(r[i]) == s)
  }

  lemma NothingOpen<V(!new)>(g: Graph<V>, e: Env<V>)
    requires WellFormed(g, e) && e.grays == {}
    ensures e.onStack == {}
  {
    forall y ensures y !in e.onStack {
      assert y in e.onStack ==> ReachesOpen(g, e, y);
    }
  }

  lemma CoverAll<V(!new)>(g: Graph<V>, leq: (V, V) -> bool, e: Env<V>, components: seq<seq<V>>, s: set<V>)
    returns (i: nat)
    requires Recorded(g, leq, e, components) && forall v :: v in g ==> Popped(e, v)
    requires IsScc(g, s) && |s| > 1
    ensures i < |components| && SetOf(components[i]) == s
  {
    var v :| v in s;
    assert |s - {v}| == |s| - 1;
    var w :| w in s - {v};
    SccMutual(g, s, v, w);
    assert InSome(v, components);
    i :| 0 <= i < |components| && v in components[i];
    assert IsRecord(g, leq, e, components[i]);
    SccEqual(g, SetOf(components[i]), s, v);
  }

  lemma AllRecorded<V(!new)>(g: Graph<V>, leq: (V, V) -> bool, e: Env<V>, components: seq<seq<V>>, r: seq<seq<V>>)
    requires Recorded(g, leq, e, components) && forall v :: v in g ==> Popped(e, v)
    requires Sorted(Lex(leq), r) && multiset(r) == multiset(components)
    ensures ExactComponents(g, leq, r)
  {
    SameMultiset(components, r);
    forall i | 0 <= i < |r| ensures IsRecord(g, leq, e, r[i]) {
      assert r[i] in components;
    }
    forall s: set<V> | IsScc(g, s) && |s| > 1 ensures exists i :: 0 <= i < |r| && SetOf(r[i]) == s {
      var j := CoverAll(g, leq, e, components, s);
      assert components[j] in r;
    }
  }

  lemma AddEdge<V(!new)>(g: Graph<V>, modules: set<V>, done: set<(V, V)>, edge: (V, V))
    requires IsImportGraph(g, modules, done)
    ensures var g1 := g[edge.0 := (if edge.0 in g then g[edge.0] else {}) + {edge.1}];
            IsImportGraph(g1[edge.1 := if edge.1 in g1 then g1[edge.1] else {}], modules, done + {edge})
  {
    forall v ensures IsEnd(done + {edge}, v) <==> IsEnd(done, v) || v == edge.0 || v == edge.1 {
      if v == edge.0 || v == edge.1 { assert edge in done + {edge}; }
    }
    forall v, w | v !in g ensures (v, w) !in done {
      assert (v, w) in done ==> IsEnd(done, v);
    }
    forall v, w ensures (v, w) in done + {edge} <==> (v, w) in done || (v == edge.0 && w == edge.1) {
      assert edge == (edge.0, edge.1);
    }
  }

  method BuildGraph<V(==, !new)>(modules: set<V>, edges: set<(V, V)>) returns (g: Graph<V>)
    ensures g == ImportGraph(modules, edges)
  {
    g := map v | v in modules :: {};
    var rest := edges;
    while rest != {}
      invariant rest <= edges && IsImportGraph(g, modules, edges - rest)
      decreases rest
    {
      var edge :| edge in rest;
      AddEdge(g, modules, edges - rest, edge);
      assert edges - (rest - {edge}) == edges - rest + {edge};
      rest := rest - {edge};
      g := g[edge.0 := (if edge.0 in g then g[edge.0] else {}) + {edge.1}];
      g := g[edge.1 := if edge.1 in g then g[edge.1] else {}];
    }
    assert edges - rest == edges;
    ImportGraphUnique(g, ImportGraph(modules, edges), modules, edges);
  }

  method StronglyConnectedComponents<V(==, !new)>(modules: set<V>, edges: set<(V, V)>, leq: (V, V) -> bool)
    returns (r: seq<seq<V>>)
    requires TotalOrder(leq)
    ensures ExactComponents(ImportGraph(modules, edges), leq, r)
  {
    hide TotalOrder, ClosedGraph, Recorded, WellFormed, Sorted, IsImportGraph;
    var graph := BuildGraph(modules, edges);
    var vertices := Elements(graph.Keys);
    var order := Sort(leq, vertices);
    SameMultiset(vertices, order);
    var search := new Search(graph, leq);
    forall v | v in order ensures v in graph {
      assert v in SetOf(vertices);
    }
    search.VisitAll(order);
    NothingOpen(graph, search.State());
    forall v | v in graph ensures Popped(search.State(), v) {
      assert v in SetOf(vertices);
      assert v in order;
    }
    LexTotal(leq);
    r := Sort(Lex(leq), search.components);
    AllRecorded(graph, leq, search.State(), search.components, r);
  }
}
