/** Running a planned association on concrete matrices. */
module OrderExecution {
  import opened Results
  import opened Matrices
  import opened OrderTrees

  type Operand = m: Matrix | m.Valid() witness Matrix(0, 0, [])

  /** Python list indexing, from the end for negative positions. */
  function At<T>(s: seq<T>, i: int): Option<T> {
    if 0 <= i < |s| then Some(s[i]) else if -|s| <= i < 0 then Some(s[|s| + i]) else None
  }

  /** A position is accepted exactly when it is at most one length away, and then taken round the list. */
  lemma AtWrapsAround<T>(s: seq<T>, i: int)
    ensures At(s, i).Some? <==> -|s| <= i < |s|
    ensures At(s, i).Some? ==> At(s, i).value == s[i % |s|]
  {
    if -|s| <= i < 0 { assert i % |s| == i + |s|; }
  }

  /** `inputs[source_indices[token]]`; a bad index is an error. */
  function Select(inputs: seq<Operand>, sources: seq<nat>): int -> Option<Operand> {
    (token: int) =>
      var source := At(sources, token);
      if source == None then None else At(inputs, source.value)
  }

  function Times(left: Operand, right: Operand): Option<Operand> {
    match MatMul(left, right)
    case None => None
    case Some(m) => Some(m)
  }

  /** The candidate program: push operands, pop right then left, push their product.
      `None` stands for any raised error. */
  method Evaluate(tree: OrderTree, sources: seq<nat>, inputs: seq<Operand>) returns (r: Option<Operand>)
    ensures var end := Run(tree, Select(inputs, sources), Times, []);
            r == if end.Some? && end.value != [] then Some(end.value[0]) else None
  {
    var stack: seq<Operand> := [];
    for i := 0 to |tree|
      invariant Run(tree, Select(inputs, sources), Times, []) == Run(tree[i..], Select(inputs, sources), Times, stack)
    {
      var token := tree[i];
      assert tree[i..][1..] == tree[i + 1..];
      if token == MATMUL_TOKEN {
        if |stack| < 2 {
          return None;
        }
        var right, left := stack[|stack| - 1], stack[|stack| - 2];
        var product := Times(left, right);
        if product == None {
          return None;
        }
        stack := stack[..|stack| - 2] + [product.value];
      } else {
        var operand := Select(inputs, sources)(token);
        if operand == None {
          return None;
        }
        stack := stack + [operand.value];
      }
    }
    return if stack == [] then None else Some(stack[0]);
  }

  /** The inputs fit the chain: operand `k` is `dimensions[k]` by `dimensions[k + 1]`. */
  ghost predicate Conforms(inputs: seq<Operand>, sources: seq<nat>, dimensions: seq<int>) {
    && |dimensions| == |sources| + 1
    && forall k :: 0 <= k < |sources| ==>
      && sources[k] < |inputs|
      && inputs[sources[k]].rows == dimensions[k] && inputs[sources[k]].cols == dimensions[k + 1]
  }

  /** The product of operands `lo` to `hi - 1`, from left to right. */
  ghost function Chain(inputs: seq<Operand>, sources: seq<nat>, dimensions: seq<int>, lo: nat, hi: nat): (r: Operand)
    requires Conforms(inputs, sources, dimensions) && lo < hi <= |sources|
    ensures r.rows == dimensions[lo] && r.cols == dimensions[hi]
    decreases hi
  {
    if hi == lo + 1 then inputs[sources[lo]]
    else MatMul(Chain(inputs, sources, dimensions, lo, hi - 1), inputs[sources[hi - 1]]).value
  }

  /** A chain may be cut anywhere. */
  lemma {:induction false} ChainSplit(inputs: seq<Operand>, sources: seq<nat>, dimensions: seq<int>, lo: nat, mid: nat,
                                      hi: nat)
    requires Conforms(inputs, sources, dimensions) && lo < mid < hi <= |sources|
    ensures MatMul(Chain(inputs, sources, dimensions, lo, mid), Chain(inputs, sources, dimensions, mid, hi))
         == Some(Chain(inputs, sources, dimensions, lo, hi))
    decreases hi
  {
    if hi > mid + 1 {
      ChainSplit(inputs, sources, dimensions, lo, mid, hi - 1);
      MatMulAssociative(Chain(inputs, sources, dimensions, lo, mid),
                        Chain(inputs, sources, dimensions, mid, hi - 1),
                        inputs[sources[hi - 1]]);
    }
  }

  /** Every association multiplies out to the left-to-right product, with no shape error. */
  lemma {:induction false} AnyOrderIsChain(t: Assoc, inputs: seq<Operand>, sources: seq<nat>, dimensions: seq<int>,
                                           lo: nat, hi: nat)
    requires Conforms(inputs, sources, dimensions) && Spans(t, lo, hi) && hi <= |sources|
    ensures lo < hi && Fold(t, Select(inputs, sources), Times) == Some(Chain(inputs, sources, dimensions, lo, hi))
  {
    SpansSize(t, lo, hi);
    match t
    case Leaf(_) =>
    case Node(l, r) =>
      var mid := lo + Size(l);
      AnyOrderIsChain(l, inputs, sources, dimensions, lo, mid);
      AnyOrderIsChain(r, inputs, sources, dimensions, mid, hi);
      ChainSplit(inputs, sources, dimensions, lo, mid, hi);
  }

  /** A planned order on conforming inputs runs without error, leaves one value on the
      stack, and that value is the product of the operands in source order. */
  lemma PlannedOrderRuns(tree: OrderTree, inputs: seq<Operand>, sources: seq<nat>, dimensions: seq<int>)
    requires Conforms(inputs, sources, dimensions) && HasOrder(tree, |sources|)
    ensures |sources| > 0
    ensures Run(tree, Select(inputs, sources), Times, []) == Some([Chain(inputs, sources, dimensions, 0, |sources|)])
  {
    var t :| IsOrder(t, tree, |sources|);
    AnyOrderIsChain(t, inputs, sources, dimensions, 0, |sources|);
    RunPostfix(t, Select(inputs, sources), Times, [], []);
    assert Postfix(t) + [] == tree;
    var v := Chain(inputs, sources, dimensions, 0, |sources|);
    assert [] + [v] == [v];
  }

  /** Reassociation keeps the meaning: two planned orders end in the same single value. */
  lemma ReassociationKeepsMeaning(original: OrderTree, candidate: OrderTree,
                                  inputs: seq<Operand>, sources: seq<nat>, dimensions: seq<int>)
    requires Conforms(inputs, sources, dimensions)
    requires HasOrder(original, |sources|) && HasOrder(candidate, |sources|)
    ensures var end := Run(original, Select(inputs, sources), Times, []);
            end.Some? && |end.value| == 1 && end == Run(candidate, Select(inputs, sources), Times, [])
  {
    PlannedOrderRuns(original, inputs, sources, dimensions);
    PlannedOrderRuns(candidate, inputs, sources, dimensions);
  }

  // ----- the cost of an order is the work its execution does

  function CellCount(rows: seq<seq<int>>): nat {
    if rows == [] then 0 else |rows[0]| + CellCount(rows[1..])
  }

  /** A value with the scalar products made for it, the cells of the products formed on the way, and all cells in use:
      those of its operands and of these products. */
  datatype Counted = Counted(value: Operand, scalars: int, formed: seq<int>, cells: int)

  ghost function CountedSelect(inputs: seq<Operand>, sources: seq<nat>): int -> Option<Counted> {
    (token: int) =>
      match Select(inputs, sources)(token)
      case None => None
      case Some(m) => Some(Counted(m, 0, [], CellCount(m.cells)))
  }

  /** Each cell of a product is a sum over the rows of the right operand. */
  ghost function CountedTimes(l: Counted, r: Counted): Option<Counted> {
    match Times(l.value, r.value)
    case None => None
    case Some(m) =>
      var size := CellCount(m.cells);
      Some(Counted(m, l.scalars + r.scalars + size * |r.value.cells|, l.formed + r.formed + [size],
                   l.cells + r.cells + size))
  }

  lemma {:induction false} CellsAreRowsTimesCols(rows: seq<seq<int>>, n: nat)
    requires forall i :: 0 <= i < |rows| ==> |rows[i]| == n
    ensures CellCount(rows) == |rows| * n
  {
    if rows != [] { CellsAreRowsTimesCols(rows[1..], n); }
  }

  lemma {:induction false} TotalAppend(a: seq<int>, b: seq<int>)
    ensures Total(a + b) == Total(a) + Total(b)
  {
    if b == [] {
      assert a + b == a;
    } else {
      var n := |b| - 1;
      assert (a + b)[..|a| + n] == a + b[..n];
      TotalAppend(a, b[..n]);
    }
  }

  ghost function Work(t: Assoc, inputs: seq<Operand>, sources: seq<nat>, dimensions: seq<int>, lo: nat, hi: nat)
    : Counted
    requires Conforms(inputs, sources, dimensions) && lo < hi <= |sources|
  {
    Counted(Chain(inputs, sources, dimensions, lo, hi), Macs(t, lo, dimensions), Outputs(t, lo, dimensions),
            Total(InputSizes(dimensions)[lo..hi]) + Total(Outputs(t, lo, dimensions)))
  }

  lemma {:induction false} CountedFold(t: Assoc, inputs: seq<Operand>, sources: seq<nat>, dimensions: seq<int>, lo: nat,
                                       hi: nat)
    requires Conforms(inputs, sources, dimensions) && Spans(t, lo, hi) && hi <= |sources|
    ensures lo < hi
    ensures Fold(t, CountedSelect(inputs, sources), CountedTimes) == Some(Work(t, inputs, sources, dimensions, lo, hi))
  {
    hide Work, CountedTimes, CountedSelect, Conforms;
    SpansSize(t, lo, hi);
    match t
    case Leaf(_) =>
      LeafWork(inputs, sources, dimensions, lo);
    case Node(l, r) =>
      var mid := lo + Size(l);
      CountedFold(l, inputs, sources, dimensions, lo, mid);
      CountedFold(r, inputs, sources, dimensions, mid, hi);
      JoinedWork(l, r, inputs, sources, dimensions, lo, mid, hi);
  }

  lemma LeafWork(inputs: seq<Operand>, sources: seq<nat>, dimensions: seq<int>, k: nat)
    requires Conforms(inputs, sources, dimensions) && k < |sources|
    ensures CountedSelect(inputs, sources)(k) == Some(Work(Leaf(k), inputs, sources, dimensions, k, k + 1))
  {
    hide CellCount, Total, MatMul, InputSizes;
    var m := inputs[sources[k]];
    InputCells(m, dimensions, k);
    var w := Work(Leaf(k), inputs, sources, dimensions, k, k + 1);
    assert w.value == m && w.formed == [];
    assert Select(inputs, sources)(k) == Some(m);
  }

  lemma InputCells(m: Operand, dimensions: seq<int>, k: nat)
    requires k + 1 < |dimensions| && m.rows == dimensions[k] && m.cols == dimensions[k + 1]
    ensures Total(InputSizes(dimensions)[k..k + 1]) == CellCount(m.cells) && Total([]) == 0
  {
    hide CellCount;
    MatrixCells(m);
    var size := InputSizes(dimensions)[k];
    assert InputSizes(dimensions)[k..k + 1] == [size];
    assert [size][..0] == [];
  }

  lemma MatrixCells(m: Operand)
    ensures CellCount(m.cells) == m.rows * m.cols
  {
    CellsAreRowsTimesCols(m.cells, m.cols);
  }

  lemma JoinedWork(l: Assoc, r: Assoc, inputs: seq<Operand>, sources: seq<nat>, dimensions: seq<int>, lo: nat, mid: nat,
                   hi: nat)
    requires Conforms(inputs, sources, dimensions) && lo < mid < hi <= |sources|
    requires Size(l) == mid - lo && Size(r) == hi - mid
    ensures CountedTimes(Work(l, inputs, sources, dimensions, lo, mid), Work(r, inputs, sources, dimensions, mid, hi))
         == Some(Work(Node(l, r), inputs, sources, dimensions, lo, hi))
  {
    hide CellCount, Chain, Total, MatMul, Macs, Outputs, InputSizes;
    NodeCounts(l, r, dimensions, lo, mid, hi);
    ChainSplit(inputs, sources, dimensions, lo, mid, hi);
    var right, m := Chain(inputs, sources, dimensions, mid, hi), Chain(inputs, sources, dimensions, lo, hi);
    MatrixCells(m);
    var size := CellCount(m.cells);
    assert |right.cells| == dimensions[mid] && size == dimensions[lo] * dimensions[hi];
    ProductOrder(dimensions[lo], dimensions[mid], dimensions[hi]);
    InputCount(dimensions);
    JoinedTotals(InputSizes(dimensions), lo, mid, hi, Outputs(l, lo, dimensions), Outputs(r, mid, dimensions), size);
  }

  lemma InputCount(dimensions: seq<int>)
    requires |dimensions| >= 2
    ensures |InputSizes(dimensions)| == |dimensions| - 1
  {
  }

  lemma NodeCounts(l: Assoc, r: Assoc, dimensions: seq<int>, lo: nat, mid: nat, hi: nat)
    requires Size(l) == mid - lo && Size(r) == hi - mid && lo < mid < hi < |dimensions|
    ensures Macs(Node(l, r), lo, dimensions)
         == Macs(l, lo, dimensions) + Macs(r, mid, dimensions) + dimensions[lo] * dimensions[mid] * dimensions[hi]
    ensures Outputs(Node(l, r), lo, dimensions)
         == Outputs(l, lo, dimensions) + Outputs(r, mid, dimensions) + [dimensions[lo] * dimensions[hi]]
  {
    NodeUnfolds(l, r, dimensions, lo);
    var a, b, c := OrderTrees.At(dimensions, lo), OrderTrees.At(dimensions, mid), OrderTrees.At(dimensions, hi);
    hide Macs, Outputs;
    SameProduct(a, b, c, dimensions[lo], dimensions[mid], dimensions[hi]);
  }

  lemma NodeUnfolds(l: Assoc, r: Assoc, dimensions: seq<int>, lo: nat)
    ensures var mid, hi := lo + Size(l), lo + Size(Node(l, r));
            var a, b, c := OrderTrees.At(dimensions, lo), OrderTrees.At(dimensions, mid), OrderTrees.At(dimensions, hi);
            && Macs(Node(l, r), lo, dimensions) == Macs(l, lo, dimensions) + Macs(r, mid, dimensions) + a * b * c
            && Outputs(Node(l, r), lo, dimensions)
               == Outputs(l, lo, dimensions) + Outputs(r, mid, dimensions) + [a * c]
  {
    hide Size, OrderTrees.At;
  }

  lemma SameProduct(a: int, b: int, c: int, x: int, y: int, z: int)
    requires a == x && b == y && c == z
    ensures a * b * c == x * y * z && a * c == x * z
  {
  }

  lemma JoinedTotals(sizes: seq<int>, lo: nat, mid: nat, hi: nat, left: seq<int>, right: seq<int>, size: int)
    requires lo <= mid <= hi <= |sizes|
    ensures Total(sizes[lo..hi]) + Total(left + right + [size])
         == Total(sizes[lo..mid]) + Total(left) + (Total(sizes[mid..hi]) + Total(right)) + size
  {
    assert sizes[lo..hi] == sizes[lo..mid] + sizes[mid..hi];
    TotalAppend(sizes[lo..mid], sizes[mid..hi]);
    TotalAppend(left, right);
    assert (left + right + [size])[..|left + right|] == left + right;
  }

  lemma ProductOrder(a: int, b: int, c: int)
    ensures a * c * b == a * b * c
  {
  }

  /** On conforming inputs the cost of an order counts exactly what running it does: the scalar products, the cells of
      each intermediate product in turn, the shape of the result, and the cells of all operands and products. */
  lemma CostIsWork(t: Assoc, tree: OrderTree, inputs: seq<Operand>, sources: seq<nat>, dimensions: seq<int>)
    returns (w: Counted)
    requires Conforms(inputs, sources, dimensions) && IsOrder(t, tree, |sources|) && |sources| >= 2
    ensures Run(tree, CountedSelect(inputs, sources), CountedTimes, []) == Some([w])
    ensures Run(tree, Select(inputs, sources), Times, []) == Some([w.value])
    ensures w.formed != []
    ensures CostOf(t, dimensions)
         == OrderCost(w.scalars, (w.value.rows, w.value.cols), w.formed[..|w.formed| - 1], w.cells)
  {
    hide CostOf, Work, Chain, Spans;
    CountedFold(t, inputs, sources, dimensions, 0, |sources|);
    w := Work(t, inputs, sources, dimensions, 0, |sources|);
    RunOnce(tree, t, CountedSelect(inputs, sources), CountedTimes, w);
    PlannedOrderRuns(tree, inputs, sources, dimensions);
    WorkIsCost(t, inputs, sources, dimensions);
  }

  lemma RunOnce<T>(tree: OrderTree, t: Assoc, leaf: int -> Option<T>, join: (T, T) -> Option<T>, v: T)
    requires Postfix(t) == tree && Fold(t, leaf, join) == Some(v)
    ensures Run(tree, leaf, join, []) == Some([v])
  {
    RunPostfix(t, leaf, join, [], []);
    assert Postfix(t) + [] == tree && [] + [v] == [v];
  }

  lemma WorkIsCost(t: Assoc, inputs: seq<Operand>, sources: seq<nat>, dimensions: seq<int>)
    requires Conforms(inputs, sources, dimensions) && Spans(t, 0, |sources|) && |sources| >= 2
    ensures var w := Work(t, inputs, sources, dimensions, 0, |sources|);
            && w.formed != []
            && w.value == Chain(inputs, sources, dimensions, 0, |sources|)
            && CostOf(t, dimensions)
               == OrderCost(w.scalars, (w.value.rows, w.value.cols), w.formed[..|w.formed| - 1], w.cells)
  {
    hide Chain, Macs, Total;
    SpansSize(t, 0, |sources|);
    assert InputSizes(dimensions)[0..|sources|] == InputSizes(dimensions);
  }
}
