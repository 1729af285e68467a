/** Associations of a matrix chain, written as postfix token sequences. */
module OrderTrees {
  import opened Results
  import opened Sorting

  const MATMUL_TOKEN := -1
  const MAX_ORDER_LEAVES := 12
  const MAX_ORDER_CANDIDATES := 64

  type OrderTree = seq<int>

  /** An association: which neighbours are multiplied first. */
  datatype Assoc = Leaf(index: nat) | Node(left: Assoc, right: Assoc)

  function Postfix(t: Assoc): OrderTree {
    match t
    case Leaf(i) => [i]
    case Node(l, r) => Postfix(l) + Postfix(r) + [MATMUL_TOKEN]
  }

  function Size(t: Assoc): (n: nat)
    ensures n >= 1
  {
    match t
    case Leaf(_) => 1
    case Node(l, r) => Size(l) + Size(r)
  }

  /** The leaves of `t` are `lo`, ..., `hi - 1`, each once and in order. */
  ghost predicate Spans(t: Assoc, lo: nat, hi: nat) {
    match t
    case Leaf(i) => i == lo && hi == lo + 1
    case Node(l, r) => Spans(l, lo, lo + Size(l)) && Spans(r, lo + Size(l), hi)
  }

  lemma {:induction false} SpansSize(t: Assoc, lo: nat, hi: nat)
    requires Spans(t, lo, hi)
    ensures hi == lo + Size(t)
  {
    if t.Node? { SpansSize(t.right, lo + Size(t.left), hi); }
  }

  // ----- a stack machine over tokens, generic in what it computes

  /** Push a leaf, or pop right then left and push their join; `None` is an error. */
  function Run<T>(tokens: OrderTree, leaf: int -> Option<T>, join: (T, T) -> Option<T>, stack: seq<T>): Option<seq<T>> {
    if tokens == [] then
      Some(stack)
    else if tokens[0] == MATMUL_TOKEN then
      var n := |stack|;
      if n < 2 then None else
        match join(stack[n - 2], stack[n - 1])
        case None => None
        case Some(v) => Run(tokens[1..], leaf, join, stack[..n - 2] + [v])
    else
      match leaf(tokens[0])
      case None => None
      case Some(v) => Run(tokens[1..], leaf, join, stack + [v])
  }

  /** The same computation by recursion over the association. */
  function Fold<T>(t: Assoc, leaf: int -> Option<T>, join: (T, T) -> Option<T>): Option<T> {
    match t
    case Leaf(i) => leaf(i)
    case Node(l, r) =>
      match Fold(l, leaf, join)
      case None => None
      case Some(x) =>
        match Fold(r, leaf, join)
        case None => None
        case Some(y) => join(x, y)
  }

  /** The machine on a postfix sequence pushes exactly the recursive value. */
  lemma {:induction false} RunPostfix<T>(t: Assoc, leaf: int -> Option<T>, join: (T, T) -> Option<T>, rest: OrderTree,
                                         stack: seq<T>)
    ensures Run(Postfix(t) + rest, leaf, join, stack)
         == match Fold(t, leaf, join)
            case None => None
            case Some(v) => Run(rest, leaf, join, stack + [v])
  {
    match t
    case Leaf(i) =>
      assert (Postfix(t) + rest)[1..] == rest;
    case Node(l, r) =>
      var afterLeft := Postfix(r) + ([MATMUL_TOKEN] + rest);
      assert Postfix(t) + rest == Postfix(l) + afterLeft;
      RunPostfix(l, leaf, join, afterLeft, stack);
      if Fold(l, leaf, join).Some? {
        var x := Fold(l, leaf, join).value;
        RunPostfix(r, leaf, join, [MATMUL_TOKEN] + rest, stack + [x]);
        if Fold(r, leaf, join).Some? {
          var y := Fold(r, leaf, join).value;
          var s := stack + [x] + [y];
          assert ([MATMUL_TOKEN] + rest)[1..] == rest;
          assert s[..|s| - 2] == stack && s[|s| - 2] == x && s[|s| - 1] == y;
        }
      }
  }

  ghost function PostfixAll(forest: seq<Assoc>): OrderTree {
    if forest == [] then [] else PostfixAll(forest[..|forest| - 1]) + Postfix(forest[|forest| - 1])
  }

  lemma PostfixAllPush(forest: seq<Assoc>, t: Assoc)
    ensures PostfixAll(forest + [t]) == PostfixAll(forest) + Postfix(t)
  {
    assert (forest + [t])[..|forest|] == forest;
  }

  ghost predicate FoldsTo<T(!new)>(forest: seq<Assoc>, leaf: int -> Option<T>, join: (T, T) -> Option<T>,
                                   stack: seq<T>) {
    |forest| == |stack| && forall k :: 0 <= k < |stack| ==> Fold(forest[k], leaf, join) == Some(stack[k])
  }

  lemma Reduce<T(!new)>(forest: seq<Assoc>, leaf: int -> Option<T>, join: (T, T) -> Option<T>, stack: seq<T>, v: T)
    requires FoldsTo(forest, leaf, join, stack) && |stack| >= 2
    requires join(stack[|stack| - 2], stack[|stack| - 1]) == Some(v)
    ensures var n := |stack|;
            var next := forest[..n - 2] + [Node(forest[n - 2], forest[n - 1])];
            FoldsTo(next, leaf, join, stack[..n - 2] + [v]) && PostfixAll(next) == PostfixAll(forest) + [MATMUL_TOKEN]
  {
    var n := |stack|;
    var base, l, r := forest[..n - 2], forest[n - 2], forest[n - 1];
    PostfixAllPush(base, Node(l, r));
    PostfixAllPush(base, l);
    PostfixAllPush(base + [l], r);
    assert forest == base + [l] + [r];
  }

  /** Whatever the machine ends with was written as postfix sequences. */
  lemma {:induction false} RunParses<T(!new)>(tokens: OrderTree, leaf: int -> Option<T>, join: (T, T) -> Option<T>,
                                              stack: seq<T>, forest: seq<Assoc>) returns (out: seq<Assoc>)
    requires FoldsTo(forest, leaf, join, stack)
    requires forall i :: i < 0 ==> leaf(i) == None
    requires Run(tokens, leaf, join, stack).Some?
    ensures FoldsTo(out, leaf, join, Run(tokens, leaf, join, stack).value)
    ensures PostfixAll(out) == PostfixAll(forest) + tokens
    decreases |tokens|
  {
    hide PostfixAll;
    var n := |stack|;
    if tokens == [] {
      out := forest;
    } else {
      var next, stack';
      if tokens[0] == MATMUL_TOKEN {
        var v := join(stack[n - 2], stack[n - 1]).value;
        Reduce(forest, leaf, join, stack, v);
        next, stack' := forest[..n - 2] + [Node(forest[n - 2], forest[n - 1])], stack[..n - 2] + [v];
      } else {
        PostfixAllPush(forest, Leaf(tokens[0]));
        next, stack' := forest + [Leaf(tokens[0])], stack + [leaf(tokens[0]).value];
      }
      out := RunParses(tokens[1..], leaf, join, stack', next);
      assert tokens == [tokens[0]] + tokens[1..];
    }
  }

  lemma RunParsesOne<T(!new)>(tokens: OrderTree, leaf: int -> Option<T>, join: (T, T) -> Option<T>, v: T)
    returns (t: Assoc)
    requires forall i :: i < 0 ==> leaf(i) == None
    requires Run(tokens, leaf, join, []) == Some([v])
    ensures Postfix(t) == tokens && Fold(t, leaf, join) == Some(v)
  {
    var out := RunParses(tokens, leaf, join, [], []);
    t := out[0];
    assert out == [] + [t];
    PostfixAllPush([], t);
    assert PostfixAll(out) == [] + Postfix(t) == Postfix(t);
    assert PostfixAll(out) == [] + tokens == tokens;
  }

  // ----- reading a postfix sequence back

  function ReadLeaf(token: int): Option<Assoc> {
    if token < 0 then None else Some(Leaf(token))
  }

  function ReadJoin(l: Assoc, r: Assoc): Option<Assoc> {
    Some(Node(l, r))
  }

  lemma {:induction false} ReadFold(t: Assoc)
    ensures Fold(t, ReadLeaf, ReadJoin) == Some(t)
  {
    if t.Node? { ReadFold(t.left); ReadFold(t.right); }
  }

  lemma ReadPostfix(t: Assoc)
    ensures Run(Postfix(t), ReadLeaf, ReadJoin, []) == Some([t])
  {
    assert Postfix(t) + [] == Postfix(t);
    RunPostfix(t, ReadLeaf, ReadJoin, [], []);
    ReadFold(t);
    assert [] + [t] == [t];
  }

  /** An association is determined by its postfix sequence. */
  lemma PostfixInjective(s: Assoc, t: Assoc)
    ensures Postfix(s) == Postfix(t) <==> s == t
  {
    ReadPostfix(s);
    ReadPostfix(t);
  }

  // ----- validation and cost

  datatype OrderError = LeafBudget | NegativeDimension | TokenCount | Underflow | ChangesOrder | UnknownToken
                      | NotEveryOperand | CandidateBudget

  datatype OrderCost = OrderCost(macs: int, outputShape: (int, int), intermediates: seq<int>, allocatedElements: int)

  function At(dimensions: seq<int>, i: nat): int {
    if i < |dimensions| then dimensions[i] else 0
  }

  function Total(s: seq<int>): int {
    if s == [] then 0 else Total(s[..|s| - 1]) + s[|s| - 1]
  }

  /** Multiply-accumulates of `t` over the operands from `lo` on, each product charged once. */
  ghost function Macs(t: Assoc, lo: nat, dimensions: seq<int>): int {
    match t
    case Leaf(_) => 0
    case Node(l, r) =>
      Macs(l, lo, dimensions) + Macs(r, lo + Size(l), dimensions)
      + At(dimensions, lo) * At(dimensions, lo + Size(l)) * At(dimensions, lo + Size(t))
  }

  /** Sizes of the products of `t`, in the order they are formed. */
  ghost function Outputs(t: Assoc, lo: nat, dimensions: seq<int>): seq<int> {
    match t
    case Leaf(_) => []
    case Node(l, r) =>
      Outputs(l, lo, dimensions) + Outputs(r, lo + Size(l), dimensions)
      + [At(dimensions, lo) * At(dimensions, lo + Size(t))]
  }

  ghost function Operands(lo: nat, hi: nat): seq<int>
    requires lo <= hi
  {
    seq(hi - lo, k requires 0 <= k < hi - lo => lo + k)
  }

  function InputSizes(dimensions: seq<int>): seq<int> {
    if |dimensions| < 2 then [] else
      seq(|dimensions| - 1, k requires 0 <= k < |dimensions| - 1 => dimensions[k] * dimensions[k + 1])
  }

  ghost function CostOf(t: Assoc, dimensions: seq<int>): OrderCost {
    var outputs := Outputs(t, 0, dimensions);
    OrderCost(Macs(t, 0, dimensions), (At(dimensions, 0), At(dimensions, Size(t))),
              if outputs == [] then [] else outputs[..|outputs| - 1],
              Total(InputSizes(dimensions)) + Total(outputs))
  }

  ghost predicate IsOrder(t: Assoc, tree: OrderTree, leaves: int) {
    leaves >= 0 && Postfix(t) == tree && Spans(t, 0, leaves)
  }

  function Leaves(dimensions: seq<int>): int {
    |dimensions| - 1
  }

  ghost predicate HasOrder(tree: OrderTree, leaves: int) {
    exists t :: IsOrder(t, tree, leaves)
  }

  ghost predicate Admissible(dimensions: seq<int>) {
    && 2 <= |dimensions| - 1 <= MAX_ORDER_LEAVES
    && forall k :: 0 <= k < |dimensions| ==> dimensions[k] >= 0
  }

  /** What one stack entry of the cost loop stands for. */
  datatype Piece = Piece(lo: nat, hi: nat, visited: seq<int>, macs: int, outputs: seq<int>)

  ghost function PieceLeaf(leaves: nat): int -> Option<Piece> {
    (token: int) => if 0 <= token < leaves then Some(Piece(token, token + 1, [token], 0, [])) else None
  }

  ghost function PieceJoin(dimensions: seq<int>): (Piece, Piece) -> Option<Piece> {
    (l: Piece, r: Piece) =>
      if l.hi != r.lo then None else
        Some(Piece(l.lo, r.hi, l.visited + r.visited,
                   l.macs + r.macs + At(dimensions, l.lo) * At(dimensions, l.hi) * At(dimensions, r.hi),
                   l.outputs + r.outputs + [At(dimensions, l.lo) * At(dimensions, r.hi)]))
  }

  ghost function PieceOf(t: Assoc, lo: nat, dimensions: seq<int>): Piece {
    Piece(lo, lo + Size(t), Operands(lo, lo + Size(t)), Macs(t, lo, dimensions), Outputs(t, lo, dimensions))
  }

  /** The cost machine accepts `t` exactly when its leaves are consecutive, and then costs it. */
  lemma {:induction false} FoldPiece(t: Assoc, leaves: nat, dimensions: seq<int>)
    ensures match Fold(t, PieceLeaf(leaves), PieceJoin(dimensions))
            case None => forall lo: nat, hi: nat :: hi <= leaves ==> !Spans(t, lo, hi)
            case Some(p) => Spans(t, p.lo, p.hi) && p.hi <= leaves && p == PieceOf(t, p.lo, dimensions)
  {
    var leaf, join := PieceLeaf(leaves), PieceJoin(dimensions);
    match t
    case Leaf(i) =>
      assert Operands(i, i + 1) == [i];
    case Node(l, r) =>
      FoldPiece(l, leaves, dimensions);
      FoldPiece(r, leaves, dimensions);
      forall lo: nat, hi: nat | hi <= leaves && Spans(t, lo, hi)
        ensures Spans(l, lo, lo + Size(l)) && Spans(r, lo + Size(l), hi) && lo + Size(l) <= leaves
      {
        SpansSize(t, lo, hi);
      }
      if Fold(l, leaf, join).Some? && Fold(r, leaf, join).Some? {
        JoinPieces(l, r, Fold(l, leaf, join).value, Fold(r, leaf, join).value, leaves, dimensions);
      }
  }

  lemma JoinPieces(l: Assoc, r: Assoc, p: Piece, q: Piece, leaves: nat, dimensions: seq<int>)
    requires Spans(l, p.lo, p.hi) && p == PieceOf(l, p.lo, dimensions)
    requires Spans(r, q.lo, q.hi) && q == PieceOf(r, q.lo, dimensions)
    ensures match PieceJoin(dimensions)(p, q)
            case None => forall lo: nat, hi: nat :: !Spans(Node(l, r), lo, hi)
            case Some(v) => Spans(Node(l, r), p.lo, q.hi) && v == PieceOf(Node(l, r), p.lo, dimensions)
  {
    SpansSize(l, p.lo, p.hi);
    SpansSize(r, q.lo, q.hi);
    if p.hi == q.lo {
      assert Operands(p.lo, p.hi) + Operands(p.hi, q.hi) == Operands(p.lo, q.hi);
    } else {
      forall lo: nat, hi: nat ensures !Spans(Node(l, r), lo, hi) {
        NotAdjacent(l, r, p.lo, p.hi, q.lo, q.hi, lo, hi);
      }
    }
  }

  lemma NotAdjacent(l: Assoc, r: Assoc, a: nat, b: nat, c: nat, d: nat, lo: nat, hi: nat)
    requires Spans(l, a, b) && Spans(r, c, d) && b != c
    ensures !Spans(Node(l, r), lo, hi)
  {
    SpansSize(l, a, b);
    if Spans(l, lo, lo + Size(l)) { SpansUnique(l, lo, lo + Size(l), a, b); }
    if Spans(r, lo + Size(l), hi) { SpansUnique(r, lo + Size(l), hi, c, d); }
  }

  lemma {:induction false} SpansUnique(t: Assoc, lo: nat, hi: nat, lo': nat, hi': nat)
    requires Spans(t, lo, hi) && Spans(t, lo', hi')
    ensures lo == lo' && hi == hi'
  {
    if t.Node? {
      SpansUnique(t.left, lo, lo + Size(t.left), lo', lo' + Size(t.left));
      SpansUnique(t.right, lo + Size(t.left), hi, lo' + Size(t.left), hi');
    }
  }

  ghost predicate Accepts(tree: OrderTree, dimensions: seq<int>, leaves: nat) {
    var r := Run(tree, PieceLeaf(leaves), PieceJoin(dimensions), []);
    r.Some? && |r.value| == 1 && r.value[0].lo == 0 && r.value[0].hi == leaves
  }

  /** The machine accepts exactly the postfix sequences of associations of all the leaves in order. */
  lemma AcceptsOrders(tree: OrderTree, dimensions: seq<int>, leaves: nat)
    ensures Accepts(tree, dimensions, leaves) <==> HasOrder(tree, leaves)
  {
    var leaf, join := PieceLeaf(leaves), PieceJoin(dimensions);
    if Accepts(tree, dimensions, leaves) {
      var p := Run(tree, leaf, join, []).value[0];
      assert [p] == Run(tree, leaf, join, []).value;
      var t := RunParsesOne(tree, leaf, join, p);
      FoldPiece(t, leaves, dimensions);
      assert IsOrder(t, tree, leaves);
    }
    if t :| IsOrder(t, tree, leaves) {
      OrderAccepted(t, tree, dimensions, leaves);
    }
  }

  lemma OrderAccepted(t: Assoc, tree: OrderTree, dimensions: seq<int>, leaves: nat)
    requires IsOrder(t, tree, leaves)
    ensures Run(tree, PieceLeaf(leaves), PieceJoin(dimensions), []) == Some([PieceOf(t, 0, dimensions)])
    ensures Size(t) == leaves
  {
    SpansSize(t, 0, leaves);
    FoldPiece(t, leaves, dimensions);
    var leaf, join := PieceLeaf(leaves), PieceJoin(dimensions);
    var p := Fold(t, leaf, join).value;
    SpansUnique(t, 0, leaves, p.lo, p.hi);
    RunPostfix(t, leaf, join, [], []);
    assert Postfix(t) + [] == tree && [] + [p] == [p];
  }

  lemma {:induction false} PostfixLength(t: Assoc)
    ensures |Postfix(t)| == 2 * Size(t) - 1
  {
    if t.Node? { PostfixLength(t.left); PostfixLength(t.right); }
  }

  // ----- the loop state of the cost computation as pieces

  ghost function AllVisited(pieces: seq<Piece>): seq<int> {
    if pieces == [] then [] else AllVisited(pieces[..|pieces| - 1]) + pieces[|pieces| - 1].visited
  }

  ghost function AllMacs(pieces: seq<Piece>): int {
    if pieces == [] then 0 else AllMacs(pieces[..|pieces| - 1]) + pieces[|pieces| - 1].macs
  }

  ghost function AllOutputs(pieces: seq<Piece>): seq<int> {
    if pieces == [] then [] else AllOutputs(pieces[..|pieces| - 1]) + pieces[|pieces| - 1].outputs
  }

  lemma PiecesPush(pieces: seq<Piece>, p: Piece)
    ensures AllVisited(pieces + [p]) == AllVisited(pieces) + p.visited
    ensures AllMacs(pieces + [p]) == AllMacs(pieces) + p.macs
    ensures AllOutputs(pieces + [p]) == AllOutputs(pieces) + p.outputs
  {
    assert (pieces + [p])[..|pieces|] == pieces;
  }

  ghost predicate Matches(pieces: seq<Piece>, stack: seq<(nat, nat)>, leaves: nat, visited: seq<int>, macs: int,
                          outputs: seq<int>) {
    && |pieces| == |stack|
    && (forall k :: 0 <= k < |stack| ==>
        stack[k] == (pieces[k].lo, pieces[k].hi) && stack[k].0 <= leaves && stack[k].1 <= leaves)
    && visited == AllVisited(pieces) && macs == AllMacs(pieces) && outputs == AllOutputs(pieces)
  }

  lemma JoinStep(pieces: seq<Piece>, stack: seq<(nat, nat)>, leaves: nat, visited: seq<int>, macs: int,
                 outputs: seq<int>,
                 dimensions: seq<int>, v: Piece)
    requires |dimensions| == leaves + 1 && |stack| >= 2
    requires Matches(pieces, stack, leaves, visited, macs, outputs)
    requires PieceJoin(dimensions)(pieces[|pieces| - 2], pieces[|pieces| - 1]) == Some(v)
    ensures var n := |stack|;
            var (left, right) := (stack[n - 2], stack[n - 1]);
            Matches(pieces[..n - 2] + [v], stack[..n - 2] + [(left.0, right.1)], leaves, visited,
                    macs + dimensions[left.0] * dimensions[left.1] * dimensions[right.1],
                    outputs + [dimensions[left.0] * dimensions[right.1]])
  {
    var n := |pieces|;
    var base, l, r := pieces[..n - 2], pieces[n - 2], pieces[n - 1];
    assert pieces == base + [l] + [r];
    PiecesPush(base, v);
    PiecesPush(base, l);
    PiecesPush(base + [l], r);
  }

  lemma EmptyMatches(leaves: nat)
    ensures Matches([], [], leaves, [], 0, [])
  {
  }

  lemma PushStep(pieces: seq<Piece>, stack: seq<(nat, nat)>, leaves: nat, visited: seq<int>, macs: int,
                 outputs: seq<int>, token: nat)
    requires Matches(pieces, stack, leaves, visited, macs, outputs) && token < leaves
    ensures PieceLeaf(leaves)(token).Some?
    ensures Matches(pieces + [PieceLeaf(leaves)(token).value], stack + [(token, token + 1)], leaves,
                    visited + [token], macs, outputs)
  {
    PiecesPush(pieces, PieceLeaf(leaves)(token).value);
  }

  lemma FailedRun(tree: OrderTree, dimensions: seq<int>, leaves: nat)
    ensures Run(tree, PieceLeaf(leaves), PieceJoin(dimensions), []) == None ==> !HasOrder(tree, leaves)
  {
    AcceptsOrders(tree, dimensions, leaves);
  }

  lemma OrderLength(tree: OrderTree, dimensions: seq<int>, leaves: nat)
    ensures HasOrder(tree, leaves) ==> |tree| == 2 * leaves - 1
  {
    if HasOrder(tree, leaves) {
      var t :| IsOrder(t, tree, leaves);
      OrderAccepted(t, tree, dimensions, leaves);
      PostfixLength(t);
    }
  }

  datatype Walk = Walk(stack: seq<(nat, nat)>, visited: seq<int>, macs: int, outputs: seq<int>)

  /** The token loop: check operand order on a stack of spans while counting work. */
  method WalkTokens(tree: OrderTree, dimensions: seq<int>, leaves: nat)
    returns (r: Result<Walk, OrderError>, ghost pieces: seq<Piece>)
    requires |dimensions| == leaves + 1
    ensures r.Ok? <==> Run(tree, PieceLeaf(leaves), PieceJoin(dimensions), []).Some?
    ensures r.Err? ==> r.error in {Underflow, ChangesOrder, UnknownToken}
    ensures r.Ok? ==> Run(tree, PieceLeaf(leaves), PieceJoin(dimensions), []) == Some(pieces)
    ensures r.Ok? ==> Matches(pieces, r.value.stack, leaves, r.value.visited, r.value.macs, r.value.outputs)
  {
    hide AllVisited, AllMacs, AllOutputs;
    var stack: seq<(nat, nat)>, outputs, visited: seq<int>, macs := [], [], [], 0;
    ghost var leaf, join := PieceLeaf(leaves), PieceJoin(dimensions);
    pieces := [];
    EmptyMatches(leaves);
    for i := 0 to |tree|
      invariant Matches(pieces, stack, leaves, visited, macs, outputs)
      invariant Run(tree, leaf, join, []) == Run(tree[i..], leaf, join, pieces)
    {
      var token, n := tree[i], |stack|;
      assert tree[i..][1..] == tree[i + 1..];
      if token == MATMUL_TOKEN {
        if n < 2 {
          return Err(Underflow), pieces;
        }
        var right, left := stack[n - 1], stack[n - 2];
        if left.1 != right.0 {
          return Err(ChangesOrder), pieces;
        }
        ghost var v := join(pieces[n - 2], pieces[n - 1]).value;
        JoinStep(pieces, stack, leaves, visited, macs, outputs, dimensions, v);
        macs := macs + dimensions[left.0] * dimensions[left.1] * dimensions[right.1];
        outputs := outputs + [dimensions[left.0] * dimensions[right.1]];
        stack := stack[..n - 2] + [(left.0, right.1)];
        pieces := pieces[..n - 2] + [v];
      } else if 0 <= token < leaves {
        PushStep(pieces, stack, leaves, visited, macs, outputs, token);
        visited := visited + [token];
        stack := stack + [(token, token + 1)];
        pieces := pieces + [leaf(token).value];
      } else {
        return Err(UnknownToken), pieces;
      }
    }
    r := Ok(Walk(stack, visited, macs, outputs));
  }

  /** Validate a postfix association and count its work. */
  method TreeCost(tree: OrderTree, dimensions: seq<int>) returns (r: Result<OrderCost, OrderError>)
    ensures r.Ok? <==> Admissible(dimensions) && HasOrder(tree, Leaves(dimensions))
    ensures r.Ok? <==>
              && 3 <= |dimensions| <= 13 && HasOrder(tree, |dimensions| - 1)
              && forall d :: d in dimensions ==> d >= 0
    ensures r == Err(LeafBudget) <==> !(3 <= |dimensions| <= 13)
    ensures r == Err(NegativeDimension) <==> 3 <= |dimensions| <= 13 && exists d :: d in dimensions && d < 0
    ensures r == Err(TokenCount) <==>
              && 3 <= |dimensions| <= 13 && |tree| != 2 * |dimensions| - 3
              && forall d :: d in dimensions ==> d >= 0
    ensures r.Ok? ==> forall t :: IsOrder(t, tree, Leaves(dimensions)) ==> r.value == CostOf(t, dimensions)
  {
    hide HasOrder, IsOrder, CostOf, AllVisited, AllMacs, AllOutputs, Total, InputSizes;
    if !(2 <= |dimensions| - 1 <= MAX_ORDER_LEAVES) {
      return Err(LeafBudget);
    }
    var leaves: nat := |dimensions| - 1;
    if exists k :: 0 <= k < |dimensions| && dimensions[k] < 0 {
      ghost var k :| 0 <= k < |dimensions| && dimensions[k] < 0;
      assert dimensions[k] in dimensions;
      return Err(NegativeDimension);
    }
    OrderLength(tree, dimensions, leaves);
    if |tree| != 2 * leaves - 1 {
      return Err(TokenCount);
    }
    FailedRun(tree, dimensions, leaves);
    var walked, pieces := WalkTokens(tree, dimensions, leaves);
    if walked.Err? {
      return Err(walked.error);
    }
    var Walk(stack, visited, macs, outputs) := walked.value;
    if stack == [(0, leaves)] {
      OneSpan(tree, dimensions, leaves, pieces, visited, macs, outputs);
    } else {
      NotOneSpan(tree, dimensions, leaves, pieces, stack, visited, macs, outputs);
    }
    if visited != seq(leaves, k requires 0 <= k < leaves => k) || stack != [(0, leaves)] {
      return Err(NotEveryOperand);
    }
    r := Ok(OrderCost(macs, (dimensions[0], dimensions[leaves]),
                      if outputs == [] then [] else outputs[..|outputs| - 1],
                      Total(InputSizes(dimensions)) + Total(outputs)));
  }

  lemma NotOneSpan(tree: OrderTree, dimensions: seq<int>, leaves: nat, pieces: seq<Piece>, stack: seq<(nat, nat)>,
                   visited: seq<int>, macs: int, outputs: seq<int>)
    requires Run(tree, PieceLeaf(leaves), PieceJoin(dimensions), []) == Some(pieces)
    requires Matches(pieces, stack, leaves, visited, macs, outputs) && stack != [(0, leaves)]
    ensures !HasOrder(tree, leaves)
  {
    forall t ensures !IsOrder(t, tree, leaves) {
      if IsOrder(t, tree, leaves) {
        OrderAccepted(t, tree, dimensions, leaves);
      }
    }
  }

  /** One remaining span over all operands: the tokens are an order, every operand was
      visited once and in turn, and the counters hold its cost. */
  lemma OneSpan(tree: OrderTree, dimensions: seq<int>, leaves: nat, pieces: seq<Piece>,
                visited: seq<int>, macs: int, outputs: seq<int>)
    requires Run(tree, PieceLeaf(leaves), PieceJoin(dimensions), []) == Some(pieces) && |dimensions| == leaves + 1
    requires Matches(pieces, [(0, leaves)], leaves, visited, macs, outputs)
    ensures visited == Operands(0, leaves)
    ensures HasOrder(tree, leaves)
    ensures forall t :: IsOrder(t, tree, leaves) ==>
      OrderCost(macs, (dimensions[0], dimensions[leaves]), if outputs == [] then [] else outputs[..|outputs| - 1],
                Total(InputSizes(dimensions)) + Total(outputs)) == CostOf(t, dimensions)
  {
    AcceptsOrders(tree, dimensions, leaves);
    forall t | IsOrder(t, tree, leaves)
      ensures macs == Macs(t, 0, dimensions) && outputs == Outputs(t, 0, dimensions) && Size(t) == leaves
      ensures visited == Operands(0, leaves)
    {
      OrderAccepted(t, tree, dimensions, leaves);
      OnePiece(PieceOf(t, 0, dimensions));
    }
  }

  lemma OnePiece(p: Piece)
    ensures AllVisited([p]) == p.visited && AllMacs([p]) == p.macs && AllOutputs([p]) == p.outputs
  {
    PiecesPush([], p);
    assert [] + [p] == [p];
  }

  // ----- enumeration of all associations

  function With(l: Assoc, rs: seq<Assoc>): (r: seq<Assoc>)
    ensures |r| == |rs| && forall k :: 0 <= k < |rs| ==> r[k] == Node(l, rs[k])
  {
    seq(|rs|, k requires 0 <= k < |rs| => Node(l, rs[k]))
  }

  function Pairs(ls: seq<Assoc>, rs: seq<Assoc>): seq<Assoc> {
    if ls == [] then [] else With(ls[0], rs) + Pairs(ls[1..], rs)
  }

  /** Every association of `start..stop`, split points ascending, left before right. */
  function AllOrders(start: nat, stop: nat): seq<Assoc>
    requires start < stop
    decreases stop - start, stop + 1
  {
    if stop - start == 1 then [Leaf(start)] else SplitsFrom(start, start + 1, stop)
  }

  function SplitsFrom(start: nat, split: nat, stop: nat): seq<Assoc>
    requires start < split <= stop
    decreases stop - start, stop - split
  {
    if split == stop then []
    else Pairs(AllOrders(start, split), AllOrders(split, stop)) + SplitsFrom(start, split + 1, stop)
  }

  lemma {:induction false} InPairs(ls: seq<Assoc>, rs: seq<Assoc>, t: Assoc)
    ensures t in Pairs(ls, rs) <==> t.Node? && t.left in ls && t.right in rs
  {
    if ls != [] {
      InPairs(ls[1..], rs, t);
      assert ls == [ls[0]] + ls[1..];
      if t.Node? && t.left == ls[0] && t.right in rs {
        var k :| 0 <= k < |rs| && rs[k] == t.right;
        assert With(ls[0], rs)[k] == t;
      }
    }
  }

  /** The enumeration yields exactly the associations of the range. */
  lemma {:induction false} InAllOrders(start: nat, stop: nat, t: Assoc)
    requires start < stop
    ensures t in AllOrders(start, stop) <==> Spans(t, start, stop)
    decreases stop - start, stop + 1
  {
    if stop - start == 1 {
      if t.Node? && Spans(t, start, stop) { SpansSize(t, start, stop); }
    } else {
      InSplits(start, start + 1, stop, t);
    }
  }

  lemma {:induction false} InSplits(start: nat, split: nat, stop: nat, t: Assoc)
    requires start < split <= stop && stop - start >= 2
    ensures t in SplitsFrom(start, split, stop) <==> t.Node? && Spans(t, start, stop) && split <= start + Size(t.left)
    decreases stop - start, stop - split
  {
    if t.Node? && Spans(t, start, stop) { SpansSize(t, start, stop); }
    if split < stop {
      InPairs(AllOrders(start, split), AllOrders(split, stop), t);
      InSplits(start, split + 1, stop, t);
      if t.Node? {
        InAllOrders(start, split, t.left);
        InAllOrders(split, stop, t.right);
        if Spans(t.left, start, split) { SpansSize(t.left, start, split); }
      }
    }
  }

  lemma {:induction false} PairsDistinct(ls: seq<Assoc>, rs: seq<Assoc>)
    requires Distinct(ls) && Distinct(rs)
    ensures Distinct(Pairs(ls, rs)) && |Pairs(ls, rs)| == |ls| * |rs|
  {
    if ls != [] {
      PairsDistinct(ls[1..], rs);
      var first, rest := With(ls[0], rs), Pairs(ls[1..], rs);
      forall i, j | 0 <= i < |first| && 0 <= j < |rest| ensures first[i] != rest[j] {
        InPairs(ls[1..], rs, rest[j]);
        assert rest[j] in rest;
      }
      DistinctAppend(first, rest);
      assert |ls| * |rs| == |rs| + (|ls| - 1) * |rs|;
    }
  }

  lemma DistinctAppend<T>(a: seq<T>, b: seq<T>)
    requires Distinct(a) && Distinct(b)
    requires forall i, j :: 0 <= i < |a| && 0 <= j < |b| ==> a[i] != b[j]
    ensures Distinct(a + b)
  {
  }

  /** Segner's recurrence: associations by the position of the last product. */
  function Associations(n: nat): nat
    decreases n, n + 1
  {
    if n <= 1 then 1 else SplitCount(n, 1)
  }

  function SplitCount(n: nat, left: nat): nat
    requires left >= 1
    decreases n, n - left
  {
    if left >= n then 0 else Associations(left) * Associations(n - left) + SplitCount(n, left + 1)
  }

  /** No association is yielded twice, and their number follows Segner's recurrence. */
  lemma {:induction false} AllOrdersDistinct(start: nat, stop: nat)
    requires start < stop
    ensures Distinct(AllOrders(start, stop)) && |AllOrders(start, stop)| == Associations(stop - start)
    decreases stop - start, stop + 1
  {
    if stop - start >= 2 { SplitsDistinct(start, start + 1, stop); }
  }

  lemma {:induction false} SplitsDistinct(start: nat, split: nat, stop: nat)
    requires start < split <= stop && stop - start >= 2
    ensures Distinct(SplitsFrom(start, split, stop))
    ensures |SplitsFrom(start, split, stop)| == SplitCount(stop - start, split - start)
    decreases stop - start, stop - split
  {
    if split < stop {
      AllOrdersDistinct(start, split);
      AllOrdersDistinct(split, stop);
      SplitsDistinct(start, split + 1, stop);
      var here, later := Pairs(AllOrders(start, split), AllOrders(split, stop)), SplitsFrom(start, split + 1, stop);
      PairsDistinct(AllOrders(start, split), AllOrders(split, stop));
      forall i, j | 0 <= i < |here| && 0 <= j < |later| ensures here[i] != later[j] {
        assert here[i] in here && later[j] in later;
        InPairs(AllOrders(start, split), AllOrders(split, stop), here[i]);
        InAllOrders(start, split, here[i].left);
        SpansSize(here[i].left, start, split);
        InSplits(start, split + 1, stop, later[j]);
      }
      DistinctAppend(here, later);
    }
  }

  // ----- the order of the enumeration

  /** Earlier split first; at the same split the left parts decide, and then the right ones. */
  ghost predicate Before(s: Assoc, t: Assoc) {
    && s.Node? && t.Node?
    && (Size(s.left) < Size(t.left)
        || (Size(s.left) == Size(t.left)
            && (Before(s.left, t.left) || (s.left == t.left && Before(s.right, t.right)))))
  }

  ghost predicate Ascending(orders: seq<Assoc>) {
    forall i, j :: 0 <= i < j < |orders| ==> Before(orders[i], orders[j])
  }

  lemma AscendingAppend(a: seq<Assoc>, b: seq<Assoc>)
    requires Ascending(a) && Ascending(b)
    requires forall i, j :: 0 <= i < |a| && 0 <= j < |b| ==> Before(a[i], b[j])
    ensures Ascending(a + b)
  {
    hide Before;
  }

  lemma {:induction false} PairsAscend(ls: seq<Assoc>, rs: seq<Assoc>, n: nat)
    requires Ascending(ls) && Ascending(rs) && forall l :: l in ls ==> Size(l) == n
    ensures Ascending(Pairs(ls, rs))
  {
    if ls != [] {
      PairsAscend(ls[1..], rs, n);
      var first, rest := With(ls[0], rs), Pairs(ls[1..], rs);
      forall i, j | 0 <= i < |first| && 0 <= j < |rest| ensures Before(first[i], rest[j]) {
        assert rest[j] in rest;
        InPairs(ls[1..], rs, rest[j]);
        var k :| 0 <= k < |ls[1..]| && ls[1..][k] == rest[j].left;
        assert ls[0] in ls && ls[k + 1] in ls && Before(ls[0], ls[k + 1]);
      }
      AscendingAppend(first, rest);
    }
  }

  /** The enumeration takes the split points in ascending order, and for each of them the left parts before the right
      ones; so no two lists of all associations in this order differ. */
  lemma {:induction false} AllOrdersAscend(start: nat, stop: nat)
    requires start < stop
    ensures Ascending(AllOrders(start, stop))
    decreases stop - start, stop + 1
  {
    if stop - start >= 2 { SplitsAscend(start, start + 1, stop); }
  }

  lemma {:induction false} SplitsAscend(start: nat, split: nat, stop: nat)
    requires start < split <= stop && stop - start >= 2
    ensures Ascending(SplitsFrom(start, split, stop))
    decreases stop - start, stop - split
  {
    if split < stop {
      var ls, rs := AllOrders(start, split), AllOrders(split, stop);
      AllOrdersAscend(start, split);
      AllOrdersAscend(split, stop);
      SplitsAscend(start, split + 1, stop);
      forall l | l in ls ensures Size(l) == split - start {
        InAllOrders(start, split, l);
        SpansSize(l, start, split);
      }
      PairsAscend(ls, rs, split - start);
      var here, later := Pairs(ls, rs), SplitsFrom(start, split + 1, stop);
      forall i, j | 0 <= i < |here| && 0 <= j < |later| ensures Before(here[i], later[j]) {
        assert here[i] in here && later[j] in later;
        InPairs(ls, rs, here[i]);
        InSplits(start, split + 1, stop, later[j]);
      }
      AscendingAppend(here, later);
    }
  }
}
