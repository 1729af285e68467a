/** The bounded search plan: how many associations exist, and which are tried. */
module OrderPlan {
  import opened Results
  import opened Sorting
  import opened OrderTrees
  import opened Sets

  /** Binomial coefficients, as Python's `math.comb`. */
  function Comb(n: nat, k: nat): nat {
    if k == 0 then 1 else if n == 0 then 0 else Comb(n - 1, k - 1) + Comb(n - 1, k)
  }

  function AssociationCount(leaves: int): Result<nat, OrderError> {
    if !(2 <= leaves <= MAX_ORDER_LEAVES) then Err(LeafBudget)
    else Ok(Comb(2 * (leaves - 1), leaves - 1) / leaves)
  }

  lemma StepAlgebra(n: int, k: int, c: int, d: int, e: int)
    requires k * d == (n - k) * c && (k - 1) * c == (n - k + 1) * e
    ensures k * (c + d) == (n - k + 1) * (e + c)
  {
    assert k * (c + d) == k * c + (n - k) * c == n * c;
    assert (n - k + 1) * (e + c) == (k - 1) * c + (n - k + 1) * c == n * c;
  }

  lemma CentralAlgebra(n: int, b: int, c: int, d: int, c2: int)
    requires n * c2 == n * c && (n - 1) * b == n * d && c == d + b
    ensures n * (c + c2) == (4 * n - 2) * b
  {
    assert n * (c + c2) == 2 * (n * c);
    assert n * c == n * d + n * b == (2 * n - 1) * b;
  }

  /** Stepping along a row of binomial coefficients. */
  lemma {:induction false} CombStep(n: nat, k: nat)
    requires 1 <= k <= n
    ensures k * Comb(n, k) == (n - k + 1) * Comb(n, k - 1)
  {
    var c, d := Comb(n - 1, k - 1), Comb(n - 1, k);
    if k < n { CombStep(n - 1, k); } else { CombBeyond(n - 1, k); }
    if k >= 2 {
      var e := Comb(n - 1, k - 2);
      CombStep(n - 1, k - 1);
      StepAlgebra(n, k, c, d, e);
    } else {
      StepAlgebra(n, k, c, d, 0);
    }
  }

  lemma {:induction false} CombBeyond(n: nat, k: nat)
    requires k > n
    ensures Comb(n, k) == 0
  {
    if n > 0 {
      CombBeyond(n - 1, k - 1);
      CombBeyond(n - 1, k);
    }
  }

  /** From one central coefficient to the next. */
  lemma CentralStep(n: nat)
    requires n >= 1
    ensures n * Comb(2 * n, n) == (4 * n - 2) * Comb(2 * n - 2, n - 1)
  {
    var b, c, c2 := Comb(2 * n - 2, n - 1), Comb(2 * n - 1, n - 1), Comb(2 * n - 1, n);
    CombStep(2 * n - 1, n);
    if n >= 2 {
      var d := Comb(2 * n - 2, n - 2);
      CombStep(2 * n - 2, n - 1);
      CentralAlgebra(n, b, c, d, c2);
    } else {
      CentralAlgebra(n, b, c, 0, c2);
    }
  }

  /** The closed form counts the associations, for every chain the search admits. */
  lemma CountIsExact(leaves: nat)
    requires 2 <= leaves <= MAX_ORDER_LEAVES
    ensures AssociationCount(leaves) == Ok(Associations(leaves))
  {
    hide Comb, Associations;
    var n := leaves - 1;
    CentralTable(n);
    assert n + 1 == leaves;
    assert AssociationCount(leaves) == Ok(Comb(2 * n, n) / leaves);
    DivideBack(Associations(leaves), leaves);
  }

  lemma MultipleIsFar(a: int, k: int)
    requires k > 0
    ensures a >= 1 ==> a * k >= k
    ensures a <= -1 ==> a * k <= -k
  {
  }

  lemma DivideBack(x: nat, k: nat)
    requires k > 0
    ensures k * x / k == x
  {
    var q := k * x / k;
    assert (x - q) * k == k * x % k;
    MultipleIsFar(x - q, k);
  }

  lemma {:induction false} CentralTable(n: nat)
    requires 1 <= n < MAX_ORDER_LEAVES
    ensures Comb(2 * n, n) == (n + 1) * Associations(n + 1)
  {
    CentralStep(n);
    if n > 1 {
      CentralTable(n - 1);
      assert 2 * (n - 1) == 2 * n - 2;
    }
    NextCentral(n, Comb(2 * n - 2, n - 1), Comb(2 * n, n));
  }

  lemma NextCentral(n: nat, b: nat, c: nat)
    requires 1 <= n < MAX_ORDER_LEAVES && n * c == (4 * n - 2) * b && b == n * Associations(n)
    ensures c == (n + 1) * Associations(n + 1)
  {
    SegnerTable();
    match n
    case 1 => case 2 => case 3 => case 4 => case 5 => case 6 => case 7 => case 8 => case 9 => case 10 => case 11 =>
  }

  lemma SegnerTable()
    ensures Associations(2) == 1 && Associations(3) == 2 && Associations(4) == 5 && Associations(5) == 14
    ensures Associations(6) == 42 && Associations(7) == 132 && Associations(8) == 429 && Associations(9) == 1430
    ensures Associations(10) == 4862 && Associations(11) == 16796 && Associations(12) == 58786
  {
  }

  /** The trees other than the original, in enumeration order. */
  ghost function Others(original: OrderTree, orders: seq<Assoc>): seq<OrderTree> {
    if orders == [] then [] else
      Others(original, orders[..|orders| - 1])
      + if Postfix(orders[|orders| - 1]) == original then [] else [Postfix(orders[|orders| - 1])]
  }

  ghost predicate Among(tree: OrderTree, orders: seq<Assoc>) {
    exists k :: 0 <= k < |orders| && Postfix(orders[k]) == tree
  }

  lemma AmongLast(tree: OrderTree, orders: seq<Assoc>)
    requires orders != []
    ensures Among(tree, orders) <==> Among(tree, orders[..|orders| - 1]) || Postfix(orders[|orders| - 1]) == tree
  {
    var n := |orders| - 1;
    if Among(tree, orders[..n]) {
      var k :| 0 <= k < n && Postfix(orders[..n][k]) == tree;
      assert orders[k] == orders[..n][k];
    }
    if Among(tree, orders) {
      var k :| 0 <= k < |orders| && Postfix(orders[k]) == tree;
      if k < n { assert orders[..n][k] == orders[k]; }
    }
  }

  lemma {:induction false} OthersMembers(original: OrderTree, orders: seq<Assoc>, tree: OrderTree)
    ensures tree in Others(original, orders) <==> tree != original && Among(tree, orders)
  {
    if orders != [] {
      OthersMembers(original, orders[..|orders| - 1], tree);
      AmongLast(tree, orders);
    }
  }

  lemma NewTree(orders: seq<Assoc>)
    requires orders != [] && Distinct(orders)
    ensures !Among(Postfix(orders[|orders| - 1]), orders[..|orders| - 1])
  {
    var n := |orders| - 1;
    forall k | 0 <= k < n ensures Postfix(orders[..n][k]) != Postfix(orders[n]) {
      assert orders[..n][k] == orders[k];
      PostfixInjective(orders[k], orders[n]);
    }
  }

  lemma {:induction false} OthersDistinct(original: OrderTree, orders: seq<Assoc>)
    requires Distinct(orders)
    ensures Distinct(Others(original, orders))
    ensures |Others(original, orders)| == |orders| - if Among(original, orders) then 1 else 0
  {
    if orders != [] {
      var n := |orders| - 1;
      OthersDistinct(original, orders[..n]);
      AmongLast(original, orders);
      NewTree(orders);
      OthersMembers(original, orders[..n], Postfix(orders[n]));
    }
  }

  /** The original, then the first `maximum - 1` of the others. */
  ghost function Plan(original: OrderTree, orders: seq<Assoc>, maximum: nat): seq<OrderTree>
    requires maximum >= 1
  {
    var others := Others(original, orders);
    [original] + if |others| < maximum then others else others[..maximum - 1]
  }

  ghost predicate IsPlan(r: seq<OrderTree>, original: OrderTree, leaves: nat, maximum: nat) {
    && r != [] && r[0] == original
    && Distinct(r)
    && (forall k :: 0 <= k < |r| ==> HasOrder(r[k], leaves))
    && |r| == if maximum < Associations(leaves) then maximum else Associations(leaves)
  }

  /** Keep the original first and take a bounded distinct prefix of the others. */
  method PlannedTrees(original: OrderTree, dimensions: seq<int>, maximum: int)
    returns (r: Result<seq<OrderTree>, OrderError>)
    ensures r.Ok? <==>
              Admissible(dimensions) && HasOrder(original, Leaves(dimensions)) && 1 <= maximum <= MAX_ORDER_CANDIDATES
    ensures r.Ok? ==> r.value == Plan(original, AllOrders(0, Leaves(dimensions)), maximum)
    ensures r.Ok? ==> IsPlan(r.value, original, Leaves(dimensions), maximum)
  {
    hide HasOrder, CostOf, IsOrder, Plan, IsPlan, AllOrders, Associations;
    var cost := TreeCost(original, dimensions);
    if cost.Err? {
      return Err(cost.error);
    }
    if !(1 <= maximum <= MAX_ORDER_CANDIDATES) {
      return Err(CandidateBudget);
    }
    var planned := TakePlan(original, AllOrders(0, |dimensions| - 1), maximum);
    PlanProperties(original, |dimensions| - 1, maximum);
    return Ok(planned);
  }

  /** The generator is read only until the plan is full. */
  method TakePlan(original: OrderTree, orders: seq<Assoc>, maximum: nat) returns (planned: seq<OrderTree>)
    requires maximum >= 1
    ensures planned == Plan(original, orders, maximum)
  {
    planned := [original];
    var i := 0;
    while i < |orders| && |planned| < maximum
      invariant i <= |orders| && 1 <= |planned| <= maximum
      invariant planned == [original] + Others(original, orders[..i])
    {
      assert orders[..i + 1][..i] == orders[..i];
      if Postfix(orders[i]) != original {
        planned := planned + [Postfix(orders[i])];
      }
      i := i + 1;
    }
    OthersPrefix(original, orders, i);
    assert orders[..|orders|] == orders;
  }

  lemma {:induction false} OthersPrefix(original: OrderTree, orders: seq<Assoc>, i: nat)
    requires i <= |orders|
    ensures Others(original, orders[..i]) <= Others(original, orders)
    decreases |orders| - i
  {
    if i < |orders| {
      assert orders[..i + 1][..i] == orders[..i];
      OthersPrefix(original, orders, i + 1);
    } else {
      assert orders[..i] == orders;
    }
  }

  lemma PlanProperties(original: OrderTree, leaves: nat, maximum: nat)
    requires leaves >= 2 && HasOrder(original, leaves) && maximum >= 1
    ensures IsPlan(Plan(original, AllOrders(0, leaves), maximum), original, leaves, maximum)
  {
    var orders := AllOrders(0, leaves);
    var others := Others(original, orders);
    AllOrdersDistinct(0, leaves);
    OthersDistinct(original, orders);
    var t :| IsOrder(t, original, leaves);
    InAllOrders(0, leaves, t);
    var k :| 0 <= k < |orders| && orders[k] == t;
    assert Postfix(orders[k]) == original;
    assert Among(original, orders);
    forall j | 0 <= j < |others| ensures HasOrder(others[j], leaves) && others[j] != original {
      OthersMembers(original, orders, others[j]);
      var i :| 0 <= i < |orders| && Postfix(orders[i]) == others[j];
      InAllOrders(0, leaves, orders[i]);
      assert IsOrder(orders[i], others[j], leaves);
    }
  }

  /** The others keep the order of the enumeration. */
  lemma {:induction false} OthersAscend(original: OrderTree, orders: seq<Assoc>, j: nat, k: nat, s: Assoc, t: Assoc)
    requires Ascending(orders) && j < k < |Others(original, orders)|
    requires Postfix(s) == Others(original, orders)[j] && Postfix(t) == Others(original, orders)[k]
    ensures Before(s, t)
  {
    hide Before, Postfix;
    var n := |orders| - 1;
    var earlier := Others(original, orders[..n]);
    if k < |earlier| {
      OthersAscend(original, orders[..n], j, k, s, t);
    } else {
      assert Postfix(s) in earlier by { assert earlier[j] == Postfix(s); }
      OthersMembers(original, orders[..n], Postfix(s));
      var i :| 0 <= i < n && Postfix(orders[..n][i]) == Postfix(s);
      PostfixInjective(orders[i], s);
      PostfixInjective(orders[n], t);
    }
  }

  /** A plan takes the associations in the order of the enumeration and leaves none out before the last it takes: after
      the original, a planned one comes before any later planned one and before any that is not planned. */
  lemma PlanTakesFirst(original: OrderTree, leaves: nat, maximum: nat, k: nat, s: Assoc, t: Assoc)
    requires leaves >= 2 && maximum >= 1 && Spans(s, 0, leaves) && Spans(t, 0, leaves)
    requires var plan := Plan(original, AllOrders(0, leaves), maximum);
             && 1 <= k < |plan| && plan[k] == Postfix(s)
             && Postfix(t) !in plan[..k + 1]
    ensures Before(s, t)
  {
    hide Before, Postfix, AllOrders;
    var orders := AllOrders(0, leaves);
    var others := Others(original, orders);
    var plan := Plan(original, orders, maximum);
    AllOrdersAscend(0, leaves);
    InAllOrders(0, leaves, t);
    var i :| 0 <= i < |orders| && orders[i] == t;
    assert Among(Postfix(t), orders);
    assert plan[0] in plan[..k + 1];
    OthersMembers(original, orders, Postfix(t));
    forall j | 0 <= j < k ensures others[j] in plan[..k + 1] {
      assert plan[..k + 1][j + 1] == others[j];
    }
    var m :| 0 <= m < |others| && others[m] == Postfix(t);
    assert others[k - 1] == plan[k];
    OthersAscend(original, orders, k - 1, m, s, t);
  }

  lemma LongPlanCovers(r: seq<OrderTree>, leaves: nat)
    requires leaves >= 1 && Distinct(r) && forall k :: 0 <= k < |r| ==> HasOrder(r[k], leaves)
    requires |r| == Associations(leaves)
    ensures forall tree :: HasOrder(tree, leaves) ==> tree in r
  {
    hide AllOrders, Spans, Postfix;
    var all, read := SetOf(AllOrders(0, leaves)), TreesOf(r, leaves);
    AllOrdersDistinct(0, leaves);
    DistinctBySize(AllOrders(0, leaves));
    forall t | t in read ensures t in all {
      InAllOrders(0, leaves, t);
    }
    SameSize(read, all);
    forall tree | HasOrder(tree, leaves) ensures tree in r {
      var t :| IsOrder(t, tree, leaves);
      InAllOrders(0, leaves, t);
      assert t in read;
    }
  }

  lemma CoverIsLong(r: seq<OrderTree>, leaves: nat)
    requires leaves >= 1 && Distinct(r) && forall k :: 0 <= k < |r| ==> HasOrder(r[k], leaves)
    requires forall tree :: HasOrder(tree, leaves) ==> tree in r
    ensures |r| >= Associations(leaves)
  {
    var all, read := SetOf(AllOrders(0, leaves)), TreesOf(r, leaves);
    AllOrdersDistinct(0, leaves);
    DistinctBySize(AllOrders(0, leaves));
    forall t | t in all ensures t in read {
      InAllOrders(0, leaves, t);
      assert IsOrder(t, Postfix(t), leaves);
      assert HasOrder(Postfix(t), leaves);
    }
    NoLarger(all, read);
  }

  /** A plan as long as the association count has every association in it, and conversely. */
  lemma FullPlanCoversAll(r: seq<OrderTree>, original: OrderTree, leaves: nat, maximum: nat)
    requires 2 <= leaves <= MAX_ORDER_LEAVES && IsPlan(r, original, leaves, maximum)
    ensures |r| == AssociationCount(leaves).value <==> forall tree :: HasOrder(tree, leaves) ==> tree in r
  {
    CountIsExact(leaves);
    if |r| == Associations(leaves) { LongPlanCovers(r, leaves); }
    if forall tree :: HasOrder(tree, leaves) ==> tree in r { CoverIsLong(r, leaves); }
  }

  /** The associations that a list of distinct orders stands for; as many as the list is long. */
  ghost function TreesOf(r: seq<OrderTree>, leaves: nat): (s: set<Assoc>)
    requires Distinct(r) && forall k :: 0 <= k < |r| ==> HasOrder(r[k], leaves)
    ensures forall t :: t in s <==> Spans(t, 0, leaves) && Postfix(t) in r
    ensures |s| == |r|
  {
    if r == [] then {} else
      var n := |r| - 1;
      assert HasOrder(r[n], leaves);
      var t :| IsOrder(t, r[n], leaves);
      var rest := TreesOf(r[..n], leaves);
      assert Postfix(t) !in r[..n];
      OnlyReading(t, r, leaves);
      rest + {t}
  }

  lemma OnlyReading(t: Assoc, r: seq<OrderTree>, leaves: nat)
    requires r != [] && IsOrder(t, r[|r| - 1], leaves)
    ensures forall s :: Postfix(s) in r <==> Postfix(s) in r[..|r| - 1] || s == t
  {
    forall s ensures Postfix(s) in r <==> Postfix(s) in r[..|r| - 1] || s == t {
      PostfixInjective(s, t);
      assert r == r[..|r| - 1] + [r[|r| - 1]];
    }
  }
}
