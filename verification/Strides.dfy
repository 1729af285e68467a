/** The storage test that a strided layout gives every element its own address. */
module Strides {
  import opened Sorting

  type Dim = (int, int)  // stride, size

  predicate DimLeq(a: Dim, b: Dim) {
    a.0 < b.0 || (a.0 == b.0 && a.1 <= b.1)
  }

  function Zip(shape: seq<int>, strides: seq<int>): (r: seq<Dim>)
    requires |shape| == |strides|
    ensures |r| == |shape| && forall k :: 0 <= k < |r| ==> r[k] == (strides[k], shape[k])
  {
    seq(|shape|, k requires 0 <= k < |shape| => (strides[k], shape[k]))
  }

  /** The step from the first to the last element along one dimension. */
  ghost function Extent(d: Dim): int {
    if d.1 <= 1 then 0 else (d.1 - 1) * d.0
  }

  /** Total extent of the dimensions with a stride up to `bound`. */
  ghost function ExtentUpTo(dims: seq<Dim>, bound: int): int {
    if dims == [] then 0 else
      ExtentUpTo(dims[..|dims| - 1], bound) + if dims[|dims| - 1].0 <= bound then Extent(dims[|dims| - 1]) else 0
  }

  ghost predicate NonNegative(dims: seq<Dim>) {
    forall k :: 0 <= k < |dims| ==> dims[k].0 >= 0 && dims[k].1 >= 0
  }

  /** No dimension's stride is reached by the others of no larger stride together. */
  ghost predicate Separated(dims: seq<Dim>) {
    forall k :: 0 <= k < |dims| && dims[k].1 > 1 ==> ExtentUpTo(dims, dims[k].0) < dims[k].1 * dims[k].0
  }

  lemma {:induction false} ExtentAppend(a: seq<Dim>, b: seq<Dim>, bound: int)
    ensures ExtentUpTo(a + b, bound) == ExtentUpTo(a, bound) + ExtentUpTo(b, bound)
  {
    if b == [] {
      assert a + b == a;
    } else {
      var n := |b| - 1;
      assert (a + b)[..|a + b| - 1] == a + b[..n];
      ExtentAppend(a, b[..n], bound);
    }
  }

  /** The total does not depend on the order of the dimensions. */
  lemma {:induction false} ExtentPermuted(a: seq<Dim>, b: seq<Dim>, bound: int)
    requires multiset(a) == multiset(b)
    ensures ExtentUpTo(a, bound) == ExtentUpTo(b, bound)
    decreases |a|
  {
    SameMultiset(a, b);
    if a != [] {
      var n := |a| - 1;
      assert a[n] in b;
      var k :| 0 <= k < |b| && b[k] == a[n];
      assert a == a[..n] + [a[n]];
      assert b == b[..k] + [b[k]] + b[k + 1..];
      assert multiset(a[..n]) == multiset(a) - multiset{a[n]};
      assert multiset(b[..k] + b[k + 1..]) == multiset(b) - multiset{b[k]};
      ExtentPermuted(a[..n], b[..k] + b[k + 1..], bound);
      ExtentAppend(b[..k], b[k + 1..], bound);
      ExtentAppend(b[..k], [b[k]], bound);
      ExtentAppend(b[..k] + [b[k]], b[k + 1..], bound);
      ExtentAppend(a[..n], [a[n]], bound);
    }
  }

  lemma SeparatedPermuted(a: seq<Dim>, b: seq<Dim>)
    requires multiset(a) == multiset(b) && Separated(a)
    ensures Separated(b)
  {
    SameMultiset(a, b);
    forall k | 0 <= k < |b| && b[k].1 > 1 ensures ExtentUpTo(b, b[k].0) < b[k].1 * b[k].0 {
      assert b[k] in a;
      var i :| 0 <= i < |a| && a[i] == b[k];
      ExtentPermuted(a, b, b[k].0);
    }
  }

  lemma {:induction false} ExtentNonNegative(dims: seq<Dim>, bound: int)
    requires NonNegative(dims)
    ensures ExtentUpTo(dims, bound) >= 0
  {
    if dims != [] {
      var d := dims[|dims| - 1];
      assert d.1 > 1 ==> (d.1 - 1) * d.0 >= 0;
      ExtentNonNegative(dims[..|dims| - 1], bound);
    }
  }

  // ----- the test

  /** The element addresses of a shape: every index inside it. */
  ghost predicate InShape(index: seq<int>, shape: seq<int>) {
    |index| == |shape| && forall k :: 0 <= k < |shape| ==> 0 <= index[k] < shape[k]
  }

  ghost function Offset(index: seq<int>, strides: seq<int>): int
    requires |index| == |strides|
  {
    if index == [] then 0 else
      var n := |index| - 1;
      Offset(index[..n], strides[..n]) + index[n] * strides[n]
  }

  ghost predicate Injective(shape: seq<int>, strides: seq<int>)
    requires |shape| == |strides|
  {
    forall i, j :: InShape(i, shape) && InShape(j, shape) && Offset(i, strides) == Offset(j, strides) ==> i == j
  }

  /** What the test decides, free of any order of the dimensions. */
  ghost predicate Accepted(shape: seq<int>, strides: seq<int>) {
    && |shape| == |strides|
    && (forall k :: 0 <= k < |shape| ==> shape[k] >= 0 && strides[k] >= 0)
    && (0 in shape || Separated(Zip(shape, strides)))
  }

  /** The accepted prefix of the sorted dimensions, with `covered` one more than its extent. */
  ghost predicate Stepped(p: seq<Dim>, i: nat, covered: int)
    requires i <= |p|
  {
    && covered == 1 + TotalExtent(p[..i])
    && forall k :: 0 <= k < i && p[k].1 > 1 ==> p[k].0 > TotalExtent(p[..k])
  }

  ghost function TotalExtent(dims: seq<Dim>): int {
    if dims == [] then 0 else TotalExtent(dims[..|dims| - 1]) + Extent(dims[|dims| - 1])
  }

  function SortedDims(dims: seq<Dim>): (p: seq<Dim>)
    ensures Sorted(DimLeq, p) && multiset(p) == multiset(dims)
  {
    DimOrder();
    Sort(DimLeq, dims)
  }

  lemma FirstStep(p: seq<Dim>)
    ensures Stepped(p, 0, 1)
  {
  }

  lemma NextStep(p: seq<Dim>, i: nat, covered: int)
    requires i < |p| && Stepped(p, i, covered)
    ensures p[i].1 <= 1 ==> Stepped(p, i + 1, covered)
    ensures p[i].1 > 1 && p[i].0 >= covered ==> Stepped(p, i + 1, covered + (p[i].1 - 1) * p[i].0)
    ensures p[i].1 > 1 && p[i].0 < covered ==> p[i].0 <= TotalExtent(p[..i])
  {
    assert p[..i + 1][..i] == p[..i];
  }

  /** `last` is the running `covered` of an accepted layout when the loop ends. */
  method InjectiveStrides(shape: seq<int>, strides: seq<int>) returns (ok: bool, ghost last: int)
    ensures ok <==> Accepted(shape, strides)
    ensures ok ==> Injective(shape, strides)
    ensures ok && 0 !in shape ==> last == TotalExtent(Zip(shape, strides)) + 1
  {
    hide Injective, ExtentUpTo, Separated, Sorted, Stepped, TotalExtent;
    if |shape| != |strides| || exists k :: 0 <= k < |shape| && (shape[k] < 0 || strides[k] < 0) {
      return false, 0;
    }
    if 0 in shape {
      ZeroInjective(shape, strides);
      return true, 0;
    }
    var dims := Zip(shape, strides);
    var p := SortedDims(dims);
    var covered := 1;
    FirstStep(p);
    for i := 0 to |p|
      invariant Stepped(p, i, covered)
    {
      NextStep(p, i, covered);
      var (stride, size) := p[i];
      if size <= 1 {
        continue;
      }
      if stride < covered {
        SortedRejects(dims, p, i);
        return false, 0;
      }
      covered := covered + (size - 1) * stride;
    }
    AllStepped(dims, p, covered);
    AcceptedInjective(shape, strides);
    return true, covered;
  }

  lemma AllStepped(dims: seq<Dim>, p: seq<Dim>, covered: int)
    requires Arranged(dims, p) && Stepped(p, |p|, covered)
    ensures Separated(dims) && covered == TotalExtent(dims) + 1
  {
    SortedAccepts(dims, p);
    TotalPermuted(p, dims);
    assert p[..|p|] == p;
  }

  lemma DimOrder()
    ensures TotalOrder(DimLeq)
  {
  }

  lemma NoIndex(i: seq<int>, shape: seq<int>)
    requires 0 in shape
    ensures !InShape(i, shape)
  {
    var k :| 0 <= k < |shape| && shape[k] == 0;
    if |i| == |shape| { assert !(0 <= i[k] < shape[k]); }
  }

  lemma ZeroInjective(shape: seq<int>, strides: seq<int>)
    requires |shape| == |strides| && 0 in shape
    ensures Injective(shape, strides)
  {
    forall i ensures !InShape(i, shape) {
      NoIndex(i, shape);
    }
  }

  // ----- the sorted loop decides separation

  lemma {:induction false} PrefixBelow(p: seq<Dim>, k: nat, bound: int)
    requires k <= |p| && forall j :: 0 <= j < k ==> p[j].0 <= bound
    ensures ExtentUpTo(p[..k], bound) == TotalExtent(p[..k])
  {
    if k > 0 {
      assert p[..k][..k - 1] == p[..k - 1];
      PrefixBelow(p, k - 1, bound);
    }
  }

  lemma {:induction false} NoneBelow(dims: seq<Dim>, bound: int)
    requires forall j :: 0 <= j < |dims| && dims[j].1 > 1 ==> dims[j].0 > bound
    ensures ExtentUpTo(dims, bound) == 0
  {
    if dims != [] { NoneBelow(dims[..|dims| - 1], bound); }
  }

  ghost predicate Arranged(dims: seq<Dim>, p: seq<Dim>) {
    NonNegative(dims) && Sorted(DimLeq, p) && multiset(p) == multiset(dims)
  }

  lemma ArrangedNonNegative(dims: seq<Dim>, p: seq<Dim>)
    requires Arranged(dims, p)
    ensures NonNegative(p)
  {
    SameMultiset(dims, p);
    forall k | 0 <= k < |p| ensures p[k].0 >= 0 && p[k].1 >= 0 {
      assert p[k] in dims;
    }
  }

  lemma ExtentAround(p: seq<Dim>, i: nat)
    requires i < |p| && p[i].1 > 1
    ensures ExtentUpTo(p, p[i].0) == ExtentUpTo(p[..i], p[i].0) + (p[i].1 - 1) * p[i].0 + ExtentUpTo(p[i + 1..], p[i].0)
  {
    hide ExtentUpTo;
    assert p == p[..i] + [p[i]] + p[i + 1..];
    ExtentAppend(p[..i] + [p[i]], p[i + 1..], p[i].0);
    ExtentAppend(p[..i], [p[i]], p[i].0);
    ExtentOfOne(p[i]);
  }

  lemma SortedRejects(dims: seq<Dim>, p: seq<Dim>, i: nat)
    requires Arranged(dims, p) && i < |p| && p[i].1 > 1 && p[i].0 <= TotalExtent(p[..i])
    ensures !Separated(dims)
  {
    var bound := p[i].0;
    ArrangedNonNegative(dims, p);
    PrefixBelow(p, i, bound);
    ExtentAround(p, i);
    ExtentNonNegative(p[i + 1..], bound);
    assert p[i].1 * bound == (p[i].1 - 1) * bound + bound;
    assert !Separated(p);
    if Separated(dims) { SeparatedPermuted(dims, p); }
  }

  lemma SortedAccepts(dims: seq<Dim>, p: seq<Dim>)
    requires Arranged(dims, p)
    requires forall k :: 0 <= k < |p| && p[k].1 > 1 ==> p[k].0 > TotalExtent(p[..k])
    ensures Separated(dims)
  {
    ArrangedNonNegative(dims, p);
    forall k | 0 <= k < |p| && p[k].1 > 1 ensures ExtentUpTo(p, p[k].0) < p[k].1 * p[k].0 {
      var bound := p[k].0;
      forall j | k < j < |p| && p[j].1 > 1 ensures p[j].0 > bound {
        LaterIsLarger(p, k, j);
      }
      NoneBelow(p[k + 1..], bound);
      PrefixBelow(p, k, bound);
      ExtentAround(p, k);
      assert p[k].1 * bound == (p[k].1 - 1) * bound + bound;
    }
    SeparatedPermuted(p, dims);
  }

  lemma {:induction false} TotalExtentMonotone(p: seq<Dim>, i: nat, j: nat)
    requires NonNegative(p) && i <= j <= |p|
    ensures TotalExtent(p[..i]) <= TotalExtent(p[..j])
    decreases j
  {
    if i < j {
      assert p[..j][..j - 1] == p[..j - 1];
      TotalExtentMonotone(p, i, j - 1);
      assert p[j - 1].1 > 1 ==> (p[j - 1].1 - 1) * p[j - 1].0 >= 0;
    }
  }

  lemma LaterIsLarger(p: seq<Dim>, k: nat, j: nat)
    requires NonNegative(p) && k < j < |p| && p[k].1 > 1 && p[j].0 > TotalExtent(p[..j])
    requires p[k].0 > TotalExtent(p[..k])
    ensures p[j].0 > p[k].0
  {
    TotalExtentMonotone(p, k + 1, j);
    TotalExtentMonotone(p, 0, k);
    assert p[..k + 1][..k] == p[..k];
    assert (p[k].1 - 1) * p[k].0 >= p[k].0;
  }

  // ----- separation makes the address map injective

  /** How far the offsets of two indices can differ when they differ only up to `bound`. */
  lemma {:induction false} OffsetGap(i: seq<int>, j: seq<int>, shape: seq<int>, strides: seq<int>, bound: int)
    requires |shape| == |strides| && InShape(i, shape) && InShape(j, shape)
    requires forall m :: 0 <= m < |strides| ==> strides[m] >= 0
    requires forall m :: 0 <= m < |shape| && i[m] != j[m] ==> strides[m] <= bound
    ensures Offset(i, strides) - Offset(j, strides) <= ExtentUpTo(Zip(shape, strides), bound)
  {
    if shape != [] {
      var n := |shape| - 1;
      OffsetGap(i[..n], j[..n], shape[..n], strides[..n], bound);
      assert Zip(shape, strides)[..n] == Zip(shape[..n], strides[..n]);
      GapOfOne(i[n], j[n], shape[n], strides[n]);
      Difference(i[n], j[n], strides[n]);
    }
  }

  lemma {:induction false} OffsetWithout(i: seq<int>, strides: seq<int>, k: nat)
    requires |i| == |strides| && k < |i|
    ensures Offset(i, strides) == Offset(i[k := 0], strides) + i[k] * strides[k]
  {
    var n := |i| - 1;
    if k < n {
      OffsetWithout(i[..n], strides[..n], k);
      assert i[k := 0][..n] == i[..n][k := 0];
    } else {
      assert i[k := 0][..n] == i[..n];
    }
  }

  lemma ExtentWithout(shape: seq<int>, strides: seq<int>, k: nat)
    requires |shape| == |strides| && k < |shape| && shape[k] > 1
    ensures ExtentUpTo(Zip(shape[k := 1], strides), strides[k])
         == ExtentUpTo(Zip(shape, strides), strides[k]) - (shape[k] - 1) * strides[k]
  {
    var a, b := Zip(shape, strides), Zip(shape[k := 1], strides);
    assert a == a[..k] + [a[k]] + a[k + 1..];
    assert b == a[..k] + [(strides[k], 1)] + a[k + 1..];
    ExtentAppend(a[..k] + [a[k]], a[k + 1..], strides[k]);
    ExtentAppend(a[..k], [a[k]], strides[k]);
    ExtentAppend(a[..k] + [(strides[k], 1)], a[k + 1..], strides[k]);
    ExtentAppend(a[..k], [(strides[k], 1)], strides[k]);
    ExtentOfOne(a[k]);
    ExtentOfOne((strides[k], 1));
  }

  lemma ExtentOfOne(d: Dim)
    ensures ExtentUpTo([d], d.0) == Extent(d)
  {
    assert [d][..0] == [];
  }

  lemma Difference(x: int, y: int, s: int)
    ensures x * s - y * s == (x - y) * s
  {
  }

  lemma ProductNonNegative(a: int, s: int)
    requires a >= 0 && s >= 0
    ensures a * s >= 0
  {
  }

  lemma ProductMonotone(a: int, b: int, s: int)
    requires a <= b && s >= 0
    ensures a * s <= b * s
  {
    ProductNonNegative(b - a, s);
    Difference(b, a, s);
  }

  lemma GapOfOne(x: int, y: int, size: int, stride: int)
    requires 0 <= x < size && 0 <= y < size && stride >= 0
    ensures (x - y) * stride <= Extent((stride, size))
    ensures x == y ==> (x - y) * stride == 0
    ensures Extent((stride, size)) >= 0
  {
    if size > 1 {
      ProductMonotone(x - y, size - 1, stride);
      ProductNonNegative(size - 1, stride);
    }
  }

  /** A dimension on which two indices differ, with the largest stride among those. */
  lemma {:induction false} LargestDifference(i: seq<int>, j: seq<int>, strides: seq<int>) returns (k: nat)
    requires |i| == |j| == |strides| && i != j
    ensures k < |i| && i[k] != j[k]
    ensures forall m :: 0 <= m < |i| && i[m] != j[m] ==> strides[m] <= strides[k]
  {
    var n := |i| - 1;
    if i[..n] == j[..n] {
      assert i == i[..n] + [i[n]] && j == j[..n] + [j[n]];
      k := n;
      assert forall m :: 0 <= m < n ==> i[..n][m] == i[m] && j[..n][m] == j[m];
    } else {
      k := LargestDifference(i[..n], j[..n], strides[..n]);
      assert forall m :: 0 <= m < n ==> i[..n][m] == i[m] && j[..n][m] == j[m] && strides[..n][m] == strides[m];
      if i[n] != j[n] && strides[n] > strides[k] { k := n; }
    }
  }

  lemma AheadIsFar(i: seq<int>, j: seq<int>, shape: seq<int>, strides: seq<int>, k: nat)
    requires Accepted(shape, strides) && 0 !in shape && InShape(i, shape) && InShape(j, shape)
    requires k < |shape| && i[k] > j[k]
    requires forall m :: 0 <= m < |i| && i[m] != j[m] ==> strides[m] <= strides[k]
    ensures Offset(i, strides) > Offset(j, strides)
  {
    GapBelowLead(i, j, shape, strides, k);
    assert Zip(shape, strides)[k] == (strides[k], shape[k]);
    LeadWins(i[k], j[k], shape[k], strides[k], ExtentUpTo(Zip(shape, strides), strides[k]));
  }

  lemma GapBelowLead(i: seq<int>, j: seq<int>, shape: seq<int>, strides: seq<int>, k: nat)
    requires |shape| == |strides| && InShape(i, shape) && InShape(j, shape)
    requires forall m :: 0 <= m < |strides| ==> strides[m] >= 0
    requires k < |shape| && i[k] > j[k]
    requires forall m :: 0 <= m < |i| && i[m] != j[m] ==> strides[m] <= strides[k]
    ensures Offset(j, strides) - j[k] * strides[k] - (Offset(i, strides) - i[k] * strides[k])
         <= ExtentUpTo(Zip(shape, strides), strides[k]) - (shape[k] - 1) * strides[k]
  {
    OffsetGap(j[k := 0], i[k := 0], shape[k := 1], strides, strides[k]);
    OffsetWithout(i, strides, k);
    OffsetWithout(j, strides, k);
    ExtentWithout(shape, strides, k);
  }

  lemma LeadWins(x: int, y: int, size: int, s: int, extent: int)
    requires x > y && s >= 0 && extent < size * s
    ensures extent - (size - 1) * s < x * s - y * s
  {
    Difference(x, y, s);
    AtLeast(x - y, s);
    Difference(size, 1, s);
    Difference(size, size - 1, s);
  }

  lemma AtLeast(a: int, s: int)
    requires a >= 1 && s >= 0
    ensures a * s >= s
  {
  }

  /** The accepted layouts give different elements different addresses. */
  lemma AcceptedInjective(shape: seq<int>, strides: seq<int>)
    requires Accepted(shape, strides)
    ensures Injective(shape, strides)
  {
    if 0 in shape {
      ZeroInjective(shape, strides);
    } else {
      forall i, j | InShape(i, shape) && InShape(j, shape) && Offset(i, strides) == Offset(j, strides) ensures i == j {
        if i != j {
          var k := LargestDifference(i, j, strides);
          if i[k] > j[k] {
            AheadIsFar(i, j, shape, strides, k);
          } else {
            AheadIsFar(j, i, shape, strides, k);
          }
        }
      }
    }
  }

  // ----- what `covered` measures

  ghost function Sizes(dims: seq<Dim>): seq<int> {
    seq(|dims|, k requires 0 <= k < |dims| => dims[k].1)
  }

  ghost function Steps(dims: seq<Dim>): seq<int> {
    seq(|dims|, k requires 0 <= k < |dims| => dims[k].0)
  }

  ghost predicate Proper(dims: seq<Dim>) {
    forall k :: 0 <= k < |dims| ==> dims[k].0 >= 0 && dims[k].1 >= 1
  }

  /** The index of the last element. */
  ghost function LastIndex(dims: seq<Dim>): seq<int> {
    seq(|dims|, k requires 0 <= k < |dims| => dims[k].1 - 1)
  }

  /** The total extent of some dimensions is the largest offset inside them, and is attained:
      `covered` is always one more than the largest offset of the dimensions taken so far. */
  lemma {:induction false} LargestOffset(dims: seq<Dim>, index: seq<int>)
    requires Proper(dims) && InShape(index, Sizes(dims))
    ensures 0 <= Offset(index, Steps(dims)) <= TotalExtent(dims)
    ensures InShape(LastIndex(dims), Sizes(dims)) && Offset(LastIndex(dims), Steps(dims)) == TotalExtent(dims)
  {
    if dims != [] {
      var n := |dims| - 1;
      assert Sizes(dims)[..n] == Sizes(dims[..n]) && Steps(dims)[..n] == Steps(dims[..n]);
      assert LastIndex(dims)[..n] == LastIndex(dims[..n]);
      LargestOffset(dims[..n], index[..n]);
      GapOfOne(index[n], 0, dims[n].1, dims[n].0);
      Product(index[n], dims[n].0);
    }
  }

  lemma Product(x: int, y: int)
    requires x >= 0 && y >= 0
    ensures x * y >= 0
  {
  }

  // ----- dense layouts

  function Elements(shape: seq<int>): int {
    if shape == [] then 1 else shape[0] * Elements(shape[1..])
  }

  lemma {:induction false} ElementsPositive(shape: seq<int>)
    requires forall k :: 0 <= k < |shape| ==> shape[k] >= 1
    ensures Elements(shape) >= 1
  {
    if shape != [] {
      ElementsPositive(shape[1..]);
      AtLeast(shape[0], Elements(shape[1..]));
    }
  }

  lemma {:induction false} ElementsShrink(shape: seq<int>, m: nat, k: nat)
    requires forall k :: 0 <= k < |shape| ==> shape[k] >= 1
    requires m <= k <= |shape|
    ensures Elements(shape[m..]) >= Elements(shape[k..]) >= 1
    decreases k - m
  {
    ElementsPositive(shape[k..]);
    if m < k {
      ElementsShrink(shape, m + 1, k);
      assert shape[m..][1..] == shape[m + 1..];
      AtLeast(shape[m], Elements(shape[m + 1..]));
    }
  }

  /** Contiguous in row-major order, up to the stride of dimensions of size one. */
  ghost predicate RowMajor(shape: seq<int>, strides: seq<int>) {
    && |shape| == |strides|
    && forall k :: 0 <= k < |shape| ==>
      shape[k] >= 1 && strides[k] >= 0 && (shape[k] > 1 ==> strides[k] == Elements(shape[k + 1..]))
  }

  lemma {:induction false} TotalAppend(a: seq<Dim>, b: seq<Dim>)
    ensures TotalExtent(a + b) == TotalExtent(a) + TotalExtent(b)
  {
    if b == [] {
      assert a + b == a;
    } else {
      var n := |b| - 1;
      assert (a + b)[..|a + b| - 1] == a + b[..n];
      TotalAppend(a, b[..n]);
    }
  }

  lemma {:induction false} RowMajorTotal(shape: seq<int>, strides: seq<int>, k: nat)
    requires RowMajor(shape, strides) && k <= |shape|
    ensures TotalExtent(Zip(shape, strides)[k..]) == Elements(shape[k..]) - 1
    decreases |shape| - k
  {
    var dims := Zip(shape, strides);
    if k < |shape| {
      RowMajorTotal(shape, strides, k + 1);
      assert dims[k..] == [dims[k]] + dims[k + 1..];
      TotalAppend([dims[k]], dims[k + 1..]);
      assert [dims[k]][..0] == [];
      assert shape[k..][1..] == shape[k + 1..];
      if shape[k] > 1 { Difference(shape[k], 1, strides[k]); }
    }
  }

  lemma {:induction false} UpToIsPart(dims: seq<Dim>, bound: int)
    requires NonNegative(dims)
    ensures ExtentUpTo(dims, bound) <= TotalExtent(dims)
  {
    if dims != [] {
      var n := |dims| - 1;
      UpToIsPart(dims[..n], bound);
      if dims[n].1 > 1 { Product(dims[n].1 - 1, dims[n].0); }
    }
  }

  lemma EarlierIsLarger(shape: seq<int>, strides: seq<int>, m: nat, k: nat)
    requires RowMajor(shape, strides) && m < k < |shape| && shape[m] > 1 && shape[k] > 1
    ensures strides[m] > strides[k]
  {
    ElementsShrink(shape, m + 1, k);
    ElementsShrink(shape, k + 1, k + 1);
    assert shape[k..][1..] == shape[k + 1..];
    AtLeast(shape[k] - 1, strides[k]);
    Difference(shape[k], 1, strides[k]);
  }

  lemma NoEarlierExtent(shape: seq<int>, strides: seq<int>, k: nat)
    requires RowMajor(shape, strides) && k < |shape| && shape[k] > 1
    ensures ExtentUpTo(Zip(shape, strides)[..k], strides[k]) == 0
  {
    forall m | 0 <= m < k && shape[m] > 1 ensures strides[m] > strides[k] {
      EarlierIsLarger(shape, strides, m, k);
    }
    NoneBelow(Zip(shape, strides)[..k], strides[k]);
  }

  lemma RowMajorSeparatedAt(shape: seq<int>, strides: seq<int>, k: nat)
    requires RowMajor(shape, strides) && k < |shape| && shape[k] > 1
    ensures ExtentUpTo(Zip(shape, strides), strides[k]) < shape[k] * strides[k]
  {
    hide Extent, Elements;
    var dims := Zip(shape, strides);
    NoEarlierExtent(shape, strides, k);
    assert dims == dims[..k] + dims[k..];
    ExtentAppend(dims[..k], dims[k..], strides[k]);
    UpToIsPart(dims[k..], strides[k]);
    RowMajorTail(shape, strides, k);
  }

  lemma RowMajorTail(shape: seq<int>, strides: seq<int>, k: nat)
    requires RowMajor(shape, strides) && k < |shape| && shape[k] > 1
    ensures TotalExtent(Zip(shape, strides)[k..]) == shape[k] * strides[k] - 1
  {
    RowMajorTotal(shape, strides, k);
    assert shape[k..][1..] == shape[k + 1..];
  }

  lemma RowMajorSeparated(shape: seq<int>, strides: seq<int>)
    requires RowMajor(shape, strides)
    ensures Separated(Zip(shape, strides))
  {
    var dims := Zip(shape, strides);
    forall k | 0 <= k < |dims| && dims[k].1 > 1 ensures ExtentUpTo(dims, dims[k].0) < dims[k].1 * dims[k].0 {
      RowMajorSeparatedAt(shape, strides, k);
    }
  }

  ghost function MaxStride(dims: seq<Dim>): (m: int)
    ensures forall k :: 0 <= k < |dims| ==> dims[k].0 <= m
  {
    if dims == [] then 0 else
      var m := MaxStride(dims[..|dims| - 1]);
      if dims[|dims| - 1].0 > m then dims[|dims| - 1].0 else m
  }

  lemma TotalPermuted(a: seq<Dim>, b: seq<Dim>)
    requires multiset(a) == multiset(b)
    ensures TotalExtent(a) == TotalExtent(b)
  {
    var bound := MaxStride(a);
    SameMultiset(a, b);
    forall k | 0 <= k < |b| ensures b[k].0 <= bound {
      assert b[k] in a;
    }
    assert a[..|a|] == a && b[..|b|] == b;
    PrefixBelow(a, |a|, bound);
    PrefixBelow(b, |b|, bound);
    ExtentPermuted(a, b, bound);
  }

  /** Every dense layout is accepted, in any order of its dimensions and with any stride on
      dimensions of size one, and its final `covered` is the number of its elements. */
  lemma DenseAccepted(shape: seq<int>, strides: seq<int>, dense: seq<int>, denseStrides: seq<int>)
    requires |shape| == |strides| && RowMajor(dense, denseStrides)
    requires multiset(Zip(shape, strides)) == multiset(Zip(dense, denseStrides))
    ensures Accepted(shape, strides) && TotalExtent(Zip(shape, strides)) + 1 == Elements(dense)
  {
    var a, b := Zip(dense, denseStrides), Zip(shape, strides);
    SameMultiset(a, b);
    forall k | 0 <= k < |shape| ensures shape[k] >= 0 && strides[k] >= 0 {
      assert b[k] in a;
    }
    RowMajorSeparated(dense, denseStrides);
    SeparatedPermuted(a, b);
    RowMajorTotal(dense, denseStrides, 0);
    assert a[0..] == a && dense[0..] == dense;
    TotalPermuted(a, b);
  }

  // ----- when a refusal means that elements share an address

  /** Among the dimensions of more than one element every positive stride divides each stride that is no smaller. */
  ghost predicate Nested(shape: seq<int>, strides: seq<int>)
    requires |shape| == |strides|
  {
    forall a, b ::
      0 <= a < |shape| && 0 <= b < |shape| && shape[a] > 1 && shape[b] > 1 && 0 < strides[a] <= strides[b] ==>
        strides[b] % strides[a] == 0
  }

  ghost function Zeros(n: nat): (z: seq<int>)
    ensures |z| == n && forall k :: 0 <= k < n ==> z[k] == 0
  {
    seq(n, k => 0)
  }

  lemma {:induction false} OffsetOfZeros(strides: seq<int>)
    ensures Offset(Zeros(|strides|), strides) == 0
  {
    if strides != [] {
      var n := |strides| - 1;
      OffsetOfZeros(strides[..n]);
      assert Zeros(|strides|)[..n] == Zeros(n);
    }
  }

  lemma OffsetAlong(strides: seq<int>, k: nat, v: int)
    requires k < |strides|
    ensures Offset(Zeros(|strides|)[k := v], strides) == v * strides[k]
  {
    var index := Zeros(|strides|)[k := v];
    OffsetWithout(index, strides, k);
    assert index[k := 0] == Zeros(|strides|);
    OffsetOfZeros(strides);
  }

  lemma InShapeAlong(shape: seq<int>, k: nat, v: int)
    requires k < |shape| && 0 <= v < shape[k] && forall m :: 0 <= m < |shape| ==> shape[m] >= 1
    ensures InShape(Zeros(|shape|)[k := v], shape)
  {
  }

  /** `x` elements along one dimension lie where `y` elements along another lie. */
  lemma AlongCollides(shape: seq<int>, strides: seq<int>, a: nat, x: int, b: nat, y: int)
    requires |shape| == |strides| && a < |shape| && b < |shape| && (forall m :: 0 <= m < |shape| ==> shape[m] >= 1)
    requires 0 <= x < shape[a] && 0 <= y < shape[b] && x * strides[a] == y * strides[b]
    requires y != 0 && (a != b || x != y)
    ensures !Injective(shape, strides)
  {
    var i, j := Zeros(|shape|)[a := x], Zeros(|shape|)[b := y];
    InShapeAlong(shape, a, x);
    InShapeAlong(shape, b, y);
    OffsetAlong(strides, a, x);
    OffsetAlong(strides, b, y);
    assert i[b] != j[b];
  }

  lemma Quotient(s: int, t: int, n: int)
    requires 0 < s <= t < n * s && t % s == 0
    ensures 1 <= t / s < n && (t / s) * s == t
  {
    var m := t / s;
    assert t == m * s;
    if m >= n { ProductMonotone(n, m, s); }
    if m <= 0 { ProductMonotone(m, 0, s); }
  }

  /** An injective layout whose strides divide each other leaves each dimension the room it needs. */
  lemma InjectiveIsSpaced(shape: seq<int>, strides: seq<int>, a: nat, b: nat)
    requires |shape| == |strides| && Nested(shape, strides) && Injective(shape, strides)
    requires forall m :: 0 <= m < |shape| ==> shape[m] >= 1 && strides[m] >= 0
    requires a < |shape| && b < |shape| && shape[a] > 1 && shape[b] > 1
    ensures strides[a] > 0
    ensures a != b && strides[a] <= strides[b] ==> shape[a] * strides[a] <= strides[b]
  {
    if strides[a] == 0 {
      AlongCollides(shape, strides, a, 0, a, 1);
    } else if a != b && strides[a] <= strides[b] < shape[a] * strides[a] {
      Quotient(strides[a], strides[b], shape[a]);
      AlongCollides(shape, strides, a, strides[b] / strides[a], b, 1);
    }
  }

  lemma {:induction false} TwoPlaces<T>(s: seq<T>, x: T) returns (a: nat, b: nat)
    requires multiset(s)[x] >= 2
    ensures a < b < |s| && s[a] == x == s[b]
  {
    var n := |s| - 1;
    assert s == s[..n] + [s[n]];
    if s[n] == x {
      assert x in multiset(s[..n]);
      a :| 0 <= a < n && s[..n][a] == x;
      b := n;
    } else {
      a, b := TwoPlaces(s[..n], x);
    }
  }

  /** Two places of a rearrangement come from two places. */
  lemma ComesFrom(dims: seq<Dim>, p: seq<Dim>, i: nat, k: nat) returns (a: nat, b: nat)
    requires multiset(p) == multiset(dims) && i < k < |p|
    ensures a < |dims| && b < |dims| && a != b && dims[a] == p[i] && dims[b] == p[k]
  {
    SameMultiset(p, dims);
    if p[i] == p[k] {
      OccursTwice(p, i, k);
      a, b := TwoPlaces(dims, p[i]);
    } else {
      assert p[i] in dims && p[k] in dims;
      a :| 0 <= a < |dims| && dims[a] == p[i];
      b :| 0 <= b < |dims| && dims[b] == p[k];
    }
  }

  ghost predicate Spaced(p: seq<Dim>) {
    && (forall k :: 0 <= k < |p| ==> p[k].1 >= 1 && (p[k].1 > 1 ==> p[k].0 > 0))
    && forall i, k :: 0 <= i < k < |p| && p[i].1 > 1 && p[k].1 > 1 ==> p[i].1 * p[i].0 <= p[k].0
  }

  lemma RoomForOneMore(total: int, size: int, stride: int)
    requires total < stride
    ensures total + (size - 1) * stride < size * stride
  {
    Difference(size, 1, stride);
  }

  /** What comes before a dimension of a spaced layout stays below its stride. */
  lemma {:induction false} ExtentBelow(p: seq<Dim>, i: nat, k: nat)
    requires Spaced(p) && i <= k < |p| && p[k].1 > 1
    ensures TotalExtent(p[..i]) < p[k].0
  {
    if i > 0 {
      assert p[..i][..i - 1] == p[..i - 1];
      if p[i - 1].1 > 1 {
        ExtentBelow(p, i - 1, i - 1);
        RoomForOneMore(TotalExtent(p[..i - 1]), p[i - 1].1, p[i - 1].0);
      } else {
        ExtentBelow(p, i - 1, k);
      }
    }
  }

  lemma ArrangedSpaced(shape: seq<int>, strides: seq<int>, p: seq<Dim>)
    requires |shape| == |strides| && Nested(shape, strides) && Injective(shape, strides)
    requires forall m :: 0 <= m < |shape| ==> shape[m] >= 1 && strides[m] >= 0
    requires Arranged(Zip(shape, strides), p)
    ensures Spaced(p)
  {
    hide Nested, Injective;
    var dims := Zip(shape, strides);
    SameMultiset(p, dims);
    forall k | 0 <= k < |p| ensures p[k].1 >= 1 && (p[k].1 > 1 ==> p[k].0 > 0) {
      assert p[k] in dims;
      var a :| 0 <= a < |dims| && dims[a] == p[k];
      if p[k].1 > 1 { InjectiveIsSpaced(shape, strides, a, a); }
    }
    forall i, k | 0 <= i < k < |p| && p[i].1 > 1 && p[k].1 > 1 ensures p[i].1 * p[i].0 <= p[k].0 {
      var a, b := ComesFrom(dims, p, i, k);
      assert DimLeq(p[i], p[k]);
      InjectiveIsSpaced(shape, strides, a, b);
    }
  }

  /** Where every stride divides the larger ones the test is exact: it refuses only layouts in which two elements
      share an address. */
  lemma NestedExact(shape: seq<int>, strides: seq<int>)
    requires |shape| == |strides| && (forall k :: 0 <= k < |shape| ==> shape[k] >= 0 && strides[k] >= 0)
    requires Nested(shape, strides)
    ensures Accepted(shape, strides) <==> Injective(shape, strides)
  {
    hide Nested, Injective, Separated, TotalExtent, Spaced;
    if Accepted(shape, strides) {
      AcceptedInjective(shape, strides);
    } else if Injective(shape, strides) {
      var dims := Zip(shape, strides);
      var p := SortedDims(dims);
      ArrangedSpaced(shape, strides, p);
      forall k | 0 <= k < |p| && p[k].1 > 1 ensures p[k].0 > TotalExtent(p[..k]) {
        ExtentBelow(p, k, k);
      }
      SortedAccepts(dims, p);
    }
  }

  /** Without that a refusal proves nothing: this layout gives every element its own address. */
  lemma RefusedThoughInjective()
    ensures Injective([3, 2], [2, 3]) && !Accepted([3, 2], [2, 3])
  {
    forall i, j | InShape(i, [3, 2]) && InShape(j, [3, 2]) && Offset(i, [2, 3]) == Offset(j, [2, 3]) ensures i == j {
      TwoDimensional(i, 2, 3);
      TwoDimensional(j, 2, 3);
      assert i == [i[0], i[1]] && j == [j[0], j[1]];
      assert 0 <= i[0] < [3, 2][0] && 0 <= i[1] < [3, 2][1];
      assert 0 <= j[0] < [3, 2][0] && 0 <= j[1] < [3, 2][1];
    }
    var dims := Zip([3, 2], [2, 3]);
    assert dims == [(2, 3), (3, 2)];
    assert dims[..1] == [(2, 3)] && [(2, 3)][..0] == [];
    assert ExtentUpTo(dims, 3) == 7;
    assert dims[1].1 > 1;
  }

  lemma TwoDimensional(i: seq<int>, s: int, t: int)
    requires |i| == 2
    ensures Offset(i, [s, t]) == i[0] * s + i[1] * t
  {
    assert i[..1][..0] == [] && [s, t][..1] == [s] && i[..1][0] == i[0];
    assert Offset(i[..1], [s]) == i[0] * s;
  }
}
