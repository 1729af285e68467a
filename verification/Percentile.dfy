/** The interpolated percentile of a sample, over exact reals. */
module Percentile {
  import opened Results
  import opened Sorting

  datatype PercentileError = EmptySample | IndexError

  predicate RealLeq(a: real, b: real) { a <= b }

  lemma RealOrder()
    ensures TotalOrder(RealLeq)
  {
  }

  function Ordered(values: seq<real>): (r: seq<real>)
    ensures Sorted(RealLeq, r) && multiset(r) == multiset(values)
  {
    RealOrder();
    Sort(RealLeq, values)
  }

  /** Python's `int` on a float: toward zero. */
  function Truncate(x: real): int {
    if x >= 0.0 then x.Floor else -(-x).Floor
  }

  /** Python list indexing, from the end for negative positions. */
  function At(s: seq<real>, i: int): Result<real, PercentileError> {
    if 0 <= i < |s| then Ok(s[i])
    else if -|s| <= i < 0 then Ok(s[|s| + i])
    else Err(IndexError)
  }

  function Position(n: nat, fraction: real): real {
    fraction * (n - 1) as real
  }

  function Percentile(values: seq<real>, fraction: real): Result<real, PercentileError> {
    if values == [] then Err(EmptySample) else
      var ordered := Ordered(values);
      if |ordered| == 1 then Ok(ordered[0]) else
        var position := Position(|ordered|, fraction);
        var low := Truncate(position);
        var high := if low + 1 < |ordered| - 1 then low + 1 else |ordered| - 1;
        var weight := position - low as real;
        match (At(ordered, low), At(ordered, high))
        case (Ok(x), Ok(y)) => Ok(Between(x, y, weight))
        case _ => Err(IndexError)
  }

  function Between(x: real, y: real, weight: real): real {
    x * (1.0 - weight) + y * weight
  }

  // ----- interpolation inside a sorted sample

  lemma ProductSign(a: real, b: real)
    requires a >= 0.0 && b >= 0.0
    ensures a * b >= 0.0
  {
  }

  lemma BetweenBounds(x: real, y: real, w: real)
    requires x <= y && 0.0 <= w <= 1.0
    ensures x <= Between(x, y, w) <= y
  {
    ProductSign(y - x, w);
    ProductSign(y - x, 1.0 - w);
    assert Between(x, y, w) == x + (y - x) * w == y - (y - x) * (1.0 - w);
  }

  lemma BetweenMonotone(x: real, y: real, x': real, y': real, w: real, w': real)
    requires x <= x' && y <= y' && x' <= y' && 0.0 <= w <= w' <= 1.0
    ensures Between(x, y, w) <= Between(x', y', w')
  {
    ProductSign(x' - x, 1.0 - w);
    ProductSign(y' - y, w);
    ProductSign(y' - x', w' - w);
    assert Between(x', y', w') - Between(x, y, w) == (x' - x) * (1.0 - w) + (y' - y) * w + (y' - x') * (w' - w);
  }

  /** For a fraction between zero and one the position falls inside the sample. */
  lemma PositionInside(n: nat, fraction: real)
    requires n >= 2 && 0.0 <= fraction <= 1.0
    ensures 0.0 <= Position(n, fraction) <= (n - 1) as real
    ensures Truncate(Position(n, fraction)) == Position(n, fraction).Floor && 0 <= Position(n, fraction).Floor <= n - 1
  {
    var m := (n - 1) as real;
    ProductSign(fraction, m);
    ProductSign(1.0 - fraction, m);
    assert (1.0 - fraction) * m == m - Position(n, fraction);
  }

  lemma PositionGrows(n: nat, f: real, g: real)
    requires n >= 2 && f <= g
    ensures Position(n, f) <= Position(n, g)
  {
    ProductSign(g - f, (n - 1) as real);
    assert Position(n, g) - Position(n, f) == (g - f) * (n - 1) as real;
  }

  /** The percentile of a sorted sample of two or more at a position inside it. */
  ghost function AtPosition(ordered: seq<real>, position: real): real
    requires |ordered| >= 2 && 0.0 <= position <= (|ordered| - 1) as real
  {
    var low := position.Floor;
    Between(ordered[low], ordered[if low + 1 < |ordered| then low + 1 else low], position - low as real)
  }

  lemma PercentileIs(values: seq<real>, fraction: real)
    requires values != [] && 0.0 <= fraction <= 1.0
    ensures |Ordered(values)| == |values|
    ensures |values| == 1 ==> Percentile(values, fraction) == Ok(Ordered(values)[0])
    ensures |values| >= 2 ==> 0.0 <= Position(|values|, fraction) <= (|values| - 1) as real
                              && Percentile(values, fraction)
                                  == Ok(AtPosition(Ordered(values), Position(|values|, fraction)))
  {
    hide Between, Position, Ordered;
    SameMultiset(values, Ordered(values));
    if |values| >= 2 { PositionInside(|values|, fraction); }
  }

  lemma SortedAt(ordered: seq<real>, i: int, j: int)
    requires Sorted(RealLeq, ordered) && 0 <= i <= j < |ordered|
    ensures ordered[i] <= ordered[j]
  {
    if i < j { assert RealLeq(ordered[i], ordered[j]); }
  }

  lemma AtPositionBounds(ordered: seq<real>, position: real)
    requires Sorted(RealLeq, ordered) && |ordered| >= 2 && 0.0 <= position <= (|ordered| - 1) as real
    ensures var low := position.Floor;
            ordered[low] <= AtPosition(ordered, position) <= ordered[if low + 1 < |ordered| then low + 1 else low]
  {
    var low := position.Floor;
    var high := if low + 1 < |ordered| then low + 1 else low;
    SortedAt(ordered, low, high);
    BetweenBounds(ordered[low], ordered[high], position - low as real);
  }

  lemma FloorIs(k: int, t: real)
    requires 0.0 <= t < 1.0
    ensures (k as real + t).Floor == k
  {
  }

  lemma BetweenIs(x: real, y: real, t: real)
    ensures Between(x, y, t) == x + t * (y - x)
  {
  }

  /** At the fraction of rank `k + t` the percentile lies the part `t` of the way from the k-th to the next order
      statistic; so at rank `k` it is the k-th order statistic itself. */
  lemma PercentileInterpolates(values: seq<real>, fraction: real, k: nat, t: real)
    requires k + 1 < |values| && 0.0 <= t <= 1.0 && 0.0 <= fraction <= 1.0
    requires fraction * (|values| - 1) as real == k as real + t
    ensures |Ordered(values)| == |values|
    ensures Percentile(values, fraction) == Ok(Ordered(values)[k] + t * (Ordered(values)[k + 1] - Ordered(values)[k]))
  {
    hide Percentile, Ordered, AtPosition;
    PercentileIs(values, fraction);
    var position := Position(|values|, fraction);
    assert position == k as real + t;
    AtPositionInterpolates(Ordered(values), k, t, position);
    assert AtPosition(Ordered(values), position) == Ordered(values)[k]
           + t * (Ordered(values)[k + 1] - Ordered(values)[k]);
  }

  lemma AtPositionInterpolates(ordered: seq<real>, k: nat, t: real, position: real)
    requires k + 1 < |ordered| && 0.0 <= t <= 1.0 && position == k as real + t
    ensures AtPosition(ordered, position) == ordered[k] + t * (ordered[k + 1] - ordered[k])
  {
    if t < 1.0 { PartWay(ordered, k, t, position); } else { WholeWay(ordered, k, t, position); }
  }

  lemma PartWay(ordered: seq<real>, k: nat, t: real, position: real)
    requires k + 1 < |ordered| && 0.0 <= t < 1.0 && position == k as real + t
    ensures AtPosition(ordered, position) == ordered[k] + t * (ordered[k + 1] - ordered[k])
  {
    hide Between;
    FloorIs(k, t);
    calc {
      AtPosition(ordered, position);
    ==
      Between(ordered[k], ordered[k + 1], t);
    == { BetweenIs(ordered[k], ordered[k + 1], t); }
      ordered[k] + t * (ordered[k + 1] - ordered[k]);
    }
  }

  lemma WholeWay(ordered: seq<real>, k: nat, t: real, position: real)
    requires k + 1 < |ordered| && t == 1.0 && position == k as real + t
    ensures AtPosition(ordered, position) == ordered[k] + t * (ordered[k + 1] - ordered[k])
  {
    hide Between;
    FloorIs(k + 1, 0.0);
    assert position == (k + 1) as real + 0.0;
    var next := if k + 2 < |ordered| then ordered[k + 2] else ordered[k + 1];
    calc {
      AtPosition(ordered, position);
    ==
      Between(ordered[k + 1], next, 0.0);
    == { BetweenAtStart(ordered[k + 1], next); }
      ordered[k + 1];
    == { WholeStep(ordered[k], ordered[k + 1]); }
      ordered[k] + 1.0 * (ordered[k + 1] - ordered[k]);
    }
  }

  lemma BetweenAtStart(x: real, y: real)
    ensures Between(x, y, 0.0) == x
  {
  }

  lemma WholeStep(x: real, y: real)
    ensures x + 1.0 * (y - x) == y
  {
  }

  /** The percentile lies between the least and the greatest sample. */
  lemma PercentileInRange(values: seq<real>, fraction: real, least: real, greatest: real)
    requires values != [] && 0.0 <= fraction <= 1.0
    requires forall v :: v in values ==> least <= v <= greatest
    ensures Percentile(values, fraction).Ok? && least <= Percentile(values, fraction).value <= greatest
  {
    hide Percentile, Position, AtPosition, Ordered;
    var ordered := Ordered(values);
    PercentileIs(values, fraction);
    SameMultiset(values, ordered);
    forall i | 0 <= i < |ordered| ensures least <= ordered[i] <= greatest {
      assert ordered[i] in values;
    }
    if |values| >= 2 { AtPositionBounds(ordered, Position(|values|, fraction)); }
  }

  /** It never decreases as the fraction grows. */
  lemma PercentileGrowsWithFraction(values: seq<real>, f: real, g: real)
    requires values != [] && 0.0 <= f <= g <= 1.0
    ensures Percentile(values, f).Ok? && Percentile(values, g).Ok?
            && Percentile(values, f).value <= Percentile(values, g).value
  {
    hide Percentile, Position, AtPosition, Ordered;
    PercentileIs(values, f);
    PercentileIs(values, g);
    if |values| >= 2 {
      PositionGrows(|values|, f, g);
      AtPositionGrows(Ordered(values), Position(|values|, f), Position(|values|, g));
    }
  }

  lemma AtPositionGrows(ordered: seq<real>, p: real, q: real)
    requires Sorted(RealLeq, ordered) && |ordered| >= 2 && 0.0 <= p <= q <= (|ordered| - 1) as real
    ensures AtPosition(ordered, p) <= AtPosition(ordered, q)
  {
    var low := p.Floor;
    var high := if low + 1 < |ordered| then low + 1 else low;
    SortedAt(ordered, low, high);
    if low == q.Floor {
      BetweenMonotone(ordered[low], ordered[high], ordered[low], ordered[high], p - low as real, q - low as real);
    } else {
      AtPositionBounds(ordered, p);
      AtPositionBounds(ordered, q);
      SortedAt(ordered, high, q.Floor);
    }
  }

  lemma OrderedIgnoresOrder(values: seq<real>, others: seq<real>)
    requires multiset(values) == multiset(others)
    ensures Ordered(values) == Ordered(others) && |values| == |others|
  {
    hide TotalOrder, Sorted, Ordered;
    RealOrder();
    SortedUnique(RealLeq, Ordered(values), Ordered(others));
    SameMultiset(values, others);
  }

  /** It depends on the samples only, not on their order. */
  lemma PercentileIgnoresOrder(values: seq<real>, others: seq<real>, fraction: real)
    requires multiset(values) == multiset(others)
    ensures Percentile(values, fraction) == Percentile(others, fraction)
  {
    hide Ordered, Position, Between, At, Truncate;
    OrderedIgnoresOrder(values, others);
  }

  // ----- raising samples

  ghost predicate Below(a: seq<real>, b: seq<real>) {
    |a| == |b| && forall i :: 0 <= i < |a| ==> a[i] <= b[i]
  }

  ghost function Inserted(x: real, s: seq<real>): seq<real>
    requires Sorted(RealLeq, s)
  {
    RealOrder();
    Insert(RealLeq, x, s)
  }

  lemma InsertedShape(x: real, s: seq<real>)
    requires Sorted(RealLeq, s)
    ensures s != [] ==> Sorted(RealLeq, s[1..])
    ensures Inserted(x, s) == if s != [] && !(x <= s[0]) then [s[0]] + Inserted(x, s[1..]) else [x] + s
  {
    hide TotalOrder;
  }

  /** Position `i` after an insertion: the old neighbour, the new value or the old value, whichever is in the middle. */
  lemma {:induction false} InsertedAt(x: real, s: seq<real>, i: nat)
    requires Sorted(RealLeq, s) && i <= |s|
    ensures |Inserted(x, s)| == |s| + 1
    ensures var up := if i < |s| && s[i] < x then s[i] else x;
            Inserted(x, s)[i] == if i > 0 && s[i - 1] > up then s[i - 1] else up
  {
    hide Inserted;
    InsertedShape(x, s);
    if s != [] && !(x <= s[0]) {
      InsertedAt(x, s[1..], if i > 0 then i - 1 else 0);
    } else if 0 < i {
      SortedAt(s, 0, i - 1);
      if i < |s| { SortedAt(s, i - 1, i); }
    }
  }

  lemma InsertedMonotone(x: real, y: real, s: seq<real>, t: seq<real>)
    requires x <= y && Sorted(RealLeq, s) && Sorted(RealLeq, t) && Below(s, t)
    ensures Below(Inserted(x, s), Inserted(y, t))
  {
    InsertedAt(x, s, 0);
    InsertedAt(y, t, 0);
    forall i | 0 <= i < |s| + 1 ensures Inserted(x, s)[i] <= Inserted(y, t)[i] {
      InsertedAt(x, s, i);
      InsertedAt(y, t, i);
    }
  }

  /** Sorting is monotone: raising samples raises every order statistic. */
  lemma {:induction false} OrderedMonotone(a: seq<real>, b: seq<real>)
    requires Below(a, b)
    ensures Below(Ordered(a), Ordered(b))
  {
    if a != [] {
      OrderedMonotone(a[1..], b[1..]);
      InsertedMonotone(a[0], b[0], Ordered(a[1..]), Ordered(b[1..]));
    }
  }

  /** It never decreases when samples are raised. */
  lemma PercentileGrowsWithSamples(values: seq<real>, raised: seq<real>, fraction: real)
    requires values != [] && Below(values, raised) && 0.0 <= fraction <= 1.0
    ensures Percentile(values, fraction).Ok? && Percentile(raised, fraction).Ok?
    ensures Percentile(values, fraction).value <= Percentile(raised, fraction).value
  {
    hide Percentile, Position, AtPosition, Ordered;
    PercentileIs(values, fraction);
    PercentileIs(raised, fraction);
    OrderedMonotone(values, raised);
    if |values| >= 2 { AtPositionRises(Ordered(values), Ordered(raised), Position(|values|, fraction)); }
  }

  lemma AtPositionRises(a: seq<real>, b: seq<real>, position: real)
    requires Sorted(RealLeq, b) && Below(a, b) && |a| >= 2 && 0.0 <= position <= (|a| - 1) as real
    ensures AtPosition(a, position) <= AtPosition(b, position)
  {
    var low := position.Floor;
    var high := if low + 1 < |a| then low + 1 else low;
    SortedAt(b, low, high);
    BetweenMonotone(a[low], a[high], b[low], b[high], position - low as real, position - low as real);
  }
}
