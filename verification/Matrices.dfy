/** Two-dimensional matrix products over exact integers. */
module Matrices {
  import opened Results

  datatype Matrix = Matrix(rows: nat, cols: nat, cells: seq<seq<int>>) {
    ghost predicate Valid() {
      |cells| == rows && forall i :: 0 <= i < rows ==> |cells[i]| == cols
    }
  }

  function Dot(u: seq<int>, v: seq<int>): int
    requires |u| == |v|
  {
    if u == [] then 0 else u[0] * v[0] + Dot(u[1..], v[1..])
  }

  function Column(rows: seq<seq<int>>, j: nat): (c: seq<int>)
    requires forall i :: 0 <= i < |rows| ==> j < |rows[i]|
    ensures |c| == |rows|
  {
    seq(|rows|, i requires 0 <= i < |rows| => rows[i][j])
  }

  /** `left @ right` for rank-two operands; `None` is the shape error. */
  function MatMul(left: Matrix, right: Matrix): (r: Option<Matrix>)
    requires left.Valid() && right.Valid()
    ensures r.Some? <==> left.cols == right.rows
    ensures r.Some? ==> r.value.Valid() && r.value.rows == left.rows && r.value.cols == right.cols
    ensures r.Some? ==> forall i, j :: 0 <= i < left.rows && 0 <= j < right.cols ==>
      r.value.cells[i][j] == Dot(left.cells[i], Column(right.cells, j))
  {
    if left.cols != right.rows then None else
      Some(Matrix(left.rows, right.cols,
                  seq(left.rows, i requires 0 <= i < left.rows => RowTimes(left.cells[i], right.cells, right.cols))))
  }

  function RowTimes(u: seq<int>, rows: seq<seq<int>>, n: nat): (r: seq<int>)
    requires |u| == |rows| && forall i :: 0 <= i < |rows| ==> |rows[i]| == n
    ensures |r| == n && forall j :: 0 <= j < n ==> r[j] == Dot(u, Column(rows, j))
  {
    seq(n, j requires 0 <= j < n => Dot(u, Column(rows, j)))
  }

  function TimesColumn(rows: seq<seq<int>>, v: seq<int>): (r: seq<int>)
    requires forall i :: 0 <= i < |rows| ==> |rows[i]| == |v|
    ensures |r| == |rows|
  {
    seq(|rows|, i requires 0 <= i < |rows| => Dot(rows[i], v))
  }

  lemma {:induction false} DotZero(u: seq<int>, v: seq<int>)
    requires |u| == |v| && forall j :: 0 <= j < |u| ==> u[j] == 0
    ensures Dot(u, v) == 0
  {
    if u != [] { DotZero(u[1..], v[1..]); }
  }

  lemma {:induction false} DotLinear(x: int, p: seq<int>, q: seq<int>, w: seq<int>, v: seq<int>)
    requires |p| == |q| == |w| == |v|
    requires forall j :: 0 <= j < |w| ==> w[j] == x * p[j] + q[j]
    ensures Dot(w, v) == x * Dot(p, v) + Dot(q, v)
  {
    if w != [] {
      DotLinear(x, p[1..], q[1..], w[1..], v[1..]);
      var a, b := Dot(p[1..], v[1..]), Dot(q[1..], v[1..]);
      assert w[0] == x * p[0] + q[0];
      calc {
        Dot(w, v);
        (x * p[0] + q[0]) * v[0] + (x * a + b);
        x * (p[0] * v[0] + a) + (q[0] * v[0] + b);
      }
    }
  }

  /** Row times matrix times column, in either order. */
  lemma {:induction false} DotAssociative(u: seq<int>, rows: seq<seq<int>>, n: nat, v: seq<int>)
    requires |u| == |rows| && |v| == n && forall i :: 0 <= i < |rows| ==> |rows[i]| == n
    ensures Dot(RowTimes(u, rows, n), v) == Dot(u, TimesColumn(rows, v))
  {
    if u == [] {
      DotZero(RowTimes(u, rows, n), v);
    } else {
      var tail := RowTimes(u[1..], rows[1..], n);
      forall j | 0 <= j < n ensures RowTimes(u, rows, n)[j] == u[0] * rows[0][j] + tail[j] {
        assert Column(rows, j)[1..] == Column(rows[1..], j);
      }
      DotLinear(u[0], rows[0], tail, RowTimes(u, rows, n), v);
      DotAssociative(u[1..], rows[1..], n, v);
      assert TimesColumn(rows, v)[1..] == TimesColumn(rows[1..], v);
    }
  }

  /** Matrix multiplication over the integers is associative. */
  lemma MatMulAssociative(a: Matrix, b: Matrix, c: Matrix)
    requires a.Valid() && b.Valid() && c.Valid()
    requires a.cols == b.rows && b.cols == c.rows
    ensures MatMul(MatMul(a, b).value, c) == MatMul(a, MatMul(b, c).value)
  {
    var left, right := MatMul(MatMul(a, b).value, c).value, MatMul(a, MatMul(b, c).value).value;
    forall i, j | 0 <= i < a.rows && 0 <= j < c.cols ensures left.cells[i][j] == right.cells[i][j] {
      var ab, bc := MatMul(a, b).value, MatMul(b, c).value;
      var v := Column(c.cells, j);
      assert ab.cells[i] == RowTimes(a.cells[i], b.cells, b.cols);
      DotAssociative(a.cells[i], b.cells, b.cols, v);
      assert Column(bc.cells, j) == TimesColumn(b.cells, v);
    }
    forall i | 0 <= i < a.rows ensures left.cells[i] == right.cells[i] {
    }
    assert left.cells == right.cells;
    assert left == right;
  }
}
