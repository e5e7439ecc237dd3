/** Compressed sparse row matrices and the product of such a matrix with a vector. */
module Csr {
  import opened Vectors

  /** The graph of a matrix: row i owns the slots from rowMap[i] up to rowMap[i + 1]. */
  datatype Pattern = Pattern(rowMap: seq<nat>, cols: seq<nat>) {

    function Rows(): nat {
      if rowMap == [] then 0 else |rowMap| - 1
    }

    function Begin(i: nat): nat {
      if i < |rowMap| then rowMap[i] else 0
    }

    function End(i: nat): nat {
      Begin(i + 1)
    }

    function Col(k: nat): nat {
      if k < |cols| then cols[k] else 0
    }

    /** Every slot belongs to one row and names a column of a square matrix. */
    ghost predicate WellFormed() {
      && rowMap != [] && rowMap[0] == 0 && rowMap[Rows()] == |cols|
      && (forall i | 0 <= i < Rows() :: rowMap[i] <= rowMap[i + 1])
      && (forall k | 0 <= k < |cols| :: cols[k] < Rows())
    }
  }

  /** The part of a row product that the slots in [lo, hi) contribute. */
  function SlotSum(p: Pattern, vals: Vec, lo: nat, hi: nat, x: Vec): real {
    if hi <= lo then 0.0
    else SlotSum(p, vals, lo, hi - 1, x) + Mul(At(vals, hi - 1), At(x, p.Col(hi - 1)))
  }

  function RowDot(p: Pattern, vals: Vec, i: nat, x: Vec): real {
    SlotSum(p, vals, p.Begin(i), p.End(i), x)
  }

  /** The matrix times x. */
  function MatVec(p: Pattern, vals: Vec, x: Vec): (y: Vec)
    ensures |y| == p.Rows()
  {
    seq(p.Rows(), i requires 0 <= i => RowDot(p, vals, i, x))
  }

  /** What the slots in [lo, hi) hold for column j. */
  function CoefSum(p: Pattern, vals: Vec, lo: nat, hi: nat, j: nat): real {
    if hi <= lo then 0.0
    else CoefSum(p, vals, lo, hi - 1, j) + (if p.Col(hi - 1) == j then At(vals, hi - 1) else 0.0)
  }

  /** The entry of the matrix at row i and column j. */
  function Coef(p: Pattern, vals: Vec, i: nat, j: nat): real {
    CoefSum(p, vals, p.Begin(i), p.End(i), j)
  }

  function DenseSlots(p: Pattern, vals: Vec, lo: nat, hi: nat): (r: Vec)
    ensures |r| == p.Rows()
  {
    seq(p.Rows(), j requires 0 <= j => CoefSum(p, vals, lo, hi, j))
  }

  function DenseRow(p: Pattern, vals: Vec, i: nat): (r: Vec)
    ensures |r| == p.Rows()
  {
    DenseSlots(p, vals, p.Begin(i), p.End(i))
  }

  lemma {:induction false} SlotSumDense(p: Pattern, vals: Vec, lo: nat, hi: nat, x: Vec)
    requires p.WellFormed() && |x| == p.Rows() && hi <= |p.cols|
    ensures SlotSum(p, vals, lo, hi, x) == Dot(DenseSlots(p, vals, lo, hi), x)
  {
    hide Mul;
    var n := p.Rows();
    if hi <= lo {
      DotToZero(DenseSlots(p, vals, lo, hi), x, n);
    } else {
      SlotSumDense(p, vals, lo, hi - 1, x);
      var v, c, rest := At(vals, hi - 1), p.Col(hi - 1), DenseSlots(p, vals, lo, hi - 1);
      DenseStep(p, vals, lo, hi);
      DotAxpby(v, Unit(n, c), 1.0, rest, x);
      MulUnits(Dot(rest, x));
      DotToUnit(n, c, x, n);
    }
  }

  /** One more slot adds a multiple of a unit vector to a dense row. */
  lemma DenseStep(p: Pattern, vals: Vec, lo: nat, hi: nat)
    requires lo < hi
    ensures DenseSlots(p, vals, lo, hi)
         == Axpby(At(vals, hi - 1), Unit(p.Rows(), p.Col(hi - 1)), 1.0, DenseSlots(p, vals, lo, hi - 1))
  {
    forall j | 0 <= j < p.Rows()
      ensures DenseSlots(p, vals, lo, hi)[j]
           == Axpby(At(vals, hi - 1), Unit(p.Rows(), p.Col(hi - 1)), 1.0, DenseSlots(p, vals, lo, hi - 1))[j]
    {
      hide Mul;
      MulUnits(At(vals, hi - 1));
      MulUnits(DenseSlots(p, vals, lo, hi - 1)[j]);
    }
  }

  lemma {:induction false} BeginBound(p: Pattern, i: nat)
    requires p.WellFormed() && i <= p.Rows()
    ensures p.Begin(i) <= |p.cols|
    decreases p.Rows() - i
  {
    if i < p.Rows() {
      BeginBound(p, i + 1);
      assert p.rowMap[i] <= p.rowMap[i + 1];
    }
  }

  /** A row product is the inner product with the dense row. */
  lemma RowDotDense(p: Pattern, vals: Vec, i: nat, x: Vec)
    requires p.WellFormed() && |x| == p.Rows() && i < p.Rows()
    ensures RowDot(p, vals, i, x) == Dot(DenseRow(p, vals, i), x)
  {
    hide Mul, SlotSum, Dot;
    BeginBound(p, i + 1);
    SlotSumDense(p, vals, p.Begin(i), p.End(i), x);
  }

  lemma {:induction false} SlotSumLinear(p: Pattern, vals: Vec, lo: nat, hi: nat, a: real, x: Vec, b: real, y: Vec)
    requires |x| == |y|
    ensures SlotSum(p, vals, lo, hi, Axpby(a, x, b, y))
         == Mul(a, SlotSum(p, vals, lo, hi, x)) + Mul(b, SlotSum(p, vals, lo, hi, y))
  {
    hide Mul;
    if hi <= lo {
      MulUnits(a);
      MulUnits(b);
    } else {
      SlotSumLinear(p, vals, lo, hi - 1, a, x, b, y);
      var c, v := p.Col(hi - 1), At(vals, hi - 1);
      AtAxpby(a, x, b, y, c);
      MulLinear(v, a, At(x, c), b, At(y, c));
      MulAdd(a, SlotSum(p, vals, lo, hi - 1, x), Mul(v, At(x, c)));
      MulAdd(b, SlotSum(p, vals, lo, hi - 1, y), Mul(v, At(y, c)));
    }
  }

  /** The matrix product is linear. */
  lemma MatVecLinear(p: Pattern, vals: Vec, a: real, x: Vec, b: real, y: Vec)
    requires |x| == |y|
    ensures MatVec(p, vals, Axpby(a, x, b, y)) == Axpby(a, MatVec(p, vals, x), b, MatVec(p, vals, y))
  {
    forall i | 0 <= i < p.Rows()
      ensures MatVec(p, vals, Axpby(a, x, b, y))[i] == Axpby(a, MatVec(p, vals, x), b, MatVec(p, vals, y))[i]
    {
      hide Mul, SlotSum;
      SlotSumLinear(p, vals, p.Begin(i), p.End(i), a, x, b, y);
    }
  }

  ghost predicate Symmetric(p: Pattern, vals: Vec) {
    forall i, j | 0 <= i < p.Rows() && 0 <= j < p.Rows() :: Coef(p, vals, i, j) == Coef(p, vals, j, i)
  }

  /** The first k rows, weighted by u and added up. */
  function RowComb(p: Pattern, vals: Vec, u: Vec, k: nat): (r: Vec)
    ensures |r| == p.Rows()
  {
    if k == 0 then Zeros(p.Rows()) else Axpby(At(u, k - 1), DenseRow(p, vals, k - 1), 1.0, RowComb(p, vals, u, k - 1))
  }

  lemma {:induction false} RowCombDot(p: Pattern, vals: Vec, u: Vec, x: Vec, k: nat)
    requires p.WellFormed() && |u| == |x| == p.Rows() && k <= p.Rows()
    ensures DotTo(u, MatVec(p, vals, x), k) == Dot(RowComb(p, vals, u, k), x)
  {
    hide Mul, DenseSlots, RowDot;
    if k == 0 {
      DotToZero(RowComb(p, vals, u, 0), x, |x|);
    } else {
      RowCombDot(p, vals, u, x, k - 1);
      DotAxpby(At(u, k - 1), DenseRow(p, vals, k - 1), 1.0, RowComb(p, vals, u, k - 1), x);
      MulUnits(Dot(RowComb(p, vals, u, k - 1), x));
      RowDotDense(p, vals, k - 1, x);
    }
  }

  lemma {:induction false} RowCombAt(p: Pattern, vals: Vec, u: Vec, k: nat, j: nat)
    requires p.WellFormed() && |u| == p.Rows() && k <= p.Rows() && j < p.Rows()
    requires Symmetric(p, vals)
    ensures RowComb(p, vals, u, k)[j] == DotTo(DenseRow(p, vals, j), u, k)
  {
    hide Mul;
    if k > 0 {
      RowCombAt(p, vals, u, k - 1, j);
      MulUnits(RowComb(p, vals, u, k - 1)[j]);
      MulComm(At(u, k - 1), Coef(p, vals, j, k - 1));
      assert Coef(p, vals, k - 1, j) == Coef(p, vals, j, k - 1);
    }
  }

  /** A symmetric matrix may be moved to the other side of an inner product. */
  lemma SelfAdjoint(p: Pattern, vals: Vec, u: Vec, x: Vec)
    requires p.WellFormed() && Symmetric(p, vals) && |u| == |x| == p.Rows()
    ensures Dot(u, MatVec(p, vals, x)) == Dot(MatVec(p, vals, u), x)
  {
    hide Mul, Coef, DenseSlots;
    var n := p.Rows();
    RowCombDot(p, vals, u, x, n);
    forall j | 0 <= j < n ensures RowComb(p, vals, u, n)[j] == MatVec(p, vals, u)[j] {
      RowCombAt(p, vals, u, n, j);
      RowDotDense(p, vals, j, u);
    }
    assert RowComb(p, vals, u, n) == MatVec(p, vals, u);
  }

  /** Symmetric positive definite. */
  ghost predicate Spd(p: Pattern, vals: Vec) {
    && p.WellFormed() && Symmetric(p, vals)
    && forall x: Vec | |x| == p.Rows() && !IsZero(x) :: Dot(x, MatVec(p, vals, x)) > 0.0
  }
}
