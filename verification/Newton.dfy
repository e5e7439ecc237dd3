/** Newton's method on the heat problem: the exact remainder of a step, and the boundary values. */
module Newton {
  import opened Vectors
  import opened Csr
  import opened Heat
  import opened HeatMatrix
  import opened Resubmission
  import Jacobi
  import Krylov

  // ------------------------------------------------------------------------
  // The assembled matrix is the derivative of the assembled residual.
  // ------------------------------------------------------------------------

  /** A quadratic form, expanded around a point. */
  lemma QuadraticExpand(l: real, r: real, dl: real, dr: real)
    ensures Heat.Quadratic(l - dl, r - dr)
         == Heat.Quadratic(l, r) - (Mul(l / 2.0 + r / 6.0, dl) + Mul(l / 6.0 + r / 6.0, dr)) + Heat.Quadratic(dl, dr)
  {}

  lemma DivScale(x: real, h: real)
    ensures Div(x, h) == Mul(Div(1.0, h), x)
  {
    if h == 0.0 {
      MulUnits(x);
    } else {
      hide Mul, Div;
      DivMul(1.0, h);
      MulSwap(h, Div(1.0, h), x);
      MulUnits(x);
      MulComm(h, Mul(Div(1.0, h), x));
      DivUnique(x, h, Mul(Div(1.0, h), x));
    }
  }

  /** The element residual at a displaced point. */
  lemma ElementStep(hp: Params, l: real, r: real, dl: real, dr: real, a: nat)
    requires a < 2
    ensures ElemRhs(hp, l - dl, r - dr, a)
         == ElemRhs(hp, l, r, a) - (Mul(ElemMat(hp, l, r, a, 0), dl) + Mul(ElemMat(hp, l, r, a, 1), dr))
          + Mul(hp.HK(), if a == 0 then Heat.Quadratic(dl, dr) else Heat.Quadratic(dr, dl))
  {
    hide Mul, Div, Heat.Quadratic;
    var h, c := Div(1.0, hp.H()), hp.HK();
    DivScale(l - dl - (r - dr), hp.H());
    DivScale(l - r, hp.H());
    MulAdd(h, l - r, dl);
    MulAdd(h, l - r - dl, dr);
    var (x, y, dx, dy) := if a == 0 then (l, r, dl, dr) else (r, l, dr, dl);
    QuadraticExpand(x, y, dx, dy);
    var s, t := x / 2.0 + y / 6.0, x / 6.0 + y / 6.0;
    MulAdd(c, Heat.Quadratic(x, y), Mul(s, dx) + Mul(t, dy));
    MulAdd(c, Heat.Quadratic(x, y) - (Mul(s, dx) + Mul(t, dy)), Heat.Quadratic(dx, dy));
    MulAdd(c, Mul(s, dx), Mul(t, dy));
    Distribute(h, c, s, dx);
    Distribute(-h, c, t, dy);
    MulNeg(h, dy);
  }

  lemma Distribute(h: real, c: real, s: real, d: real)
    ensures Mul(h + Mul(c, s), d) == Mul(h, d) + Mul(c, Mul(s, d))
  {
    hide Mul;
    MulComm(h + Mul(c, s), d);
    MulAdd(d, h, Mul(c, s));
    MulComm(d, h);
    MulSwap(d, c, s);
    MulComm(d, s);
  }

  /** The quadratic part that a displacement d adds to entry i of the residual. */
  function RemainderAt(hp: Params, d: Vec, i: nat): real {
    var right := if i < hp.numElems then Mul(hp.HK(), Heat.Quadratic(At(d, i), At(d, i + 1))) else 0.0;
    if i == 0 then 0.0 else Mul(hp.HK(), Heat.Quadratic(At(d, i), At(d, i - 1))) + right
  }

  function Remainder(hp: Params, d: Vec): (r: Vec)
    ensures |r| == hp.NumDofs()
  {
    seq(hp.NumDofs(), i requires 0 <= i => RemainderAt(hp, d, i))
  }

  /** A row product of the assembled matrix, slot by slot. */
  lemma RowProduct(hp: Params, vals: Vec, i: nat, x: Vec)
    requires hp.numElems >= 1 && i <= hp.numElems
    ensures RowDot(HeatPattern(hp), vals, i, x)
         == (if i > 0 then Mul(At(vals, 3 * i - 1), At(x, i - 1)) else 0.0)
          + Mul(At(vals, 3 * i), At(x, i))
          + (if i < hp.numElems then Mul(At(vals, 3 * i + 1), At(x, i + 1)) else 0.0)
  {
    hide Mul, HeatPattern;
    RowSlots(hp, i);
    var p := HeatPattern(hp);
    SlotSteps(p, vals, p.Begin(i), x);
  }

  lemma SlotSteps(p: Pattern, vals: Vec, lo: nat, x: Vec)
    ensures SlotSum(p, vals, lo, lo, x) == 0.0
    ensures SlotSum(p, vals, lo, lo + 1, x) == Mul(At(vals, lo), At(x, p.Col(lo)))
    ensures SlotSum(p, vals, lo, lo + 2, x)
        == SlotSum(p, vals, lo, lo + 1, x) + Mul(At(vals, lo + 1), At(x, p.Col(lo + 1)))
    ensures SlotSum(p, vals, lo, lo + 3, x)
        == SlotSum(p, vals, lo, lo + 2, x) + Mul(At(vals, lo + 2), At(x, p.Col(lo + 2)))
  {
    hide Mul;
  }

  /** The first row of the assembled matrix is that of the identity. */
  lemma BoundaryRow(hp: Params, u: Vec, x: Vec)
    requires hp.numElems >= 1
    ensures RowDot(HeatPattern(hp), Values(hp, u), 0, x) == At(x, 0)
  {
    hide Mul, HeatPattern, SlotSum;
    RowProduct(hp, Values(hp, u), 0, x);
    MulUnits(At(x, 0));
    MulUnits(At(x, 1));
  }

  /** A row of the assembled matrix against a vector that vanishes at the boundary, element by element. */
  lemma RowByElements(hp: Params, u: Vec, i: nat, d: Vec)
    requires hp.numElems >= 1 && 1 <= i <= hp.numElems && At(d, 0) == 0.0
    ensures RowDot(HeatPattern(hp), Values(hp, u), i, d)
         == (Mul(ElemMat(hp, At(u, i - 1), At(u, i), 1, 0), At(d, i - 1))
             + Mul(ElemMat(hp, At(u, i - 1), At(u, i), 1, 1), At(d, i)))
          + (if i < hp.numElems then
               Mul(ElemMat(hp, At(u, i), At(u, i + 1), 0, 0), At(d, i))
                   + Mul(ElemMat(hp, At(u, i), At(u, i + 1), 0, 1), At(d, i + 1))
             else 0.0)
  {
    hide Mul, ElemMat, HeatPattern, Values, BlockSum, RowDot;
    var n := hp.numElems;
    RowProduct(hp, Values(hp, u), i, d);
    ValuesAt(hp, u, i, i);
    BlockSumDiagonal(hp, u, i, n);
    if i > 1 {
      ValuesAt(hp, u, i, i - 1);
      BlockSumBeside(hp, u, i, i - 1, n);
    } else {
      MulUnits(At(Values(hp, u), 2));
      MulUnits(ElemMat(hp, At(u, 0), At(u, 1), 1, 0));
    }
    if i < n {
      ValuesAt(hp, u, i, i + 1);
      BlockSumBeside(hp, u, i, i + 1, n);
      var left, right := ElemMat(hp, At(u, i - 1), At(u, i), 1, 1), ElemMat(hp, At(u, i), At(u, i + 1), 0, 0);
      MulAdd(At(d, i), left, right);
      MulComm(At(d, i), left + right);
      MulComm(At(d, i), left);
      MulComm(At(d, i), right);
    }
  }

  /** The point reached from u by subtracting d. */
  function Subtracted(u: Vec, d: Vec): (r: Vec)
    ensures |r| == |u|
  {
    Axpby(-1.0, d, 1.0, u)
  }

  lemma SubtractedAt(u: Vec, d: Vec, i: nat)
    requires |u| == |d|
    ensures At(Subtracted(u, d), i) == At(u, i) - At(d, i)
  {
    hide Mul;
    AtAxpby(-1.0, d, 1.0, u, i);
    MulUnits(At(d, i));
    MulUnits(At(u, i));
  }

  /**
   * The residual after a step is the residual before it, minus the matrix times the step,
   * plus a remainder that is quadratic in the step and does not depend on the point.
   */
  lemma StepExpansion(hp: Params, u: Vec, d: Vec, i: nat)
    requires hp.numElems >= 1 && |u| == |d| == hp.NumDofs() && At(d, 0) == 0.0 && i <= hp.numElems
    ensures Rhs(hp, Subtracted(u, d))[i]
         == Rhs(hp, u)[i] - RowDot(HeatPattern(hp), Values(hp, u), i, d) + RemainderAt(hp, d, i)
  {
    hide Mul, ElemMat, ElemRhs, HeatPattern, Values, RowDot, Rhs, BlockRhsSum, Heat.Quadratic, Subtracted;
    var v, n := Subtracted(u, d), hp.numElems;
    AssembledRhs(hp, u, i);
    AssembledRhs(hp, v, i);
    if i == 0 {
      BoundaryRow(hp, u, d);
    } else {
      BlockRhsSumAt(hp, u, i, n);
      BlockRhsSumAt(hp, v, i, n);
      RowByElements(hp, u, i, d);
      SubtractedAt(u, d, i - 1);
      SubtractedAt(u, d, i);
      ElementStep(hp, At(u, i - 1), At(u, i), At(d, i - 1), At(d, i), 1);
      if i < n {
        SubtractedAt(u, d, i + 1);
        ElementStep(hp, At(u, i), At(u, i + 1), At(d, i), At(d, i + 1), 0);
      }
    }
  }

  /** A step that solves the linear system leaves exactly the quadratic remainder. */
  lemma ExactStep(hp: Params, u: Vec, d: Vec)
    requires hp.numElems >= 1 && |u| == |d| == hp.NumDofs()
    requires MatVec(HeatPattern(hp), Values(hp, u), d) == Rhs(hp, u)
    ensures At(d, 0) == 0.0
    ensures Rhs(hp, Subtracted(u, d)) == Remainder(hp, d)
  {
    hide Mul, HeatPattern, Values, Rhs, RowDot, RemainderAt, Subtracted;
    PatternWellFormed(hp);
    var p, vals := HeatPattern(hp), Values(hp, u);
    forall i | 0 <= i <= hp.numElems ensures RowDot(p, vals, i, d) == Rhs(hp, u)[i] {
      assert MatVec(p, vals, d)[i] == Rhs(hp, u)[i];
    }
    AssembledRhs(hp, u, 0);
    BoundaryRow(hp, u, d);
    forall i | 0 <= i <= hp.numElems ensures Rhs(hp, Subtracted(u, d))[i] == Remainder(hp, d)[i] {
      StepExpansion(hp, u, d, i);
    }
  }

  /** Whatever the step is, the residual after it is the quadratic remainder plus the residual of the linear system. */
  lemma StepResidual(hp: Params, u: Vec, d: Vec, prec: Krylov.Prec)
    requires hp.numElems >= 1 && |u| == |d| == hp.NumDofs() && At(d, 0) == 0.0
    ensures Subtracted(Rhs(hp, Subtracted(u, d)), Remainder(hp, d)) == LinearSystem(hp, u, prec).Residual(d)
  {
    var s, e := LinearSystem(hp, u, prec), Subtracted(Rhs(hp, Subtracted(u, d)), Remainder(hp, d));
    hide Mul, HeatPattern, Values, Rhs, RowDot, RemainderAt, Subtracted;
    PatternWellFormed(hp);
    forall i | 0 <= i <= hp.numElems ensures e[i] == s.Residual(d)[i] {
      StepExpansion(hp, u, d, i);
      SubtractedAt(Rhs(hp, Subtracted(u, d)), Remainder(hp, d), i);
      AtAxpby(-1.0, s.A(d), 1.0, s.rhs, i);
      MulUnits(s.A(d)[i]);
      MulUnits(s.rhs[i]);
    }
  }

  lemma ProductBound(a: real, b: real, m: real)
    requires -m <= a <= m && -m <= b <= m
    ensures -Mul(m, m) <= Mul(a, b) <= Mul(m, m)
  {
    assert (m - a) * (m + b) >= 0.0;
    assert (m + a) * (m - b) >= 0.0;
    assert (m - a) * (m - b) >= 0.0;
    assert (m + a) * (m + b) >= 0.0;
  }

  lemma QuadraticBound(a: real, b: real, m: real)
    requires -m <= a <= m && -m <= b <= m
    ensures -Mul(m, m) / 2.0 <= Heat.Quadratic(a, b) <= Mul(m, m) / 2.0
  {
    ProductBound(a, a, m);
    ProductBound(a, b, m);
    ProductBound(b, b, m);
    assert Heat.Quadratic(a, b) == Mul(a, a) / 4.0 + Mul(a, b) / 6.0 + Mul(b, b) / 12.0;
  }

  lemma WeightBound(c: real, q: real, m2: real)
    requires -m2 / 2.0 <= q <= m2 / 2.0
    ensures -Mul(Abs(c), m2) / 2.0 <= Mul(c, q) <= Mul(Abs(c), m2) / 2.0
  {
    hide Mul;
    var a, h := Abs(c), m2 / 2.0;
    MulNonneg(a, h - q);
    MulNonneg(a, h + q);
    MulAdd(a, h, q);
    MulAdd(a, h, h);
    MulNeg(c, q);
  }

  lemma MulNonneg(a: real, b: real)
    requires a >= 0.0 && b >= 0.0
    ensures Mul(a, b) >= 0.0
  {
    MulSign(a, b);
  }

  function Abs(x: real): real {
    if x < 0.0 then -x else x
  }

  /** Every entry of the remainder is at most h |k| times the square of the largest entry of the step. */
  lemma RemainderBound(hp: Params, d: Vec, m: real, i: nat)
    requires hp.numElems >= 1 && |d| == hp.NumDofs() && i <= hp.numElems
    requires forall j | 0 <= j < |d| :: -m <= d[j] <= m
    ensures Abs(RemainderAt(hp, d, i)) <= Mul(Abs(hp.HK()), Mul(m, m))
    ensures hp.length >= 0.0 ==> Abs(hp.HK()) == Mul(hp.H(), Abs(hp.k))
  {
    hide Mul, Heat.Quadratic, Params.HK;
    var c := hp.HK();
    MulSign(m, m);
    ProductBound(d[0], d[0], m);
    AbsProduct(hp);
    if i > 0 {
      QuadraticBound(d[i], d[i - 1], m);
      WeightBound(c, Heat.Quadratic(d[i], d[i - 1]), Mul(m, m));
      if i < hp.numElems {
        QuadraticBound(d[i], d[i + 1], m);
        WeightBound(c, Heat.Quadratic(d[i], d[i + 1]), Mul(m, m));
      }
    }
    QuadraticBound(0.0, 0.0, m);
    WeightBound(c, Heat.Quadratic(0.0, 0.0), Mul(m, m));
  }

  lemma AbsProduct(hp: Params)
    ensures hp.length >= 0.0 ==> Abs(hp.HK()) == Mul(hp.H(), Abs(hp.k))
  {
    var n := hp.numElems as real;
    if hp.length >= 0.0 {
      if hp.numElems == 0 {
        assert hp.H() == 0.0;
      } else {
        assert hp.H() >= 0.0;
      }
      MulSign(hp.H(), hp.k);
      MulSign(hp.H(), -hp.k);
      MulNeg(hp.H(), hp.k);
    }
  }

  /** Quadratic convergence: after an exact step no residual entry exceeds h |k| times the squared step. */
  lemma ExactStepBound(hp: Params, u: Vec, d: Vec, m: real, i: nat)
    requires hp.numElems >= 1 && hp.length >= 0.0 && |u| == |d| == hp.NumDofs() && i <= hp.numElems
    requires MatVec(HeatPattern(hp), Values(hp, u), d) == Rhs(hp, u)
    requires forall j | 0 <= j < |d| :: -m <= d[j] <= m
    ensures Abs(Rhs(hp, Subtracted(u, d))[i]) <= Mul(Mul(hp.H(), Abs(hp.k)), Mul(m, m))
  {
    hide Mul, Rhs, RemainderAt, MatVec, Values, HeatPattern, Subtracted;
    ExactStep(hp, u, d);
    RemainderBound(hp, d, m, i);
  }

  // ------------------------------------------------------------------------
  // The boundary values.
  // ------------------------------------------------------------------------

  lemma DiagAt(p: Pattern, vals: Vec, lo: nat)
    requires p.Col(lo) == 0 && p.Col(lo + 1) != 0
    ensures Jacobi.LastDiag(p, vals, lo, lo + 2, 0) == At(vals, lo)
  {}

  /** No sweep changes the boundary entry of the vector it is applied to. */
  lemma BoundarySweep(hp: Params, u: Vec, src: Vec, x: Vec)
    requires hp.numElems >= 1 && |src| == hp.NumDofs()
    ensures At(Jacobi.Sweep(HeatPattern(hp), Values(hp, u), src, x), 0) == At(src, 0)
  {
    hide Mul, HeatPattern, SlotSum;
    var p, vals := HeatPattern(hp), Values(hp, u);
    PatternWellFormed(hp);
    PatternDiagonal(hp);
    RowSlots(hp, 0);
    DiagAt(p, vals, 0);
    Jacobi.RowSplit(p, vals, 0, x);
    BoundaryRow(hp, u, x);
    MulUnits(At(x, 0));
    MulUnits(At(src, 0));
    DivUnique(At(src, 0), 1.0, At(src, 0));
  }

  /** The preconditioner keeps the boundary entry, whatever the number of sweeps. */
  lemma BoundaryPrec(hp: Params, u: Vec, s: Krylov.System, r: Vec)
    requires hp.numElems >= 1 && s.p == HeatPattern(hp) && s.vals == Values(hp, u) && |r| == hp.NumDofs()
    ensures At(s.M(r), 0) == At(r, 0)
  {
    hide HeatPattern, Values, Jacobi.Sweep;
    match s.prec
    case Identity =>
    case Jacobi(m) =>
      var k := if m == 0 then 1 else m;
      BoundarySweep(hp, u, r, Jacobi.Iterate(s.p, s.vals, r, k - 1));
  }

  /** The system of a Newton iteration at u. */
  function LinearSystem(hp: Params, u: Vec, prec: Krylov.Prec): Krylov.System {
    Krylov.System(HeatPattern(hp), Values(hp, u), Rhs(hp, u), prec)
  }

  /** Solution, residual and direction vanish at the boundary. */
  ghost predicate Grounded(st: Krylov.State) {
    At(st.sol, 0) == 0.0 && At(st.res, 0) == 0.0 && At(st.dir, 0) == 0.0
  }

  ghost predicate FullSize(hp: Params, st: Krylov.State) {
    |st.sol| == |st.res| == |st.dir| == hp.NumDofs()
  }

  lemma GroundedCombination(a: real, x: Vec, b: real, y: Vec)
    requires |x| == |y| && At(x, 0) == 0.0 && At(y, 0) == 0.0
    ensures At(Axpby(a, x, b, y), 0) == 0.0
  {
    hide Mul;
    AtAxpby(a, x, b, y, 0);
    MulUnits(a);
    MulUnits(b);
  }

  lemma BoundaryStart(hp: Params, u: Vec, prec: Krylov.Prec, d0: Vec)
    requires hp.numElems >= 1 && |d0| == hp.NumDofs() && At(d0, 0) == 0.0
    ensures Grounded(Krylov.Start(LinearSystem(hp, u, prec), d0))
        && FullSize(hp, Krylov.Start(LinearSystem(hp, u, prec), d0))
  {
    hide Mul, HeatPattern, Values, RowDot, Dot, Rhs, Axpby;
    var s := LinearSystem(hp, u, prec);
    PatternWellFormed(hp);
    BoundaryRow(hp, u, d0);
    assert At(s.A(d0), 0) == 0.0;
    AssembledRhs(hp, u, 0);
    GroundedCombination(-1.0, s.A(d0), 1.0, s.rhs);
    BoundaryPrec(hp, u, s, s.Residual(d0));
  }

  /** Every iteration of the linear solver keeps the boundary entries at zero. */
  lemma BoundaryAdvance(hp: Params, u: Vec, prec: Krylov.Prec, st: Krylov.State)
    requires hp.numElems >= 1 && Grounded(st) && FullSize(hp, st)
    ensures Grounded(Krylov.Advance(LinearSystem(hp, u, prec), st))
        && FullSize(hp, Krylov.Advance(LinearSystem(hp, u, prec), st))
  {
    hide Mul, HeatPattern, Values, RowDot, Dot, Rhs, Axpby, Div;
    var s := LinearSystem(hp, u, prec);
    PatternWellFormed(hp);
    BoundaryRow(hp, u, st.dir);
    assert At(s.A(st.dir), 0) == 0.0;
    var a, r := Krylov.StepSize(s, st), Krylov.NextRes(s, st);
    GroundedCombination(a, st.dir, 1.0, st.sol);
    GroundedCombination(-a, s.A(st.dir), 1.0, st.res);
    BoundaryPrec(hp, u, s, r);
    GroundedCombination(1.0, s.M(r), Div(Dot(s.M(r), r), st.rho), st.dir);
  }

  /** The boundary entries of every state of the queue solver. */
  lemma {:induction false} BoundaryNth(hp: Params, u: Vec, prec: Krylov.Prec, d0: Vec, k: nat)
    requires hp.numElems >= 1 && |d0| == hp.NumDofs() && At(d0, 0) == 0.0
    ensures Grounded(Krylov.Nth(LinearSystem(hp, u, prec), d0, k))
        && FullSize(hp, Krylov.Nth(LinearSystem(hp, u, prec), d0, k))
  {
    hide Krylov.Advance, Krylov.Start, Grounded, FullSize, LinearSystem;
    if k == 0 {
      BoundaryStart(hp, u, prec, d0);
    } else {
      BoundaryNth(hp, u, prec, d0, k - 1);
      BoundaryAdvance(hp, u, prec, Krylov.Nth(LinearSystem(hp, u, prec), d0, k - 1));
    }
  }

  /** The boundary entries of every state of the graph solver, whatever preconditioner its graph was built with. */
  lemma {:induction false} BoundaryResubmitted(hp: Params, u: Vec, prec: Krylov.Prec, built: Krylov.Prec, d0: Vec,
      k: nat)
    requires hp.numElems >= 1 && |d0| == hp.NumDofs() && At(d0, 0) == 0.0
    ensures var st := Resubmitted(LinearSystem(hp, u, built), Krylov.Start(LinearSystem(hp, u, prec), d0), k);
            Grounded(st) && FullSize(hp, st)
  {
    hide Krylov.Advance, Krylov.Start, Grounded, FullSize, LinearSystem;
    if k == 0 {
      BoundaryStart(hp, u, prec, d0);
    } else {
      BoundaryResubmitted(hp, u, prec, built, d0, k - 1);
      BoundaryAdvance(hp, u, built,
          Resubmitted(LinearSystem(hp, u, built), Krylov.Start(LinearSystem(hp, u, prec), d0), k - 1));
    }
  }

  // ------------------------------------------------------------------------
  // The assembled matrix is positive definite.
  // ------------------------------------------------------------------------

  /** What the left and the right node of an element contribute to the quadratic form of the matrix. */
  function LeftHalf(hp: Params, u: Vec, y: Vec, e: nat): real {
    Mul(At(y, e), Mul(ElemMat(hp, At(u, e), At(u, e + 1), 0, 0), At(y, e))
        + Mul(ElemMat(hp, At(u, e), At(u, e + 1), 0, 1), At(y, e + 1)))
  }

  function RightHalf(hp: Params, u: Vec, y: Vec, e: nat): real {
    Mul(At(y, e + 1), Mul(ElemMat(hp, At(u, e), At(u, e + 1), 1, 0), At(y, e))
        + Mul(ElemMat(hp, At(u, e), At(u, e + 1), 1, 1), At(y, e + 1)))
  }

  function FormSum(hp: Params, u: Vec, y: Vec, n: nat): real {
    if n == 0 then 0.0 else FormSum(hp, u, y, n - 1) + (LeftHalf(hp, u, y, n - 1) + RightHalf(hp, u, y, n - 1))
  }

  /** x with its boundary entry removed. */
  function Interior(x: Vec): (y: Vec)
    ensures |y| == |x| && At(y, 0) == 0.0 && forall i | 1 <= i < |x| :: y[i] == x[i]
  {
    if x == [] then [] else x[0 := 0.0]
  }

  /** Rows behind the first one do not see the boundary entry. */
  lemma InteriorRow(hp: Params, u: Vec, x: Vec, i: nat)
    requires hp.numElems >= 1 && |x| == hp.NumDofs() && 1 <= i <= hp.numElems
    ensures RowDot(HeatPattern(hp), Values(hp, u), i, x) == RowDot(HeatPattern(hp), Values(hp, u), i, Interior(x))
  {
    hide Mul, HeatPattern, RowDot, FillMats, SlotAdds;
    RowProduct(hp, Values(hp, u), i, x);
    RowProduct(hp, Values(hp, u), i, Interior(x));
    if i == 1 {
      assert At(Values(hp, u), 2) == 0.0;
      MulUnits(At(x, 0));
      MulUnits(At(Interior(x), 0));
    }
  }

  /** One row of the quadratic form, as halves of its two elements. */
  lemma RowForm(hp: Params, u: Vec, x: Vec, i: nat)
    requires hp.numElems >= 1 && |x| == hp.NumDofs() && 1 <= i <= hp.numElems
    ensures Mul(At(x, i), RowDot(HeatPattern(hp), Values(hp, u), i, x))
         == RightHalf(hp, u, Interior(x), i - 1) + if i < hp.numElems then LeftHalf(hp, u, Interior(x), i) else 0.0
  {
    hide Mul, HeatPattern, RowDot, Values, ElemMat;
    var y := Interior(x);
    InteriorRow(hp, u, x, i);
    RowByElements(hp, u, i, y);
    var right := Mul(ElemMat(hp, At(u, i - 1), At(u, i), 1, 0), At(y, i - 1))
        + Mul(ElemMat(hp, At(u, i - 1), At(u, i), 1, 1), At(y, i));
    var left := Mul(ElemMat(hp, At(u, i), At(u, i + 1), 0, 0), At(y, i))
        + Mul(ElemMat(hp, At(u, i), At(u, i + 1), 0, 1), At(y, i + 1));
    MulAdd(At(x, i), right, left);
    MulAdd(At(x, i), right, 0.0);
    MulUnits(At(x, i));
  }

  /** The quadratic form of the first rows is that of the elements, plus the square at the boundary. */
  lemma {:induction false} FormByElements(hp: Params, u: Vec, x: Vec, k: nat)
    requires hp.numElems >= 1 && |x| == hp.NumDofs() && 1 <= k <= hp.NumDofs()
    ensures DotTo(x, MatVec(HeatPattern(hp), Values(hp, u), x), k)
         == Mul(At(x, 0), At(x, 0)) + FormSum(hp, u, Interior(x), k - 1)
          + if k <= hp.numElems then LeftHalf(hp, u, Interior(x), k - 1) else 0.0
  {
    hide Mul, HeatPattern, RowDot, Values, LeftHalf, RightHalf;
    PatternWellFormed(hp);
    var ax := MatVec(HeatPattern(hp), Values(hp, u), x);
    DotToStep(x, ax, k - 1);
    if k == 1 {
      BoundaryRow(hp, u, x);
      LeftHalfZero(hp, u, Interior(x));
    } else {
      FormByElements(hp, u, x, k - 1);
      RowForm(hp, u, x, k - 1);
    }
  }

  lemma LeftHalfZero(hp: Params, u: Vec, y: Vec)
    requires At(y, 0) == 0.0
    ensures LeftHalf(hp, u, y, 0) == 0.0
  {
    hide ElemMat;
  }

  /** The element form is a square of the difference plus weighted sums of squares. */
  lemma ElementForm(h: real, c: real, l: real, r: real, a: real, b: real)
    ensures Mul(a, Mul(h + Mul(c, l / 2.0 + r / 6.0), a) + Mul(-h + Mul(c, l / 6.0 + r / 6.0), b))
          + Mul(b, Mul(-h + Mul(c, l / 6.0 + r / 6.0), a) + Mul(h + Mul(c, l / 6.0 + r / 2.0), b))
         == Mul(h, Mul(a - b, a - b))
          + Mul(c, Mul(l, (2.0 * Mul(a, a) + Mul(a + b, a + b)) / 6.0)
              + Mul(r, (2.0 * Mul(b, b) + Mul(a + b, a + b)) / 6.0))
  {}

  lemma SquareNonneg(a: real)
    ensures Mul(a, a) >= 0.0
    ensures a != 0.0 ==> Mul(a, a) > 0.0
  {
    MulSign(a, a);
  }

  /** Physical parameters: a positive element size, a nonnegative reaction, a nonnegative solution. */
  ghost predicate Physical(hp: Params, u: Vec) {
    hp.numElems >= 1 && hp.length > 0.0 && hp.k >= 0.0 && |u| == hp.NumDofs() && forall i | 0 <= i < |u| :: u[i] >= 0.0
  }

  lemma PhysicalWeights(hp: Params)
    requires hp.numElems >= 1 && hp.length > 0.0 && hp.k >= 0.0
    ensures Div(1.0, hp.H()) > 0.0 && hp.HK() >= 0.0
  {
    var n := hp.numElems as real;
    assert hp.H() > 0.0 by {
      DivMul(hp.length, n);
      MulSign(hp.H(), n);
      MulSign(-hp.H(), n);
      MulNeg(hp.H(), n);
    }
    MulNonneg(hp.H(), hp.k);
    DivMul(1.0, hp.H());
    MulSign(Div(1.0, hp.H()), hp.H());
    MulSign(-Div(1.0, hp.H()), hp.H());
    MulNeg(Div(1.0, hp.H()), hp.H());
  }

  /** No element has negative energy, and one whose ends differ has positive energy. */
  lemma ElementPositive(hp: Params, u: Vec, y: Vec, e: nat)
    requires Physical(hp, u) && e < hp.numElems
    ensures LeftHalf(hp, u, y, e) + RightHalf(hp, u, y, e) >= 0.0
    ensures At(y, e) != At(y, e + 1) ==> LeftHalf(hp, u, y, e) + RightHalf(hp, u, y, e) > 0.0
  {
    var l, r, a, b := At(u, e), At(u, e + 1), At(y, e), At(y, e + 1);
    var h, c := Div(1.0, hp.H()), hp.HK();
    assert l >= 0.0 && r >= 0.0;
    hide Mul, Div, Physical, Params.HK, Params.H;
    PhysicalParts(hp, u);
    PhysicalWeights(hp);
    ElementForm(h, c, l, r, a, b);
    SquareNonneg(a);
    SquareNonneg(b);
    SquareNonneg(a + b);
    SquareNonneg(a - b);
    MulNonneg(l, (2.0 * Mul(a, a) + Mul(a + b, a + b)) / 6.0);
    MulNonneg(r, (2.0 * Mul(b, b) + Mul(a + b, a + b)) / 6.0);
    MulNonneg(c, Mul(l, (2.0 * Mul(a, a) + Mul(a + b, a + b)) / 6.0)
        + Mul(r, (2.0 * Mul(b, b) + Mul(a + b, a + b)) / 6.0));
    MulNonneg(h, Mul(a - b, a - b));
    MulSign(h, Mul(a - b, a - b));
  }

  lemma PhysicalParts(hp: Params, u: Vec)
    requires Physical(hp, u)
    ensures hp.numElems >= 1 && hp.length > 0.0 && hp.k >= 0.0
  {}

  /** The sum of the element energies is nonnegative, and positive if a nonzero value was reached from the boundary. */
  lemma {:induction false} FormPositive(hp: Params, u: Vec, y: Vec, n: nat, j: nat)
    requires Physical(hp, u) && n <= hp.numElems && At(y, 0) == 0.0
    ensures FormSum(hp, u, y, n) >= 0.0
    ensures j <= n && At(y, j) != 0.0 ==> FormSum(hp, u, y, n) > 0.0
  {
    hide Physical, LeftHalf, RightHalf;
    if n > 0 {
      FormPositive(hp, u, y, n - 1, j);
      FormPositive(hp, u, y, n - 1, n - 1);
      ElementPositive(hp, u, y, n - 1);
    }
  }

  /** With physical parameters the assembled matrix is symmetric positive definite, as conjugate gradients need. */
  lemma AssembledSpd(hp: Params, u: Vec)
    requires Physical(hp, u)
    ensures Spd(HeatPattern(hp), Values(hp, u))
  {
    PatternWellFormed(hp);
    AssembledSymmetric(hp, u);
    forall x: Vec | |x| == hp.NumDofs() && !IsZero(x)
      ensures Dot(x, MatVec(HeatPattern(hp), Values(hp, u), x)) > 0.0
    {
      hide Mul, HeatPattern, Values, MatVec, FormSum, Physical, LeftHalf;
      PhysicalParts(hp, u);
      var i :| 0 <= i < |x| && x[i] != 0.0;
      FormByElements(hp, u, x, hp.NumDofs());
      FormPositive(hp, u, Interior(x), hp.numElems, i);
      SquareNonneg(At(x, 0));
    }
  }

  // ------------------------------------------------------------------------
  // The diagonal of the assembled matrix outweighs the rest.
  // ------------------------------------------------------------------------

  function Sign(i: nat): real {
    if i % 2 == 0 then 1.0 else -1.0
  }

  /** x with every other sign changed. */
  function Alternate(x: Vec): (z: Vec)
    ensures |z| == |x|
  {
    seq(|x|, i requires 0 <= i < |x| => Mul(Sign(i), x[i]))
  }

  lemma SignSteps(i: nat, a: real, b: real)
    ensures Mul(Sign(i), Mul(a, Mul(Sign(i), b))) == Mul(a, b)
    ensures Mul(Sign(i + 1), Mul(a, Mul(Sign(i), b))) == -Mul(a, b)
    ensures Mul(Sign(i), Mul(a, Mul(Sign(i + 1), b))) == -Mul(a, b)
    ensures Mul(Sign(i), b) == 0.0 <==> b == 0.0
  {}

  /** In a tridiagonal matrix, changing every other sign changes the sign of everything off the diagonal. */
  lemma AlternateRow(hp: Params, vals: Vec, x: Vec, i: nat)
    requires hp.numElems >= 1 && |x| == hp.NumDofs() && i <= hp.numElems
    ensures Mul(Sign(i), RowDot(HeatPattern(hp), vals, i, Alternate(x)))
         == RowDot(HeatPattern(hp), vals, i, x) - 2.0 * Jacobi.Off(HeatPattern(hp), vals, i, x)
  {
    hide Mul, HeatPattern, RowDot, Jacobi.Off, Sign, Jacobi.Diag;
    var p, z := HeatPattern(hp), Alternate(x);
    var v, w, t := At(vals, 3 * i - 1), At(vals, 3 * i), At(vals, 3 * i + 1);
    RowProduct(hp, vals, i, x);
    RowProduct(hp, vals, i, z);
    OffByNeighbours(hp, vals, i, x);
    var left := if i > 0 then Mul(v, At(z, i - 1)) else 0.0;
    var right := if i < hp.numElems then Mul(t, At(z, i + 1)) else 0.0;
    MulAdd(Sign(i), left + Mul(w, At(z, i)), right);
    MulAdd(Sign(i), left, Mul(w, At(z, i)));
    MulUnits(Sign(i));
    SignSteps(i, w, At(x, i));
    if i > 0 {
      SignSteps(i - 1, v, At(x, i - 1));
    }
    if i < hp.numElems {
      SignSteps(i, t, At(x, i + 1));
    }
  }

  /** Off the diagonal a row has at most two neighbours. */
  lemma OffByNeighbours(hp: Params, vals: Vec, i: nat, x: Vec)
    requires hp.numElems >= 1 && |x| == hp.NumDofs() && i <= hp.numElems
    ensures Jacobi.Off(HeatPattern(hp), vals, i, x)
         == (if i > 0 then Mul(At(vals, 3 * i - 1), At(x, i - 1)) else 0.0)
          + (if i < hp.numElems then Mul(At(vals, 3 * i + 1), At(x, i + 1)) else 0.0)
  {
    hide Mul, HeatPattern, RowDot, Jacobi.Off, Jacobi.Diag, Jacobi.DiagonalStored, Jacobi.DiagSlot;
    PatternWellFormed(hp);
    PatternDiagonal(hp);
    Jacobi.RowSplit(HeatPattern(hp), vals, i, x);
    Jacobi.DiagAgrees(HeatPattern(hp), vals, i);
    RowProduct(hp, vals, i, x);
  }

  lemma {:induction false} AlternateForm(hp: Params, vals: Vec, x: Vec, k: nat)
    requires hp.numElems >= 1 && |x| == hp.NumDofs() && k <= hp.NumDofs()
    ensures var p := HeatPattern(hp);
            DotTo(Alternate(x), MatVec(p, vals, Alternate(x)), k)
            == DotTo(x, MatVec(p, vals, x), k) - 2.0 * DotTo(x, Jacobi.OffVec(p, vals, x), k)
  {
    hide Mul, HeatPattern, RowDot, Jacobi.Off, Sign;
    var p, z := HeatPattern(hp), Alternate(x);
    PatternWellFormed(hp);
    if k > 0 {
      var i := k - 1;
      AlternateForm(hp, vals, x, i);
      DotToStep(z, MatVec(p, vals, z), i);
      DotToStep(x, MatVec(p, vals, x), i);
      DotToStep(x, Jacobi.OffVec(p, vals, x), i);
      AlternateRow(hp, vals, x, i);
      var off := Jacobi.Off(p, vals, i, x);
      MulSwap(Sign(i), x[i], RowDot(p, vals, i, z));
      MulAdd(x[i], RowDot(p, vals, i, x) - off, off);
      MulAdd(x[i], RowDot(p, vals, i, x), off);
    }
  }

  /** Wherever the assembled matrix is positive definite, its diagonal outweighs the rest. */
  lemma AssembledDominant(hp: Params, u: Vec)
    requires hp.numElems >= 1 && Spd(HeatPattern(hp), Values(hp, u))
    ensures Jacobi.Dominant(HeatPattern(hp), Values(hp, u))
  {
    hide Mul, HeatPattern, Values, MatVec, DotTo, Spd, Alternate, Jacobi.OffVec;
    var p, vals := HeatPattern(hp), Values(hp, u);
    PatternWellFormed(hp);
    forall x: Vec | |x| == p.Rows() && !IsZero(x)
      ensures Dot(x, MatVec(p, vals, x)) > 2.0 * Dot(x, Jacobi.OffVec(p, vals, x))
    {
      AlternateNonzero(x);
      SpdAt(p, vals, Alternate(x));
      AlternateForm(hp, vals, x, hp.NumDofs());
    }
  }

  lemma SpdAt(p: Pattern, vals: Vec, x: Vec)
    requires Spd(p, vals) && |x| == p.Rows() && !IsZero(x)
    ensures Dot(x, MatVec(p, vals, x)) > 0.0
  {}

  lemma AlternateNonzero(x: Vec)
    requires !IsZero(x)
    ensures !IsZero(Alternate(x))
  {
    var i :| 0 <= i < |x| && x[i] != 0.0;
    SignSteps(i, 0.0, x[i]);
    assert Alternate(x)[i] != 0.0;
  }

  /**
   * So the linear system at any state meets the hypotheses of the convergence theorems, with any preconditioner,
   * exactly where its matrix is symmetric positive definite, and in particular at every physical state.
   */
  lemma LinearSystemSound(hp: Params, u: Vec, prec: Krylov.Prec)
    requires hp.numElems >= 1
    ensures LinearSystem(hp, u, prec).Sound() <==> Spd(HeatPattern(hp), Values(hp, u))
    ensures Physical(hp, u) ==> LinearSystem(hp, u, prec).Sound()
  {
    var s := LinearSystem(hp, u, prec);
    SoundSpd(s);
    hide HeatPattern, Values, Rhs, Physical, Spd, Jacobi.Dominant, Jacobi.DiagonalStored, Krylov.System.Sound;
    PatternWellFormed(hp);
    PatternDiagonal(hp);
    if Physical(hp, u) {
      AssembledSpd(hp, u);
    }
    if Spd(HeatPattern(hp), Values(hp, u)) {
      AssembledDominant(hp, u);
      Krylov.SoundSystem(s);
    }
  }

  lemma SoundSpd(s: Krylov.System)
    ensures s.Sound() ==> Spd(s.p, s.vals)
  {
    hide Spd, Krylov.System.M, DotTo;
  }
}
