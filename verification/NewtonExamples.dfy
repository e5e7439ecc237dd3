/** One element in numbers: a state that leaves the range, and a second solve that does nothing. */
module NewtonExamples {
  import opened Vectors
  import opened Csr
  import opened Heat
  import opened HeatMatrix
  import opened Newton
  import opened NewtonStates
  import opened NewtonRange
  import opened Resubmission
  import Dev = Device
  import Krylov
  import NewtonSolver
  import StaleSweeps
  import Tasks

  // ------------------------------------------------------------------------
  // A single element.
  // ------------------------------------------------------------------------

  /** The second row of the only system there is. */
  lemma ElementRow(hp: Params, a: real, x: Vec)
    requires hp.numElems == 1 && |x| == 2
    ensures RowDot(HeatPattern(hp), Values(hp, [1.0, a]), 1, x) == Mul(ElemMat(hp, 1.0, a, 1, 1), x[1])
    ensures Rhs(hp, [1.0, a])[1] == ElemRhs(hp, 1.0, a, 1)
  {
    hide Mul, ElemMat, ElemRhs, HeatPattern, Values, RowDot, Rhs, BlockRhsSum;
    var u := [1.0, a];
    assert At(u, 0) == 1.0 && At(u, 1) == a;
    InteriorRow(hp, u, x, 1);
    RowByElements(hp, u, 1, Interior(x));
    MulUnits(ElemMat(hp, 1.0, a, 1, 0));
    AssembledRhs(hp, u, 1);
    BlockRhsSumAt(hp, u, 1, 1);
  }

  /** What an exact step subtracts. */
  lemma ElementSolve(hp: Params, a: real, d: Vec)
    requires hp.numElems == 1 && |d| == 2
    requires MatVec(HeatPattern(hp), Values(hp, [1.0, a]), d) == Rhs(hp, [1.0, a])
    ensures d[0] == 0.0 && Mul(ElemMat(hp, 1.0, a, 1, 1), d[1]) == ElemRhs(hp, 1.0, a, 1)
  {
    hide Mul, ElemMat, ElemRhs, HeatPattern, Values, RowDot, Rhs, MatVec;
    PatternWellFormed(hp);
    ElementRow(hp, a, d);
    RowOfProduct(HeatPattern(hp), Values(hp, [1.0, a]), d, 1);
    ExactStep(hp, [1.0, a], d);
  }

  /**
   * With one element an exact step from a value between zero and one never exceeds one, and stays nonnegative
   * exactly as long as the reaction is no stronger than the conduction allows.
   */
  lemma SingleElement(hp: Params, a: real, d: Vec)
    requires hp.numElems == 1 && hp.length > 0.0 && hp.k >= 0.0 && 0.0 <= a <= 1.0 && |d| == 2
    requires MatVec(HeatPattern(hp), Values(hp, [1.0, a]), d) == Rhs(hp, [1.0, a])
    ensures a - d[1] <= 1.0
    ensures a - d[1] >= 0.0 <==> Mul(hp.HK(), 1.0 / 12.0 - a * a / 4.0) <= Div(1.0, hp.H())
  {
    hide Mul, HeatPattern, Values, Rhs, MatVec, ElemMat, ElemRhs, Params.H, Params.HK, Heat.Quadratic, Div;
    ElementSolve(hp, a, d);
    PhysicalWeights(hp);
    ElementPositive(hp, a);
    var m, v := ElemMat(hp, 1.0, a, 1, 1), a - d[1];
    MulAdd(m, a, d[1]);
    ElementNext(hp, a);
    MulAdd(m, 1.0, v);
    MulUnits(m);
    SignOf(m, v);
    SignOf(m, 1.0 - v);
  }

  lemma SignOf(m: real, x: real)
    requires m > 0.0
    ensures Mul(m, x) >= 0.0 <==> x >= 0.0
  {
    hide Mul;
    MulSign(m, x);
    MulSign(m, -x);
    MulNeg(m, x);
  }

  lemma ElementPositive(hp: Params, a: real)
    requires Div(1.0, hp.H()) > 0.0 && hp.HK() >= 0.0 && 0.0 <= a <= 1.0
    ensures ElemMat(hp, 1.0, a, 1, 1) > 0.0
  {
    hide Mul, Div, Params.H, Params.HK;
    MulOrder(hp.HK(), 1.0 / 6.0 + a / 2.0);
  }

  /** The diagonal value times the next state, and times its distance from one. */
  lemma ElementNext(hp: Params, a: real)
    requires hp.HK() >= 0.0 && 0.0 <= a <= 1.0
    ensures var m, f := ElemMat(hp, 1.0, a, 1, 1), ElemRhs(hp, 1.0, a, 1);
            && Mul(m, a) - f == Div(1.0, hp.H()) - Mul(hp.HK(), 1.0 / 12.0 - a * a / 4.0)
            && m - (Mul(m, a) - f) >= 0.0
  {
    hide Mul, Div, Params.H, Params.HK;
    var c, q := hp.HK(), Heat.Quadratic(a, 1.0);
    ElementPoint(hp, 1.0, a, 1);
    ElementOnes(hp, 1.0, a, 1);
    MulUnits(ElemMat(hp, 1.0, a, 1, 0));
    QuadraticRange(a, 1.0);
    MulOrder(c, (2.0 * a + 1.0) / 3.0 - q);
    MulAdd(c, (2.0 * a + 1.0) / 3.0, q);
    MulAdd(c, q, 1.0 / 6.0 + a / 6.0);
    QuadraticAtOne(a);
    MulNeg(c, q - (1.0 / 6.0 + a / 6.0));
  }

  lemma QuadraticAtOne(a: real)
    ensures -(Heat.Quadratic(a, 1.0) - (1.0 / 6.0 + a / 6.0)) == 1.0 / 12.0 - a * a / 4.0
  {}

  // ------------------------------------------------------------------------
  // A reaction that is too strong.
  // ------------------------------------------------------------------------

  function Strong(): Params {
    Params(1, 1.0, 100.0)
  }

  lemma StrongWeights()
    ensures Strong().H() == 1.0 && Strong().HK() == 100.0
  {}

  lemma StrongTerms()
    ensures ElemMat(Strong(), 1.0, 0.0, 1, 1) == 53.0 / 3.0 && ElemRhs(Strong(), 1.0, 0.0, 1) == 22.0 / 3.0
    ensures ElemMat(Strong(), 1.0, -22.0 / 53.0, 1, 1) < 0.0
  {
    StrongWeights();
  }

  /** The exact step from the code's own guess leads to a negative value. */
  lemma StrongStep(d: Vec)
    requires |d| == 2 && MatVec(HeatPattern(Strong()), Values(Strong(), [1.0, 0.0]), d) == Rhs(Strong(), [1.0, 0.0])
    ensures Guess(Strong().NumDofs(), Strong().H()) == [1.0, 0.0]
    ensures Subtracted([1.0, 0.0], d) == [1.0, -22.0 / 53.0]
  {
    StrongWeights();
    hide HeatPattern, Values, Rhs, MatVec, ElemMat, ElemRhs, Subtracted;
    ElementSolve(Strong(), 0.0, d);
    StrongTerms();
    assert d[1] == 22.0 / 53.0;
    SubtractedAt([1.0, 0.0], d, 0);
    SubtractedAt([1.0, 0.0], d, 1);
  }

  /** The matrix assembled there is not positive definite, so that the next linear solve has no guarantee. */
  lemma StrongIndefinite()
    ensures !Spd(HeatPattern(Strong()), Values(Strong(), [1.0, -22.0 / 53.0]))
  {
    hide HeatPattern, Values, ElemMat, MatVec, RowDot, Mul, DotTo;
    var p, vals, e := HeatPattern(Strong()), Values(Strong(), [1.0, -22.0 / 53.0]), [0.0, 1.0];
    PatternWellFormed(Strong());
    ElementRow(Strong(), -22.0 / 53.0, e);
    StrongTerms();
    MulUnits(ElemMat(Strong(), 1.0, -22.0 / 53.0, 1, 1));
    RowOfProduct(p, vals, e, 1);
    DotSecond(MatVec(p, vals, e));
    if Spd(p, vals) {
      SpdAt(p, vals, e);
    }
  }

  lemma DotSecond(y: Vec)
    requires |y| == 2
    ensures Dot([0.0, 1.0], y) == y[1] && !IsZero([0.0, 1.0])
  {
    DotToStep([0.0, 1.0], y, 0);
    DotToStep([0.0, 1.0], y, 1);
    assert [0.0, 1.0][1] == 1.0;
  }

  // ------------------------------------------------------------------------
  // A second solve with the same solver.
  // ------------------------------------------------------------------------

  function Unit1(): Params {
    Params(1, 1.0, 1.0)
  }

  /** A graph solver with exact linear solves, and any preconditioner. */
  ghost predicate ExactGraph(c: Setup) {
    && c.hp == Unit1() && c.useGraph && c.tol == 0.0 && c.maxIters >= 2
    && StaleSweeps.Effective(c.built) == StaleSweeps.Effective(c.prec)
  }

  lemma UnitTerms()
    ensures ElemMat(Unit1(), 1.0, 0.0, 1, 1) == 7.0 / 6.0 && ElemRhs(Unit1(), 1.0, 0.0, 1) == -11.0 / 12.0
    ensures ElemRhs(Unit1(), 1.0, 11.0 / 14.0, 1) == 121.0 / 784.0
  {
    assert Unit1().H() == 1.0 && Unit1().HK() == 1.0;
  }

  lemma UnitRhs(a: real)
    ensures Rhs(Unit1(), [1.0, a]) == [0.0, ElemRhs(Unit1(), 1.0, a, 1)]
  {
    hide ElemRhs, BlockRhsSum, FillRhss, HeatPattern, Values;
    AssembledRhs(Unit1(), [1.0, a], 0);
    ElementRow(Unit1(), a, [0.0, 0.0]);
    assert |Rhs(Unit1(), [1.0, a])| == 2;
  }

  lemma UnitPhysical(a: real)
    requires a >= 0.0
    ensures Physical(Unit1(), [1.0, a]) && Unit1().NumDofs() == 2 && Zeros(2) == [0.0, 0.0]
  {}

  /** The residual of a zero step is the right-hand side. */
  lemma ZeroStep(hp: Params, u: Vec, prec: Krylov.Prec)
    requires hp.numElems >= 1
    ensures LinearSystem(hp, u, prec).Residual(Zeros(hp.NumDofs())) == Rhs(hp, u)
  {
    hide Mul, HeatPattern, Values, Rhs;
    PatternWellFormed(hp);
    var s, z := LinearSystem(hp, u, prec), Zeros(hp.NumDofs());
    forall i | 0 <= i < hp.NumDofs() ensures s.Residual(z)[i] == Rhs(hp, u)[i] {
      ZeroProduct(HeatPattern(hp), Values(hp, u), i, hp.NumDofs());
      MulUnits(Rhs(hp, u)[i]);
      MulUnits(-1.0);
    }
  }

  lemma ZeroProduct(p: Pattern, vals: Vec, i: nat, n: nat)
    requires i < p.Rows()
    ensures MatVec(p, vals, Zeros(n))[i] == 0.0
  {
    hide SlotSum;
    ZeroSum(p, vals, p.Begin(i), p.End(i), n);
  }

  lemma {:induction false} ZeroSum(p: Pattern, vals: Vec, lo: nat, hi: nat, n: nat)
    ensures SlotSum(p, vals, lo, hi, Zeros(n)) == 0.0
  {
    if lo < hi {
      ZeroSum(p, vals, lo, hi - 1, n);
    }
  }

  /** The first iteration of an attached solver, from a state whose residual is not zero. */
  lemma UnitStep(c: Setup, a: real)
    requires ExactGraph(c) && c.attached && a >= 0.0 && ElemRhs(Unit1(), 1.0, a, 1) != 0.0
    ensures var d := PointAt(c, [1.0, a], 1).delta;
            && |d| == 2 && PointAt(c, [1.0, a], 1).u == Subtracted([1.0, a], d)
            && MatVec(HeatPattern(Unit1()), Values(Unit1(), [1.0, a]), d) == Rhs(Unit1(), [1.0, a])
  {
    hide LinearSolve, HeatPattern, Values, Rhs, MatVec, Subtracted, ElemRhs, Physical, StaleSweeps.Effective,
         Krylov.System.Residual, Krylov.System.Sound, Spd;
    var u := [1.0, a];
    UnitPhysical(a);
    UnitRhs(a);
    ZeroStep(c.hp, u, c.prec);
    NonzeroSecond(ElemRhs(Unit1(), 1.0, a, 1));
    LinearSystemSound(c.hp, u, c.prec);
    SolveExactly(c, u, Zeros(2));
    SolveSized(c, u, Zeros(2));
    StepIs(c, u, 0);
  }

  lemma NonzeroSecond(x: real)
    requires x != 0.0
    ensures !IsZero([0.0, x])
  {
    assert [0.0, x][1] == x;
  }

  /** The first call makes one exact iteration, from the code's own guess (1, 0) to (1, 11/14). */
  lemma FirstCall(c: Setup)
    requires ExactGraph(c) && c.attached
    ensures Guess(Unit1().NumDofs(), Unit1().H()) == [1.0, 0.0]
    ensures PointAt(c, [1.0, 0.0], 1).u == [1.0, 11.0 / 14.0]
  {
    UnitTerms();
    hide PointAt, HeatPattern, Values, Rhs, MatVec, Subtracted, ElemRhs, ElemMat, StaleSweeps.Effective;
    UnitStep(c, 0.0);
    var d := PointAt(c, [1.0, 0.0], 1).delta;
    ElementSolve(Unit1(), 0.0, d);
    assert d[1] == -11.0 / 14.0;
    SubtractedAt([1.0, 0.0], d, 0);
    SubtractedAt([1.0, 0.0], d, 1);
  }

  /**
   * The second call finds the graph built. Whatever its tolerance below the remaining norm and its limit, it
   * uses all its iterations and returns its guess, while an attached solver would leave it in its first iteration.
   */
  lemma SecondCall(c: Setup, tol: real, maxIters: nat)
    requires ExactGraph(c) && !c.attached && 0.0 <= tol < 121.0 / 784.0
    ensures var u := [1.0, 11.0 / 14.0];
            && NewtonLoop(c, u, tol, maxIters, 0).u == u && NewtonLoop(c, u, tol, maxIters, 0).outer == maxIters
            && NewtonLoop(c, u, tol, maxIters, 0).norm2 == 121.0 / 784.0 * (121.0 / 784.0)
            && PointAt(c.(attached := true), u, 1).u != u
  {
    UnitTerms();
    hide PointAt, HeatPattern, Values, Rhs, MatVec, Subtracted, ElemRhs, ElemMat, LinearSolve, NewtonLoop, Times,
         Krylov.Exceeds, StaleSweeps.Effective;
    var u, on := [1.0, 11.0 / 14.0], c.(attached := true);
    UnitRhs(11.0 / 14.0);
    NewtonCases(c, u, tol, maxIters, 0);
    SquareSecond(121.0 / 784.0);
    StillExceeds(tol);
    DetachedLoop(c, u, tol, maxIters);
    UnitStep(on, 11.0 / 14.0);
    var d := PointAt(on, u, 1).delta;
    ElementSolve(Unit1(), 11.0 / 14.0, d);
    SubtractedAt(u, d, 1);
    MulUnits(ElemMat(Unit1(), 1.0, 11.0 / 14.0, 1, 1));
  }

  lemma SquareSecond(x: real)
    ensures Dot([0.0, x], [0.0, x]) == x * x
  {
    DotToStep([0.0, x], [0.0, x], 0);
    DotToStep([0.0, x], [0.0, x], 1);
  }

  lemma StillExceeds(tol: real)
    requires 0.0 <= tol < 121.0 / 784.0
    ensures Krylov.Exceeds(121.0 / 784.0 * (121.0 / 784.0), tol)
  {
    var x := 121.0 / 784.0;
    MulSign(x - tol, x + tol);
    assert x * x - Mul(tol, tol) == Mul(x - tol, x + tol);
  }

  lemma Squares(x: real)
    ensures x != 0.0 ==> Krylov.Exceeds(x * x, 0.0)
    ensures !Krylov.Beneath(x * x, 0.0)
  {
    MulSign(x, x);
  }

  /** The loop of the first call, which also makes the linear solver build its graph. */
  lemma FirstLoop(c: Setup)
    requires ExactGraph(c) && c.attached
    ensures var r := NewtonLoop(c, [1.0, 0.0], 0.0, 1, 0); r.u == [1.0, 11.0 / 14.0] && r.outer == 1
    ensures PointAt(c, [1.0, 0.0], 0) == Point([1.0, 0.0], Zeros(2), 0)
    ensures !Krylov.Beneath(Krylov.Norm2(LinearSystem(c.hp, [1.0, 0.0], c.prec), Zeros(2), 0), c.tol)
  {
    UnitTerms();
    hide HeatPattern, Values, Rhs, MatVec, Subtracted, ElemRhs, ElemMat, LinearSolve, NewtonLoop,
         Krylov.Exceeds, Krylov.Beneath, StaleSweeps.Effective, PointAt;
    var u0 := [1.0, 0.0];
    UnitRhs(0.0);
    SquareSecond(-11.0 / 12.0);
    Squares(-11.0 / 12.0);
    NewtonCases(c, u0, 0.0, 1, 0);
    NewtonCases(c, u0, 0.0, 1, 1);
    FirstCall(c);
    ZeroStep(c.hp, u0, c.prec);
    StartSol(LinearSystem(c.hp, u0, c.prec), Zeros(2));
  }

  lemma FirstSetup(solver: NewtonSolver.Solver, linMaxIters: nat)
    requires solver.Valid() && solver.problem.hp == Unit1()
    requires solver.linearSolver.useGraph && solver.linearSolver.graph.graph.None? && linMaxIters >= 2
    ensures ExactGraph(solver.Configuration(0.0, linMaxIters)) && solver.Configuration(0.0, linMaxIters).attached
  {
    hide HeatPattern;
  }

  /** What the first call leaves behind: a graph with the preconditioner of that call. */
  lemma Built(solver: NewtonSolver.Solver, c: Setup, d: Setup, linMaxIters: nat)
    requires ExactGraph(c) && c.attached && d == solver.Configuration(0.0, linMaxIters) && linMaxIters >= 2
    requires solver.problem.hp == Unit1() && solver.linearSolver.useGraph
    requires d == c.(attached := solver.linearSolver.graph.graph.None?)
    requires solver.linearSolver.graph.graph.None? ==> solver.Unbuilt(c, [1.0, 0.0], 1)
    ensures ExactGraph(d) && !d.attached
  {
    hide PointAt, Krylov.Beneath, Krylov.Norm2, StaleSweeps.Effective, HeatPattern;
    FirstLoop(c);
    solver.UnbuiltStep(c, [1.0, 0.0], 0);
  }

  /** Two calls on a device: the solution after the second one is that of the first one. */
  method SolveTwice(dev: Dev.Device, solver: NewtonSolver.Solver, tol: real, maxIters: nat, linMaxIters: nat)
    returns (norm2: real, outer: nat, inner: nat)
    requires solver.Valid() && dev.Valid() && solver.Allocated(dev) && dev.pending == []
    requires solver.problem.hp == Unit1() && Tasks.Get(dev.Flushed(), Tasks.LocalSol) == [1.0, 0.0]
    requires solver.linearSolver.useGraph && solver.linearSolver.graph.graph.None? && linMaxIters >= 2
    requires 0.0 <= tol < 121.0 / 784.0
    modifies dev, solver.problem`graph, solver.linearSolver.graph`graph
    modifies solver.linearSolver.graph`built, solver.linearSolver.graph`captured
    ensures Tasks.Get(dev.Flushed(), Tasks.LocalSol) == [1.0, 11.0 / 14.0]
    ensures norm2 == 121.0 / 784.0 * (121.0 / 784.0) && outer == maxIters
  {
    hide *;
    ghost var c := solver.Configuration(0.0, linMaxIters);
    FirstSetup(solver, linMaxIters);
    FirstLoop(c);
    norm2, outer, inner := solver.Solve(dev, 0.0, 1, 0.0, linMaxIters);
    ghost var d := solver.Configuration(0.0, linMaxIters);
    Built(solver, c, d, linMaxIters);
    SecondCall(d, tol, maxIters);
    norm2, outer, inner := solver.Solve(dev, tol, maxIters, 0.0, linMaxIters);
  }
}
