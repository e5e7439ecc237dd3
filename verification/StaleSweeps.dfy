/** A graph that was built with another number of sweeps: exactly when that can be seen. */
module StaleSweeps {
  import opened Vectors
  import opened Csr
  import opened Krylov
  import opened Resubmission
  import Jacobi

  /** The sweeps that a preconditioner does. Its first pass always runs. */
  function Effective(prec: Prec): nat {
    match prec
    case Identity => 0
    case Jacobi(m) => if m == 0 then 1 else m
  }

  lemma SameOperator(s: System, t: System, r: Vec)
    requires SameSystem(s, t) && Effective(s.prec) == Effective(t.prec)
    ensures s.M(r) == t.M(r)
  {}

  lemma SameAdvance(s: System, t: System, st: State)
    requires SameSystem(s, t) && Effective(s.prec) == Effective(t.prec)
    ensures Advance(s, st) == Advance(t, st)
  {
    hide Mul, Div, Dot, Axpby, MatVec, System.M;
    SameOperator(s, t, NextRes(s, st));
  }

  lemma {:induction false} SameResubmitted(s: System, t: System, st: State, k: nat)
    requires SameSystem(s, t) && Effective(s.prec) == Effective(t.prec)
    ensures Resubmitted(s, st, k) == Resubmitted(t, st, k)
  {
    hide Advance;
    if k > 0 {
      SameResubmitted(s, t, st, k - 1);
      SameAdvance(s, t, Resubmitted(t, st, k - 1));
    }
  }

  lemma {:induction false} SameLoop(s: System, t: System, st: State, tol: real, maxIters: nat, k: nat)
    requires SameSystem(s, t) && Effective(s.prec) == Effective(t.prec)
    ensures ResubmitLoop(s, st, tol, maxIters, k) == ResubmitLoop(t, st, tol, maxIters, k)
    decreases maxIters - k
  {
    hide Effective, Resubmitted, Exceeds, Dot;
    ResubmitCases(s, st, tol, maxIters, k);
    ResubmitCases(t, st, tol, maxIters, k);
    SameResubmitted(s, t, st, k);
    if k < maxIters {
      SameLoop(s, t, st, tol, maxIters, k + 1);
    }
  }

  /** The same effective number of sweeps: the stale graph cannot be told from a fresh one. */
  lemma SameSweeps(s: System, t: System, x0: Vec, tol: real, maxIters: nat)
    requires SameSystem(s, t) && Effective(s.prec) == Effective(t.prec)
    ensures GraphOutcome(s, t, x0, tol, maxIters) == GraphOutcome(s, s, x0, tol, maxIters)
  {
    hide Effective, ResubmitLoop, Start, Norm2, Beneath;
    SameLoop(s, t, Start(s, x0), tol, maxIters, 1);
    OutcomeCases(s, t, x0, tol, maxIters);
    OutcomeCases(s, s, x0, tol, maxIters);
  }

  // ------------------------------------------------------------------------
  // One matrix that tells all numbers of sweeps apart.
  // ------------------------------------------------------------------------

  /** The matrix with rows (1, -1/2, 0), (-1/2, 1, 0), (0, 0, 1) and the right-hand side (1, 1, 1). */
  function Coupled(sweeps: nat): System {
    System(Pattern([0, 2, 4, 5], [0, 1, 0, 1, 2]), [1.0, -0.5, -0.5, 1.0, 1.0], [1.0, 1.0, 1.0], Jacobi(sweeps))
  }

  /** The vectors that are the same in the two coupled entries. */
  function V(a: real, b: real): Vec {
    [a, a, b]
  }

  lemma VAxpby(f: real, a: real, b: real, g: real, c: real, d: real, x: real, y: real)
    requires x == f * a + g * c && y == f * b + g * d
    ensures Axpby(f, V(a, b), g, V(c, d)) == V(x, y)
  {
    var z := Axpby(f, V(a, b), g, V(c, d));
    assert z[0] == x && z[1] == x && z[2] == y;
  }

  lemma VDot(a: real, b: real, c: real, d: real)
    ensures Dot(V(a, b), V(c, d)) == 2.0 * a * c + b * d
  {
    var x, y := V(a, b), V(c, d);
    DotToStep(x, y, 0);
    DotToStep(x, y, 1);
    DotToStep(x, y, 2);
  }

  lemma RowFacts(p: Pattern, vals: Vec, lo: nat, x: Vec, i: nat)
    ensures SlotSum(p, vals, lo, lo + 1, x) == Mul(At(vals, lo), At(x, p.Col(lo)))
    ensures SlotSum(p, vals, lo, lo + 2, x)
         == Mul(At(vals, lo), At(x, p.Col(lo))) + Mul(At(vals, lo + 1), At(x, p.Col(lo + 1)))
    ensures Jacobi.OffSum(p, vals, lo, lo, i, x) == 0.0
    ensures p.Col(lo) == i ==>
              && Jacobi.OffSum(p, vals, lo, lo + 1, i, x) == 0.0
              && Jacobi.LastDiag(p, vals, lo, lo + 1, i) == At(vals, lo)
    ensures p.Col(lo) == i && p.Col(lo + 1) != i ==>
              && Jacobi.OffSum(p, vals, lo, lo + 2, i, x) == Mul(At(vals, lo + 1), At(x, p.Col(lo + 1)))
              && Jacobi.LastDiag(p, vals, lo, lo + 2, i) == At(vals, lo)
    ensures p.Col(lo) != i && p.Col(lo + 1) == i ==>
              && Jacobi.OffSum(p, vals, lo, lo + 2, i, x) == Mul(At(vals, lo), At(x, p.Col(lo)))
              && Jacobi.LastDiag(p, vals, lo, lo + 2, i) == At(vals, lo + 1)
  {
    hide Mul;
    assert SlotSum(p, vals, lo, lo, x) == 0.0;
    assert Jacobi.OffSum(p, vals, lo, lo, i, x) == 0.0;
  }

  lemma CoupledProduct(sweeps: nat, a: real, b: real)
    ensures Coupled(sweeps).A(V(a, b)) == V(a / 2.0, b)
  {
    var s := Coupled(sweeps);
    RowFacts(s.p, s.vals, 0, V(a, b), 0);
    RowFacts(s.p, s.vals, 2, V(a, b), 1);
    RowFacts(s.p, s.vals, 4, V(a, b), 2);
    assert s.A(V(a, b))[0] == a / 2.0 && s.A(V(a, b))[1] == a / 2.0 && s.A(V(a, b))[2] == b;
  }

  /** What m sweeps multiply the coupled entries by. */
  function Gain(m: nat): real {
    if m == 0 then 0.0 else 1.0 + Gain(m - 1) / 2.0
  }

  lemma {:induction false} GainBound(m: nat)
    ensures 0.0 <= Gain(m) < 2.0 && (m >= 1 ==> Gain(m) >= 1.0)
  {
    if m > 0 {
      GainBound(m - 1);
    }
  }

  /** More sweeps have more gain, so that the gain tells the number of sweeps. */
  lemma {:induction false} GainGrows(m: nat, n: nat)
    requires m < n
    ensures Gain(m) < Gain(n)
  {
    GainBound(n - 1);
    if m < n - 1 {
      GainGrows(m, n - 1);
    }
  }

  lemma CoupledSweep(sweeps: nat, a: real, b: real, c: real, d: real)
    ensures Jacobi.Sweep(Coupled(sweeps).p, Coupled(sweeps).vals, V(a, b), V(c, d)) == V(a + c / 2.0, b)
  {
    var s := Coupled(sweeps);
    RowFacts(s.p, s.vals, 0, V(c, d), 0);
    RowFacts(s.p, s.vals, 2, V(c, d), 1);
    RowFacts(s.p, s.vals, 4, V(c, d), 2);
    var r := Jacobi.Sweep(s.p, s.vals, V(a, b), V(c, d));
    Jacobi.SweepAt(s.p, s.vals, V(a, b), V(c, d), 0);
    Jacobi.SweepAt(s.p, s.vals, V(a, b), V(c, d), 1);
    Jacobi.SweepAt(s.p, s.vals, V(a, b), V(c, d), 2);
    assert r[0] == a + c / 2.0 && r[1] == a + c / 2.0 && r[2] == b;
  }

  lemma {:induction false} CoupledIterate(s: System, sweeps: nat, a: real, b: real, m: nat)
    requires s == Coupled(sweeps) && m >= 1
    ensures Jacobi.Iterate(s.p, s.vals, V(a, b), m) == V(Mul(Gain(m), a), b)
  {
    hide *;
    GainStep(m - 1, a);
    if m == 1 {
      Jacobi.IterateOne(s.p, s.vals, V(a, b));
      CoupledZeros(sweeps);
      CoupledSweep(sweeps, a, b, 0.0, 0.0);
    } else {
      CoupledIterate(s, sweeps, a, b, m - 1);
      Jacobi.IterateIsSweep(s.p, s.vals, V(a, b), m - 1);
      CoupledSweep(sweeps, a, b, Mul(Gain(m - 1), a), b);
    }
  }

  lemma GainStep(m: nat, a: real)
    ensures Mul(Gain(m + 1), a) == a + Mul(Gain(m), a) / 2.0
    ensures Mul(Gain(0), a) == 0.0
  {}

  lemma CoupledZeros(sweeps: nat)
    ensures Zeros(Coupled(sweeps).p.Rows()) == V(0.0, 0.0)
  {}

  lemma CoupledPrec(sweeps: nat, a: real, b: real)
    ensures Coupled(sweeps).M(V(a, b)) == V(Mul(Gain(Effective(Jacobi(sweeps))), a), b)
  {
    var s, k := Coupled(sweeps), Effective(Jacobi(sweeps));
    CoupledIterate(s, sweeps, a, b, k);
    assert s.M(V(a, b)) == Jacobi.Iterate(s.p, s.vals, V(a, b), k);
  }

  /** A step from the residual (a, a, b) along the direction (c, c, d) to the residual (x, x, y). */
  ghost predicate IsStep(rho: real, a: real, b: real, c: real, d: real, alpha: real, x: real, y: real) {
    alpha == Div(rho, c * c + d * d) && x == a - alpha * c / 2.0 && y == b - alpha * d
  }

  /** The next rho for the gain g, and the next direction. */
  ghost predicate IsTurn(g: real, was: real, x: real, y: real, c: real, d: real, rho: real, beta: real,
      c': real, d': real)
  {
    rho == 2.0 * g * x * x + y * y && beta == Div(rho, was) && c' == g * x + beta * c && d' == y + beta * d
  }

  lemma Curvature(c: real, d: real) returns (curvature: real)
    ensures curvature == c * c + d * d && Dot(V(c, d), V(c / 2.0, d)) == curvature
  {
    curvature := c * c + d * d;
    VDot(c, d, c / 2.0, d);
  }

  /** One iteration on vectors of this form. */
  lemma CoupledAdvance(sweeps: nat, st: State, a: real, b: real, c: real, d: real)
    returns (alpha: real, x: real, y: real, beta: real, c': real, d': real)
    requires st.res == V(a, b) && st.dir == V(c, d)
    ensures var e := Advance(Coupled(sweeps), st);
            && e.res == V(x, y) && e.dir == V(c', d') && IsStep(st.rho, a, b, c, d, alpha, x, y)
            && IsTurn(Gain(Effective(Jacobi(sweeps))), st.rho, x, y, c, d, e.rho, beta, c', d')
  {
    hide Coupled, Advance, System.M, MatVec, Axpby, Dot, Div, V, StepSize, Effective, Gain;
    var s, e, g := Coupled(sweeps), Advance(Coupled(sweeps), st), Gain(Effective(Jacobi(sweeps)));
    AdvanceParts(s, st);
    CoupledProduct(sweeps, c, d);
    var curvature := Curvature(c, d);
    alpha := Div(st.rho, curvature);
    x, y := a - alpha * c / 2.0, b - alpha * d;
    assert StepSize(s, st) == alpha;
    VAxpby(-alpha, c / 2.0, d, 1.0, a, b, x, y);
    CoupledPrec(sweeps, x, y);
    VDot(Mul(g, x), y, x, y);
    assert 2.0 * Mul(g, x) * x + y * y == 2.0 * g * x * x + y * y;
    beta := Div(e.rho, st.rho);
    c', d' := g * x + beta * c, y + beta * d;
    VAxpby(1.0, Mul(g, x), y, beta, c, d, c', d');
  }

  lemma CoupledStart(sweeps: nat)
    ensures var st, g := Start(Coupled(sweeps), V(0.0, 0.0)), Gain(Effective(Jacobi(sweeps)));
            && st.res == V(1.0, 1.0) && st.dir == V(g, 1.0) && st.rho == 2.0 * g + 1.0
  {
    var s, g := Coupled(sweeps), Gain(Effective(Jacobi(sweeps)));
    assert s.rhs == V(1.0, 1.0);
    hide Coupled, Start, System.M, MatVec, Axpby, Dot, V, Effective, Gain;
    StartParts(s, V(0.0, 0.0));
    CoupledProduct(sweeps, 0.0, 0.0);
    VAxpby(-1.0, 0.0, 0.0, 1.0, 1.0, 1.0, 1.0, 1.0);
    CoupledPrec(sweeps, 1.0, 1.0);
    MulUnits(g);
    VDot(g, 1.0, 1.0, 1.0);
  }

  // ------------------------------------------------------------------------
  // The scalars of two iterations: x is the gain of the start, y that of the graph.
  // ------------------------------------------------------------------------

  lemma Cancel(a: real, b: real, c: real)
    requires c != 0.0 && a * c == b * c
    ensures a == b
  {
    assert (a - b) * c == 0.0;
  }

  lemma Positive(p: real, c: real)
    requires c > 0.0 && p * c > 0.0
    ensures p > 0.0
  {}

  lemma Square(a: real)
    ensures a * a >= 0.0 && (a != 0.0 ==> a * a > 0.0)
  {
    MulSign(a, a);
  }

  /** The residual p (1, 1, -2 x) with a positive p. */
  ghost predicate IsFirst(x: real, p: real, q: real) {
    p * (x * x + 1.0) == 1.0 - x / 2.0 && p > 0.0 && q == -2.0 * x * p
  }

  /** It is what the first iteration leaves. */
  lemma FirstScalars(x: real, rho: real, alpha: real, p: real, q: real)
    requires 1.0 <= x < 2.0 && rho == 2.0 * x + 1.0 && IsStep(rho, 1.0, 1.0, x, 1.0, alpha, p, q)
    ensures IsFirst(x, p, q)
  {
    var c := x * x + 1.0;
    Square(x);
    assert alpha * c == 2.0 * x + 1.0;
    assert p * c == c - (2.0 * x + 1.0) * x / 2.0 == 1.0 - x / 2.0;
    assert q * c == c - (2.0 * x + 1.0) == -2.0 * x * (1.0 - x / 2.0) == -2.0 * x * (p * c);
    Cancel(q, -2.0 * x * p, c);
    Positive(p, c);
  }

  /** The second direction in terms of the first residual. */
  lemma DefectSum(x: real, y: real, p: real, q: real, rho: real, beta: real, c: real, d: real)
    requires IsFirst(x, p, q) && IsTurn(y, 2.0 * x + 1.0, p, q, x, 1.0, rho, beta, c, d)
    ensures d + x * c == p * x * (y - 2.0) + Mul(beta, x * x + 1.0)
  {
    hide Mul, Div;
    assert c == y * p + beta * x && d == -2.0 * x * p + beta;
    SumIdentity(x, y, p, beta);
  }

  lemma SumIdentity(x: real, y: real, p: real, beta: real)
    ensures -2.0 * x * p + beta + x * (y * p + beta * x) == p * x * (y - 2.0) + Mul(beta, x * x + 1.0)
  {}

  lemma DefectParts(x: real, y: real, p: real, q: real, rho: real, beta: real, c: real, d: real)
    requires 1.0 <= x && IsFirst(x, p, q) && IsTurn(y, 2.0 * x + 1.0, p, q, x, 1.0, rho, beta, c, d)
    ensures Mul(Mul(beta, 2.0 * x + 1.0), x * x + 1.0) == p * (2.0 * y + 4.0 * x * x) * (1.0 - x / 2.0)
  {
    var w, f := x * x + 1.0, 2.0 * y + 4.0 * x * x;
    assert Mul(beta, 2.0 * x + 1.0) == rho;
    assert rho == (p * f) * p;
    Regroup(p * f, p, w);
  }

  lemma Regroup(a: real, b: real, c: real)
    ensures Mul(a * b, c) == a * (b * c)
  {}

  lemma Spread(k: real, a: real, beta: real, w: real, r: real)
    requires k == a + Mul(beta, w)
    ensures Mul(k, r) == Mul(a, r) + Mul(Mul(beta, r), w)
  {}

  lemma DefectIdentity(x: real, y: real, p: real)
    ensures Mul(p * x * (y - 2.0), 2.0 * x + 1.0) + p * (2.0 * y + 4.0 * x * x) * (1.0 - x / 2.0)
         == 2.0 * (y - x) * (p * (x * x + 1.0))
  {}

  /** How far the second direction is from the one that finishes: it depends on the difference of the gains. */
  lemma Defect(x: real, y: real, p: real, q: real, rho: real, beta: real, c: real, d: real)
    requires 1.0 <= x && IsFirst(x, p, q) && IsTurn(y, 2.0 * x + 1.0, p, q, x, 1.0, rho, beta, c, d)
    ensures Mul(d + x * c, 2.0 * x + 1.0) == 2.0 * (y - x) * (p * (x * x + 1.0))
  {
    hide Mul, IsFirst, IsTurn;
    DefectSum(x, y, p, q, rho, beta, c, d);
    DefectParts(x, y, p, q, rho, beta, c, d);
    Spread(d + x * c, p * x * (y - 2.0), beta, x * x + 1.0, 2.0 * x + 1.0);
    DefectIdentity(x, y, p);
  }

  /** The direction meets the residual in rho, which is positive. */
  lemma Meeting(x: real, y: real, p: real, q: real, rho: real, beta: real, c: real, d: real)
    requires y >= 1.0 && IsFirst(x, p, q) && IsTurn(y, 2.0 * x + 1.0, p, q, x, 1.0, rho, beta, c, d)
    ensures rho == 2.0 * c * p + d * q && rho > 0.0
  {
    hide *;
    TurnParts(y, 2.0 * x + 1.0, p, q, x, 1.0, rho, beta, c, d);
    FirstResidual(x, p, q);
    MeetingIdentity(x, y, p, q, beta, c, d);
    RhoPositive(y, p, q);
  }

  lemma TurnParts(g: real, was: real, x: real, y: real, c: real, d: real, rho: real, beta: real, c': real, d': real)
    requires IsTurn(g, was, x, y, c, d, rho, beta, c', d')
    ensures rho == 2.0 * g * x * x + y * y && c' == g * x + beta * c && d' == y + beta * d
  {}

  lemma FirstResidual(x: real, p: real, q: real)
    requires IsFirst(x, p, q)
    ensures p > 0.0 && q == -2.0 * x * p
  {}

  lemma MeetingIdentity(x: real, y: real, p: real, q: real, beta: real, c: real, d: real)
    requires q == -2.0 * x * p && c == y * p + beta * x && d == q + beta * 1.0
    ensures 2.0 * c * p + d * q == 2.0 * y * p * p + q * q
  {
    assert 2.0 * c * p + d * q == 2.0 * y * p * p + q * q + (2.0 * (beta * x) * p + beta * q);
    assert 2.0 * (beta * x) * p + beta * q == beta * (2.0 * x * p + q) == 0.0;
  }

  lemma RhoPositive(y: real, p: real, q: real)
    requires y >= 1.0 && p > 0.0
    ensures 2.0 * y * p * p + q * q > 0.0
  {
    hide Mul;
    RhoTerms(y, p, q);
    MulSign(y, Mul(p, p));
    MulSign(p, p);
    MulSign(q, q);
  }

  lemma RhoTerms(y: real, p: real, q: real)
    ensures 2.0 * y * p * p + q * q == 2.0 * Mul(y, Mul(p, p)) + Mul(q, q)
  {}

  /** If the residual is finished, the direction is parallel to it. */
  lemma Parallel(x: real, p: real, q: real, rho: real, alpha: real, c: real, d: real)
    requires IsFirst(x, p, q) && IsStep(rho, p, q, c, d, alpha, 0.0, 0.0)
    ensures d + x * c == 0.0
  {
    assert alpha * c == 2.0 * p;
    assert alpha * (d + x * c) == alpha * d + x * (alpha * c);
    assert x * (alpha * c) == x * (2.0 * p);
    MulSign(alpha, c);
    Cancel(d + x * c, 0.0, alpha);
  }

  /** If the direction is parallel to the residual, the residual is finished. */
  lemma Finishes(x: real, p: real, q: real, rho: real, alpha: real, c: real, d: real, p': real, q': real)
    requires rho > 0.0 && IsFirst(x, p, q) && d + x * c == 0.0 && rho == 2.0 * c * p + d * q
    requires IsStep(rho, p, q, c, d, alpha, p', q')
    ensures p' == 0.0 && q' == 0.0
  {
    var w := x * x + 1.0;
    Square(x);
    assert d == -x * c;
    assert rho == (2.0 * p * w) * c;
    assert c * c + d * d == c * c * w;
    MulSign(2.0 * p * w, c);
    Square(c);
    MulSign(c * c, w);
    assert alpha * (c * c * w) == (2.0 * p * w) * c;
    assert (alpha * c) * (c * w) == (2.0 * p) * (c * w);
    MulSign(c, w);
    Cancel(alpha * c, 2.0 * p, c * w);
    assert alpha * d == -x * (alpha * c);
    assert x * (alpha * c) == x * (2.0 * p);
  }

  lemma EqualGains(x: real, y: real, p: real, k: real)
    requires x >= 1.0 && p * (x * x + 1.0) > 0.0 && Mul(k, 2.0 * x + 1.0) == 2.0 * (y - x) * (p * (x * x + 1.0))
    ensures k == 0.0 <==> x == y
  {
    var f := p * (x * x + 1.0);
    MulSign(k, 2.0 * x + 1.0);
    MulSign(y - x, f);
    assert 2.0 * (y - x) * f == 2.0 * Mul(y - x, f);
  }

  lemma FirstParts(x: real, p: real, q: real)
    requires x < 2.0 && IsFirst(x, p, q)
    ensures p * (x * x + 1.0) > 0.0
  {}

  /** The second residual is zero exactly when the gains are equal. */
  lemma SecondScalars(x: real, y: real, p: real, q: real, rho: real, beta: real, c: real, d: real,
                      alpha: real, p': real, q': real)
    requires 1.0 <= x < 2.0 && 1.0 <= y && IsFirst(x, p, q)
    requires IsTurn(y, 2.0 * x + 1.0, p, q, x, 1.0, rho, beta, c, d) && IsStep(rho, p, q, c, d, alpha, p', q')
    ensures p' == 0.0 && q' == 0.0 <==> x == y
  {
    hide Mul, IsFirst, IsTurn, IsStep;
    Defect(x, y, p, q, rho, beta, c, d);
    Meeting(x, y, p, q, rho, beta, c, d);
    FirstParts(x, p, q);
    EqualGains(x, y, p, d + x * c);
    if p' == 0.0 && q' == 0.0 {
      Parallel(x, p, q, rho, alpha, c, d);
    }
    if x == y {
      Finishes(x, p, q, rho, alpha, c, d, p', q');
    }
  }

  // ------------------------------------------------------------------------
  // The outcomes.
  // ------------------------------------------------------------------------

  lemma GainsDiffer(i: nat, j: nat)
    ensures Gain(i) == Gain(j) <==> i == j
  {
    if i < j {
      GainGrows(i, j);
    } else if j < i {
      GainGrows(j, i);
    }
  }

  lemma Norm(a: real, b: real)
    ensures Dot(V(a, b), V(a, b)) >= 0.0
    ensures Dot(V(a, b), V(a, b)) == 0.0 <==> a == 0.0 && b == 0.0
  {
    hide *;
    VSquare(a, b);
    MulSign(a, a);
    MulSign(b, b);
  }

  lemma VSquare(a: real, b: real)
    ensures Dot(V(a, b), V(a, b)) == Mul(a, a) + Mul(a, a) + Mul(b, b)
  {
    hide V, Dot;
    VDot(a, b, a, b);
  }

  lemma FirstNonzero(x: real, p: real, q: real)
    requires IsFirst(x, p, q)
    ensures p != 0.0
  {}

  /** Two submissions solve the coupled system exactly when the graph has the gain of the start. */
  lemma TwoSubmissions(m: nat, n: nat)
    ensures var st := Start(Coupled(m), V(0.0, 0.0));
            && Dot(st.res, st.res) > 0.0
            && Dot(Resubmitted(Coupled(n), st, 1).res, Resubmitted(Coupled(n), st, 1).res) > 0.0
            && (Dot(Resubmitted(Coupled(n), st, 2).res, Resubmitted(Coupled(n), st, 2).res) == 0.0 <==>
                Effective(Jacobi(m)) == Effective(Jacobi(n)))
  {
    hide *;
    var st, t := Start(Coupled(m), V(0.0, 0.0)), Coupled(n);
    var i, j := Effective(Jacobi(m)), Effective(Jacobi(n));
    EffectivePositive(m);
    EffectivePositive(n);
    GainBound(i);
    GainBound(j);
    GainsDiffer(i, j);
    CoupledStart(m);
    Norm(1.0, 1.0);
    ResubmitCases(t, st, 0.0, 0, 0);
    ResubmitCases(t, st, 0.0, 0, 1);
    var alpha, p, q, beta, c, d := CoupledAdvance(n, st, 1.0, 1.0, Gain(i), 1.0);
    FirstScalars(Gain(i), st.rho, alpha, p, q);
    FirstNonzero(Gain(i), p, q);
    Norm(p, q);
    var e := Resubmitted(t, st, 1);
    var alpha', p', q', beta', c', d' := CoupledAdvance(n, e, p, q, c, d);
    SecondScalars(Gain(i), Gain(j), p, q, e.rho, beta, c, d, alpha', p', q');
    Norm(p', q');
  }

  lemma EffectivePositive(m: nat)
    ensures Effective(Jacobi(m)) >= 1
  {}

  /**
   * Different effective numbers of sweeps show on the coupled system: a fresh graph solves it in two submissions,
   * a graph built with another number does not.
   */
  lemma SweepsMatter(m: nat, n: nat)
    requires Effective(Jacobi(m)) != Effective(Jacobi(n))
    ensures SameSystem(Coupled(m), Coupled(n))
    ensures GraphOutcome(Coupled(m), Coupled(m), V(0.0, 0.0), 0.0, 2).norm2 == 0.0
    ensures GraphOutcome(Coupled(m), Coupled(n), V(0.0, 0.0), 0.0, 2).norm2 > 0.0
  {
    var r0 := Start(Coupled(m), V(0.0, 0.0)).res;
    assert Norm2(Coupled(m), V(0.0, 0.0), 0) == Dot(r0, r0);
    hide Coupled, Start, Dot, V, Effective, Norm2, Resubmitted, ResubmitLoop;
    SameCoupled(m, n);
    TwoAllowed(m, m);
    TwoAllowed(m, n);
    TwoSubmissions(m, m);
    TwoSubmissions(m, n);
    var r := Resubmitted(Coupled(n), Start(Coupled(m), V(0.0, 0.0)), 2).res;
    DotSelf(r);
  }

  lemma SameCoupled(m: nat, n: nat)
    ensures SameSystem(Coupled(m), Coupled(n))
  {}

  lemma TwoAllowed(m: nat, n: nat)
    ensures var st := Start(Coupled(m), V(0.0, 0.0));
            GraphOutcome(Coupled(m), Coupled(n), V(0.0, 0.0), 0.0, 2).norm2
            == Dot(Resubmitted(Coupled(n), st, 2).res, Resubmitted(Coupled(n), st, 2).res)
  {
    hide Coupled, Start, Dot, V, Effective, Norm2, Resubmitted, ResubmitLoop;
    var st, t := Start(Coupled(m), V(0.0, 0.0)), Coupled(n);
    OutcomeCases(Coupled(m), t, V(0.0, 0.0), 0.0, 2);
    ResubmitCases(t, st, 0.0, 2, 1);
    ResubmitCases(t, st, 0.0, 2, 2);
    TwoSubmissions(m, n);
    MulUnits(0.0);
  }

  /**
   * Both outcomes belong to sound systems: the coupled matrix is dominant, so that every number of sweeps is
   * definite.
   */
  lemma CoupledSound(sweeps: nat)
    ensures Coupled(sweeps).Sound()
  {
    var s := Coupled(sweeps);
    CoupledPattern(sweeps);
    forall x: Vec | |x| == 3 && !IsZero(x)
      ensures Dot(x, s.A(x)) > 0.0 && Dot(x, s.A(x)) > 2.0 * Dot(x, Jacobi.OffVec(s.p, s.vals, x))
    {
      hide Dot, MatVec, Jacobi.OffVec;
      CoupledForms(sweeps, x);
      Forms(x[0], x[1], x[2]);
    }
    hide Dot, MatVec, Jacobi.OffVec, Symmetric, Jacobi.DiagonalStored, System.Sound;
    SoundSystem(s);
  }

  lemma CoefFacts(p: Pattern, vals: Vec, lo: nat, j: nat)
    ensures CoefSum(p, vals, lo, lo + 1, j) == if p.Col(lo) == j then At(vals, lo) else 0.0
    ensures CoefSum(p, vals, lo, lo + 2, j)
         == (if p.Col(lo) == j then At(vals, lo) else 0.0) + (if p.Col(lo + 1) == j then At(vals, lo + 1) else 0.0)
  {
    assert CoefSum(p, vals, lo, lo, j) == 0.0;
  }

  lemma CoupledCoef(sweeps: nat, i: nat, j: nat)
    requires i < 3 && j < 3
    ensures Coef(Coupled(sweeps).p, Coupled(sweeps).vals, i, j)
         == if i == j then 1.0 else if i + j == 1 then -0.5 else 0.0
  {
    var s := Coupled(sweeps);
    hide CoefSum;
    CoefFacts(s.p, s.vals, s.p.Begin(i), j);
  }

  lemma SlotFacts(p: Pattern, lo: nat, i: nat)
    ensures p.Col(lo) == i ==> Jacobi.FirstSlot(p, lo, lo + 1, i) == Jacobi.FirstSlot(p, lo, lo + 2, i) == lo
    ensures p.Col(lo) != i && p.Col(lo + 1) == i ==> Jacobi.FirstSlot(p, lo, lo + 2, i) == lo + 1
  {}

  lemma CoupledDiagonal(sweeps: nat)
    ensures Jacobi.DiagonalStored(Coupled(sweeps).p)
  {
    var p := Coupled(sweeps).p;
    SlotFacts(p, 0, 0);
    SlotFacts(p, 2, 1);
    SlotFacts(p, 4, 2);
    hide Jacobi.FirstSlot;
    assert Jacobi.DiagSlot(p, 0) == 0 && Jacobi.DiagSlot(p, 1) == 3 && Jacobi.DiagSlot(p, 2) == 4;
  }

  lemma CoupledPattern(sweeps: nat)
    ensures var s := Coupled(sweeps);
            s.p.WellFormed() && Symmetric(s.p, s.vals) && Jacobi.DiagonalStored(s.p) && s.N() == |s.rhs| == 3
  {
    var s := Coupled(sweeps);
    CoupledDiagonal(sweeps);
    hide Coef, Jacobi.DiagonalStored;
    forall i: nat, j: nat | i < 3 && j < 3 ensures Coef(s.p, s.vals, i, j) == Coef(s.p, s.vals, j, i) {
      CoupledCoef(sweeps, i, j);
      CoupledCoef(sweeps, j, i);
    }
  }

  lemma DotThree(x: Vec, y: Vec)
    requires |x| == |y| == 3
    ensures Dot(x, y) == x[0] * y[0] + x[1] * y[1] + x[2] * y[2]
  {
    DotToStep(x, y, 0);
    DotToStep(x, y, 1);
    DotToStep(x, y, 2);
  }

  lemma CoupledForms(sweeps: nat, x: Vec)
    requires |x| == 3
    ensures var s := Coupled(sweeps);
            && Dot(x, s.A(x)) == x[0] * (x[0] - x[1] / 2.0) + x[1] * (x[1] - x[0] / 2.0) + x[2] * x[2]
            && Dot(x, Jacobi.OffVec(s.p, s.vals, x)) == x[0] * (-x[1] / 2.0) + x[1] * (-x[0] / 2.0)
  {
    var s := Coupled(sweeps);
    RowFacts(s.p, s.vals, 0, x, 0);
    RowFacts(s.p, s.vals, 2, x, 1);
    RowFacts(s.p, s.vals, 4, x, 2);
    assert s.A(x) == [x[0] - x[1] / 2.0, x[1] - x[0] / 2.0, x[2]];
    assert Jacobi.OffVec(s.p, s.vals, x) == [-x[1] / 2.0, -x[0] / 2.0, 0.0];
    DotThree(x, s.A(x));
    DotThree(x, Jacobi.OffVec(s.p, s.vals, x));
  }

  lemma Forms(a: real, b: real, c: real)
    requires a != 0.0 || b != 0.0 || c != 0.0
    ensures var form, off := a * (a - b / 2.0) + b * (b - a / 2.0) + c * c, a * (-b / 2.0) + b * (-a / 2.0);
            form > 0.0 && form > 2.0 * off
  {
    assert a * (a - b / 2.0) + b * (b - a / 2.0) == a * a - a * b + b * b;
    assert a * (-b / 2.0) + b * (-a / 2.0) == -(a * b);
    MulSign(a, a);
    MulSign(b, b);
    MulSign(c, c);
    MulSign(a - b, a - b);
    MulSign(a + b, a + b);
    assert 2.0 * (a * a - a * b + b * b) == Mul(a, a) + Mul(b, b) + Mul(a - b, a - b);
    assert 2.0 * (a * a + a * b + b * b) == Mul(a, a) + Mul(b, b) + Mul(a + b, a + b);
  }

  /** A graph built with n sweeps serves a solver with m sweeps like a fresh one, whatever the system and the call. */
  ghost predicate Serves(m: nat, n: nat) {
    forall s: System, t: System, x0: Vec, tol: real, maxIters: nat
      | SameSystem(s, t) && s.prec == Jacobi(m) && t.prec == Jacobi(n) ::
      GraphOutcome(s, t, x0, tol, maxIters) == GraphOutcome(s, s, x0, tol, maxIters)
  }

  /** It does so exactly when the effective numbers of sweeps are equal. */
  lemma ServesExactly(m: nat, n: nat)
    ensures Serves(m, n) <==> Effective(Jacobi(m)) == Effective(Jacobi(n))
  {
    hide Effective, GraphOutcome, Coupled, V;
    if Effective(Jacobi(m)) == Effective(Jacobi(n)) {
      forall s: System, t: System, x0: Vec, tol: real, maxIters: nat
        | SameSystem(s, t) && s.prec == Jacobi(m) && t.prec == Jacobi(n)
        ensures GraphOutcome(s, t, x0, tol, maxIters) == GraphOutcome(s, s, x0, tol, maxIters)
      {
        SameSweeps(s, t, x0, tol, maxIters);
      }
    } else {
      SweepsMatter(m, n);
      CoupledPrecIs(m);
      CoupledPrecIs(n);
    }
  }

  lemma CoupledPrecIs(sweeps: nat)
    ensures Coupled(sweeps).prec == Jacobi(sweeps)
  {}

  // ------------------------------------------------------------------------
  // A small input in numbers: three sweeps for the solve, one in the graph.
  // ------------------------------------------------------------------------

  /** The matrix with rows (2, 1) and (1, 3) and the right-hand side (1, 0). */
  function Skewed(sweeps: nat): System {
    System(Pattern([0, 2, 4], [0, 1, 0, 1]), [2.0, 1.0, 1.0, 3.0], [1.0, 0.0], Jacobi(sweeps))
  }

  lemma SkewedProduct(sweeps: nat, a: real, b: real)
    ensures Skewed(sweeps).A([a, b]) == [2.0 * a + b, a + 3.0 * b]
  {
    var s := Skewed(sweeps);
    RowFacts(s.p, s.vals, 0, [a, b], 0);
    RowFacts(s.p, s.vals, 2, [a, b], 1);
    assert s.A([a, b])[0] == 2.0 * a + b && s.A([a, b])[1] == a + 3.0 * b;
  }

  lemma DotTwo(x: Vec, y: Vec)
    requires |x| == |y| == 2
    ensures Dot(x, y) == x[0] * y[0] + x[1] * y[1]
  {
    DotToStep(x, y, 0);
    DotToStep(x, y, 1);
  }

  lemma SkewedCoef(sweeps: nat, i: nat, j: nat)
    requires i < 2 && j < 2
    ensures Coef(Skewed(sweeps).p, Skewed(sweeps).vals, i, j) == if i != j then 1.0 else if i == 0 then 2.0 else 3.0
  {
    var s := Skewed(sweeps);
    hide CoefSum;
    CoefFacts(s.p, s.vals, s.p.Begin(i), j);
  }

  lemma SkewedDiagonal(sweeps: nat)
    ensures Jacobi.DiagonalStored(Skewed(sweeps).p)
  {
    var p := Skewed(sweeps).p;
    SlotFacts(p, 0, 0);
    SlotFacts(p, 2, 1);
    hide Jacobi.FirstSlot;
    assert Jacobi.DiagSlot(p, 0) == 0 && Jacobi.DiagSlot(p, 1) == 3;
  }

  lemma SkewedPattern(sweeps: nat)
    ensures var s := Skewed(sweeps);
            s.p.WellFormed() && Symmetric(s.p, s.vals) && Jacobi.DiagonalStored(s.p) && s.N() == |s.rhs| == 2
  {
    var s := Skewed(sweeps);
    SkewedDiagonal(sweeps);
    hide Coef, Jacobi.DiagonalStored;
    forall i: nat, j: nat | i < 2 && j < 2 ensures Coef(s.p, s.vals, i, j) == Coef(s.p, s.vals, j, i) {
      SkewedCoef(sweeps, i, j);
      SkewedCoef(sweeps, j, i);
    }
  }

  lemma SkewedForm(a: real, b: real)
    requires a != 0.0 || b != 0.0
    ensures a * (2.0 * a + b) + b * (a + 3.0 * b) > 0.0
  {
    MulSign(a, a);
    MulSign(b, b);
    MulSign(a + b, a + b);
    assert a * (2.0 * a + b) + b * (a + 3.0 * b) == Mul(a, a) + Mul(a + b, a + b) + 2.0 * Mul(b, b);
  }

  /** Both preconditioners are sound. */
  lemma SkewedSound(sweeps: nat)
    requires sweeps % 2 == 1
    ensures Skewed(sweeps).Sound()
  {
    var s := Skewed(sweeps);
    SkewedPattern(sweeps);
    hide Dot, MatVec, Symmetric, Jacobi.DiagonalStored, System.Sound;
    forall x: Vec | |x| == 2 && !IsZero(x) ensures Dot(x, s.A(x)) > 0.0 {
      assert x == [x[0], x[1]];
      SkewedProduct(sweeps, x[0], x[1]);
      DotTwo(x, [2.0 * x[0] + x[1], x[0] + 3.0 * x[1]]);
      SkewedForm(x[0], x[1]);
    }
    SoundSystem(s);
  }

  lemma SkewedSweep(sweeps: nat, a: real, b: real, c: real, d: real)
    ensures Jacobi.Sweep(Skewed(sweeps).p, Skewed(sweeps).vals, [a, b], [c, d]) == [(a - d) / 2.0, (b - c) / 3.0]
  {
    var s := Skewed(sweeps);
    RowFacts(s.p, s.vals, 0, [c, d], 0);
    RowFacts(s.p, s.vals, 2, [c, d], 1);
    var r := Jacobi.Sweep(s.p, s.vals, [a, b], [c, d]);
    Jacobi.SweepAt(s.p, s.vals, [a, b], [c, d], 0);
    Jacobi.SweepAt(s.p, s.vals, [a, b], [c, d], 1);
    assert r[0] == (a - d) / 2.0 && r[1] == (b - c) / 3.0;
  }

  lemma SkewedPrec(a: real, b: real)
    ensures Skewed(1).M([a, b]) == [a / 2.0, b / 3.0]
    ensures Skewed(3).M([a, b]) == [7.0 * a / 12.0 - b / 6.0, 7.0 * b / 18.0 - a / 6.0]
  {
    var s, t := Skewed(3), Skewed(1);
    assert s.p == t.p && s.vals == t.vals && Zeros(2) == [0.0, 0.0];
    var m1, m2 := Jacobi.Iterate(s.p, s.vals, [a, b], 1), Jacobi.Iterate(s.p, s.vals, [a, b], 2);
    Jacobi.IterateOne(s.p, s.vals, [a, b]);
    Jacobi.IterateIsSweep(s.p, s.vals, [a, b], 1);
    Jacobi.IterateIsSweep(s.p, s.vals, [a, b], 2);
    assert s.M([a, b]) == Jacobi.Iterate(s.p, s.vals, [a, b], 3) && t.M([a, b]) == m1;
    hide Jacobi.Iterate, Jacobi.Sweep;
    SkewedSweep(3, a, b, 0.0, 0.0);
    SkewedSweep(3, a, b, m1[0], m1[1]);
    SkewedSweep(3, a, b, m2[0], m2[1]);
  }

  /** One iteration with one sweep, in numbers. */
  lemma SkewedAdvance(st: State, a: real, b: real, c: real, d: real, alpha: real, x: real, y: real)
    requires st.res == [a, b] && st.dir == [c, d]
    requires SkewedStep(st.rho, a, b, c, d, alpha, x, y)
    ensures var e := Advance(Skewed(1), st);
            && e.res == [x, y] && e.rho == x / 2.0 * x + y / 3.0 * y
            && e.dir == [x / 2.0 + Mul(Div(e.rho, st.rho), c), y / 3.0 + Mul(Div(e.rho, st.rho), d)]
  {
    hide *;
    var s, e := Skewed(1), Advance(Skewed(1), st);
    AdvanceParts(s, st);
    SkewedProduct(1, c, d);
    SkewedQuotient(st.rho, a, b, c, d, alpha, x, y);
    PairAxpby(-alpha, [2.0 * c + d, c + 3.0 * d], 1.0, [a, b], x, y);
    SkewedPrec(x, y);
    DotTwo([x / 2.0, y / 3.0], [x, y]);
    var beta := Div(e.rho, st.rho);
    MulUnits(x / 2.0);
    MulUnits(y / 3.0);
    PairSum(1.0, [x / 2.0, y / 3.0], beta, [c, d]);
  }

  ghost predicate SkewedStep(rho: real, a: real, b: real, c: real, d: real, alpha: real, x: real, y: real) {
    && c * (2.0 * c + d) + d * (c + 3.0 * d) != 0.0
    && alpha * (c * (2.0 * c + d) + d * (c + 3.0 * d)) == rho
    && x == a - alpha * (2.0 * c + d) && y == b - alpha * (c + 3.0 * d)
  }

  lemma SkewedQuotient(rho: real, a: real, b: real, c: real, d: real, alpha: real, x: real, y: real)
    requires SkewedStep(rho, a, b, c, d, alpha, x, y)
    ensures alpha == Div(rho, Dot([c, d], [2.0 * c + d, c + 3.0 * d]))
    ensures x == -alpha * (2.0 * c + d) + 1.0 * a && y == -alpha * (c + 3.0 * d) + 1.0 * b
  {
    hide Dot;
    DotTwo([c, d], [2.0 * c + d, c + 3.0 * d]);
  }

  lemma PairSum(f: real, u: Vec, g: real, v: Vec)
    requires |u| == |v| == 2
    ensures Axpby(f, u, g, v) == [Mul(f, u[0]) + Mul(g, v[0]), Mul(f, u[1]) + Mul(g, v[1])]
  {
    hide Mul;
  }

  lemma PairAxpby(f: real, u: Vec, g: real, v: Vec, x: real, y: real)
    requires |u| == |v| == 2 && x == f * u[0] + g * v[0] && y == f * u[1] + g * v[1]
    ensures Axpby(f, u, g, v) == [x, y]
  {
    PairSum(f, u, g, v);
  }

  lemma SkewedStart()
    ensures var st := Start(Skewed(3), [0.0, 0.0]);
            st.res == [1.0, 0.0] && st.dir == [7.0 / 12.0, -1.0 / 6.0] && st.rho == 7.0 / 12.0
  {
    var s := Skewed(3);
    assert s.rhs == [1.0, 0.0];
    hide Skewed, Start, System.M, MatVec, Dot;
    StartParts(s, [0.0, 0.0]);
    SkewedProduct(3, 0.0, 0.0);
    assert s.Residual([0.0, 0.0]) == [1.0, 0.0];
    SkewedPrec(1.0, 0.0);
    DotTwo([7.0 / 12.0, -1.0 / 6.0], [1.0, 0.0]);
  }

  lemma SkewedSame()
    ensures SameSystem(Skewed(3), Skewed(1)) && |Skewed(3).rhs| == Skewed(3).N() == 2
  {}

  /** Two submissions of the stale graph leave a residual. */
  lemma SkewedResidual()
    ensures SameSystem(Skewed(3), Skewed(1))
    ensures var r := Resubmitted(Skewed(1), Start(Skewed(3), [0.0, 0.0]), 2).res;
            Dot(r, r) == 169451577.0 / 642628292881.0
  {
    hide *;
    SkewedSame();
    var t, st := Skewed(1), Start(Skewed(3), [0.0, 0.0]);
    SkewedStart();
    ResubmitCases(t, st, 0.0, 0, 0);
    ResubmitCases(t, st, 0.0, 0, 1);
    SkewedSteps();
    SkewedAdvance(st, 1.0, 0.0, 7.0 / 12.0, -1.0 / 6.0, 42.0 / 41.0, -1.0 / 41.0, -7.0 / 82.0);
    var e := Advance(t, st);
    SkewedNumbers(e.rho, st.rho);
    SkewedAdvance(e, -1.0 / 41.0, -7.0 / 82.0, -191.0 / 20172.0, -344.0 / 11767.0, 662970.0 / 801641.0,
      12384.0 / 801641.0, -4011.0 / 801641.0);
    DotTwo([12384.0 / 801641.0, -4011.0 / 801641.0], [12384.0 / 801641.0, -4011.0 / 801641.0]);
  }

  lemma SkewedSteps()
    ensures SkewedStep(7.0 / 12.0, 1.0, 0.0, 7.0 / 12.0, -1.0 / 6.0, 42.0 / 41.0, -1.0 / 41.0, -7.0 / 82.0)
    ensures SkewedStep(55.0 / 20172.0, -1.0 / 41.0, -7.0 / 82.0, -191.0 / 20172.0, -344.0 / 11767.0,
              662970.0 / 801641.0, 12384.0 / 801641.0, -4011.0 / 801641.0)
  {}

  lemma SkewedNumbers(now: real, was: real)
    requires now == -1.0 / 41.0 / 2.0 * (-1.0 / 41.0) + -7.0 / 82.0 / 3.0 * (-7.0 / 82.0) && was == 7.0 / 12.0
    ensures now == 55.0 / 20172.0
    ensures -1.0 / 41.0 / 2.0 + Mul(Div(now, was), 7.0 / 12.0) == -191.0 / 20172.0
    ensures -7.0 / 82.0 / 3.0 + Mul(Div(now, was), -1.0 / 6.0) == -344.0 / 11767.0
  {
    DivUnique(now, was, 55.0 / 11767.0);
  }

  /** Without mixing, two iterations are enough, because the system has two unknowns. */
  lemma SkewedSolved(sweeps: nat)
    requires sweeps == 1 || sweeps == 3
    ensures Loop(Skewed(sweeps), [0.0, 0.0], 0.0, 2, 0).norm2 == 0.0
  {
    hide *;
    var s, x0 := Skewed(sweeps), [0.0, 0.0];
    SkewedOdd(sweeps);
    Converges(s, x0, 0.0, 2);
    LoopNorm(s, x0, 2);
    MulUnits(0.0);
    NotExceeded(Loop(s, x0, 0.0, 2, 0).norm2);
  }

  lemma SkewedOdd(sweeps: nat)
    requires sweeps == 1 || sweeps == 3
    ensures Skewed(sweeps).Sound() && Skewed(sweeps).N() == 2
  {
    SkewedPattern(sweeps);
    hide *;
    SkewedSound(sweeps);
  }

  lemma LoopNorm(s: System, x0: Vec, maxIters: nat)
    ensures Loop(s, x0, 0.0, maxIters, 0).norm2 >= 0.0
  {
    hide Loop, Dot, Nth;
    LoopOutcome(s, x0, 0.0, maxIters, 0);
    DotSelf(ResAt(s, x0, Loop(s, x0, 0.0, maxIters, 0).iters));
  }

  lemma NotExceeded(norm2: real)
    requires norm2 >= 0.0 && !Exceeds(norm2, 0.0)
    ensures norm2 == 0.0
  {}
}
