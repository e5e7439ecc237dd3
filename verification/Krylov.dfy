/** The preconditioned conjugate gradient iteration in exact arithmetic. */
module Krylov {
  import opened Vectors
  import opened Csr
  import Jacobi

  datatype Prec = Identity | Jacobi(sweeps: nat)

  /** A linear system with its preconditioner. */
  datatype System = System(p: Pattern, vals: Vec, rhs: Vec, prec: Prec) {

    function N(): nat {
      p.Rows()
    }

    /** The matrix product. */
    function A(x: Vec): (y: Vec)
      ensures |y| == N()
    {
      MatVec(p, vals, x)
    }

    /** The preconditioner. Its first pass always runs, so zero sweeps act like one. */
    function M(r: Vec): (z: Vec)
      ensures |r| == N() ==> |z| == N()
    {
      match prec
      case Identity => r
      case Jacobi(m) => Jacobi.Iterate(p, vals, r, if m == 0 then 1 else m)
    }

    function Residual(x: Vec): (r: Vec)
      ensures |r| == |rhs|
    {
      Axpby(-1.0, A(x), 1.0, rhs)
    }

    /** A symmetric positive definite matrix, and a preconditioner that is symmetric and definite. */
    ghost predicate Sound() {
      && Spd(p, vals) && |rhs| == N()
      && (forall u: Vec, v: Vec | |u| == |v| == N() :: Dot(M(u), v) == Dot(u, M(v)))
      && (forall u: Vec | |u| == N() && !IsZero(u) :: Dot(M(u), u) > 0.0)
    }
  }

  /** What an iteration hands to the next one. */
  datatype State = State(sol: Vec, res: Vec, dir: Vec, rho: real)

  function Start(s: System, x0: Vec): State {
    var r := s.Residual(x0);
    State(x0, r, s.M(r), Dot(s.M(r), r))
  }

  function StepSize(s: System, st: State): real {
    Div(st.rho, Dot(st.dir, s.A(st.dir)))
  }

  function NextSol(s: System, st: State): Vec {
    Axpby(StepSize(s, st), st.dir, 1.0, st.sol)
  }

  function NextRes(s: System, st: State): Vec {
    Axpby(-StepSize(s, st), s.A(st.dir), 1.0, st.res)
  }

  /** One complete iteration. */
  function Advance(s: System, st: State): State {
    var r := NextRes(s, st);
    var rho := Dot(s.M(r), r);
    State(NextSol(s, st), r, Axpby(1.0, s.M(r), Div(rho, st.rho), st.dir), rho)
  }

  /** The state after k iterations. */
  function Nth(s: System, x0: Vec, k: nat): State {
    if k == 0 then Start(s, x0) else Advance(s, Nth(s, x0, k - 1))
  }

  function ResAt(s: System, x0: Vec, k: nat): Vec {
    Nth(s, x0, k).res
  }

  function PrecAt(s: System, x0: Vec, k: nat): Vec {
    s.M(ResAt(s, x0, k))
  }

  function DirAt(s: System, x0: Vec, k: nat): Vec {
    Nth(s, x0, k).dir
  }

  function ProdAt(s: System, x0: Vec, k: nat): Vec {
    s.A(DirAt(s, x0, k))
  }

  /** The squared norm of the k-th residual. */
  function Norm2(s: System, x0: Vec, k: nat): real {
    Dot(ResAt(s, x0, k), ResAt(s, x0, k))
  }

  /** Solution, squared residual norm and iteration count that a solver returns. */
  datatype Outcome = Outcome(sol: Vec, norm2: real, iters: nat)

  /** The norm is above the tolerance. */
  function Exceeds(norm2: real, tol: real): bool {
    tol < 0.0 || norm2 > Mul(tol, tol)
  }

  /** The norm is below the tolerance. */
  function Beneath(norm2: real, tol: real): bool {
    tol > 0.0 && norm2 < Mul(tol, tol)
  }

  /** Both tests compare the norm itself with the tolerance, also with a negative one. */
  lemma SquaredTests(norm: real, tol: real)
    requires norm >= 0.0
    ensures Exceeds(Mul(norm, norm), tol) <==> norm > tol
    ensures Beneath(Mul(norm, norm), tol) <==> norm < tol
  {
    MulSign(norm + tol, norm - tol);
  }

  /** The solver loop from iteration k on. */
  function Loop(s: System, x0: Vec, tol: real, maxIters: nat, k: nat): (o: Outcome)
    requires k <= maxIters
    decreases maxIters - k
  {
    if Exceeds(Norm2(s, x0, k), tol) && k < maxIters then Loop(s, x0, tol, maxIters, k + 1)
    else Outcome(Nth(s, x0, k).sol, Norm2(s, x0, k), k)
  }

  lemma {:induction false} Sizes(s: System, x0: Vec, k: nat)
    requires |s.rhs| == |x0| == s.N()
    ensures |Nth(s, x0, k).sol| == |ResAt(s, x0, k)| == |PrecAt(s, x0, k)| == s.N()
    ensures |DirAt(s, x0, k)| == |ProdAt(s, x0, k)| == s.N()
  {
    hide Mul, Div, Dot, StepSize, MatVec;
    if k > 0 {
      Sizes(s, x0, k - 1);
    }
  }

  // ------------------------------------------------------------------------
  // The residual is always the true residual.
  // ------------------------------------------------------------------------

  lemma ResidualUpdate(s: System, x: Vec, a: real, d: Vec)
    requires |s.rhs| == |x| == |d| == s.N()
    ensures s.Residual(Axpby(a, d, 1.0, x)) == Axpby(-a, s.A(d), 1.0, s.Residual(x))
  {
    MatVecLinear(s.p, s.vals, a, d, 1.0, x);
    forall i | 0 <= i < s.N()
      ensures s.Residual(Axpby(a, d, 1.0, x))[i] == Axpby(-a, s.A(d), 1.0, s.Residual(x))[i]
    {
      hide Mul, MatVec;
      MulUnits(s.A(x)[i]);
      MulUnits(s.rhs[i]);
      MulUnits(s.A(Axpby(a, d, 1.0, x))[i]);
      MulUnits(s.Residual(x)[i]);
      MulNeg(a, s.A(d)[i]);
    }
  }

  /** The recursively updated residual equals the right-hand side minus the matrix times the solution. */
  lemma {:induction false} ResidualExact(s: System, x0: Vec, k: nat)
    requires |s.rhs| == |x0| == s.N()
    ensures ResAt(s, x0, k) == s.Residual(Nth(s, x0, k).sol)
  {
    hide Mul, Div, Dot, StepSize, Axpby, MatVec;
    if k > 0 {
      ResidualExact(s, x0, k - 1);
      Sizes(s, x0, k - 1);
      var st := Nth(s, x0, k - 1);
      ResidualUpdate(s, st.sol, StepSize(s, st), st.dir);
    }
  }

  // ------------------------------------------------------------------------
  // One iteration.
  // ------------------------------------------------------------------------

  /** No residual before the k-th one is zero. */
  ghost predicate Live(s: System, x0: Vec, k: nat) {
    forall i: nat | i < k :: !IsZero(ResAt(s, x0, i))
  }

  /** The k-th step length. */
  function StepLength(s: System, x0: Vec, k: nat): real {
    StepSize(s, Nth(s, x0, k))
  }

  function Rho(s: System, x0: Vec, k: nat): real {
    Nth(s, x0, k).rho
  }

  lemma RhoIs(s: System, x0: Vec, k: nat)
    ensures Rho(s, x0, k) == Dot(PrecAt(s, x0, k), ResAt(s, x0, k))
  {}

  /** The residual update against any vector. */
  lemma ResStep(s: System, x0: Vec, k: nat, w: Vec)
    requires |s.rhs| == |x0| == |w| == s.N()
    ensures Dot(ResAt(s, x0, k + 1), w) == Dot(ResAt(s, x0, k), w) - Mul(StepLength(s, x0, k), Dot(ProdAt(s, x0, k), w))
  {
    hide Mul, Div, Dot, Axpby, MatVec, StepSize;
    Sizes(s, x0, k);
    var a := StepLength(s, x0, k);
    DotAxpby(-a, ProdAt(s, x0, k), 1.0, ResAt(s, x0, k), w);
    MulUnits(Dot(ResAt(s, x0, k), w));
    MulNeg(a, Dot(ProdAt(s, x0, k), w));
  }

  /** The direction update against any vector. */
  lemma DirStep(s: System, x0: Vec, k: nat, w: Vec)
    requires |s.rhs| == |x0| == |w| == s.N()
    ensures Dot(DirAt(s, x0, k + 1), w)
         == Dot(PrecAt(s, x0, k + 1), w) + Mul(Div(Rho(s, x0, k + 1), Rho(s, x0, k)), Dot(DirAt(s, x0, k), w))
  {
    hide Mul, Div, Dot, Axpby, MatVec, StepSize;
    Sizes(s, x0, k);
    Sizes(s, x0, k + 1);
    var b := Div(Rho(s, x0, k + 1), Rho(s, x0, k));
    DotAxpby(1.0, PrecAt(s, x0, k + 1), b, DirAt(s, x0, k), w);
    MulUnits(Dot(PrecAt(s, x0, k + 1), w));
  }

  // The parts of the hypotheses, one instance at a time.

  lemma SoundSymmetric(s: System, u: Vec, v: Vec)
    requires s.Sound() && |u| == |v| == s.N()
    ensures |s.rhs| == s.N()
    ensures Dot(s.M(u), v) == Dot(u, s.M(v))
    ensures Dot(u, s.A(v)) == Dot(s.A(u), v)
  {
    hide Mul, Dot;
    SelfAdjoint(s.p, s.vals, u, v);
  }

  lemma SoundDefinite(s: System, u: Vec)
    requires s.Sound() && |u| == s.N() && !IsZero(u)
    ensures Dot(s.M(u), u) > 0.0
    ensures Dot(u, s.A(u)) > 0.0
  {
    hide Mul, Dot, MatVec;
  }

  lemma SoundSize(s: System)
    requires s.Sound()
    ensures |s.rhs| == s.N()
  {}

  lemma LiveAt(s: System, x0: Vec, k: nat, i: nat)
    requires Live(s, x0, k) && i < k
    ensures Live(s, x0, i) && Live(s, x0, i + 1) && !IsZero(ResAt(s, x0, i))
  {}

  /** While residuals are nonzero the direction meets the residual, so every denominator is positive. */
  lemma {:induction false} Denominators(s: System, x0: Vec, k: nat)
    requires s.Sound() && |x0| == s.N() && Live(s, x0, k)
    ensures Dot(DirAt(s, x0, k), ResAt(s, x0, k)) == Rho(s, x0, k)
    ensures !IsZero(ResAt(s, x0, k)) ==>
              && Rho(s, x0, k) > 0.0
              && Dot(DirAt(s, x0, k), ProdAt(s, x0, k)) > 0.0
              && StepLength(s, x0, k) > 0.0
              && Mul(StepLength(s, x0, k), Dot(DirAt(s, x0, k), ProdAt(s, x0, k))) == Rho(s, x0, k)
    decreases k, 0
  {
    hide *;
    SoundSize(s);
    if k == 0 {
      FirstDirection(s, x0);
    } else {
      DirMeetsRes(s, x0, k - 1);
    }
    if !IsZero(ResAt(s, x0, k)) {
      PositiveStep(s, x0, k);
    }
  }

  lemma FirstDirection(s: System, x0: Vec)
    ensures DirAt(s, x0, 0) == PrecAt(s, x0, 0)
    ensures Dot(DirAt(s, x0, 0), ResAt(s, x0, 0)) == Rho(s, x0, 0)
  {}

  lemma PositiveStep(s: System, x0: Vec, k: nat)
    requires s.Sound() && |x0| == s.N() && !IsZero(ResAt(s, x0, k))
    requires Dot(DirAt(s, x0, k), ResAt(s, x0, k)) == Rho(s, x0, k)
    ensures Rho(s, x0, k) > 0.0 && Dot(DirAt(s, x0, k), ProdAt(s, x0, k)) > 0.0 && StepLength(s, x0, k) > 0.0
    ensures Mul(StepLength(s, x0, k), Dot(DirAt(s, x0, k), ProdAt(s, x0, k))) == Rho(s, x0, k)
  {
    hide Mul, Div, DotTo, MatVec, System.Sound, System.M, Nth, IsZero;
    SoundSize(s);
    Sizes(s, x0, k);
    RhoIs(s, x0, k);
    var r, d := ResAt(s, x0, k), DirAt(s, x0, k);
    SoundDefinite(s, r);
    if IsZero(d) {
      DotToZero(d, r, |d|);
    }
    SoundDefinite(s, d);
    StepSign(Rho(s, x0, k), Dot(d, s.A(d)));
  }

  lemma StepSign(rho: real, curvature: real)
    requires rho > 0.0 && curvature > 0.0
    ensures Div(rho, curvature) > 0.0
    ensures Mul(Div(rho, curvature), curvature) == rho
  {}

  lemma {:induction false} DirMeetsRes(s: System, x0: Vec, k: nat)
    requires s.Sound() && |x0| == s.N() && Live(s, x0, k + 1)
    ensures Dot(DirAt(s, x0, k + 1), ResAt(s, x0, k + 1)) == Rho(s, x0, k + 1)
    ensures Dot(DirAt(s, x0, k), ResAt(s, x0, k + 1)) == 0.0
    decreases k, 1
  {
    hide *;
    SoundSize(s);
    LiveAt(s, x0, k + 1, k);
    Denominators(s, x0, k);
    Sizes(s, x0, k);
    Sizes(s, x0, k + 1);
    var d, q, r, r' := DirAt(s, x0, k), ProdAt(s, x0, k), ResAt(s, x0, k), ResAt(s, x0, k + 1);
    ResStep(s, x0, k, d);
    DotComm(r', d);
    DotComm(r, d);
    DotComm(q, d);
    DirStep(s, x0, k, r');
    RhoIs(s, x0, k + 1);
    MulUnits(Div(Rho(s, x0, k + 1), Rho(s, x0, k)));
  }

  // ------------------------------------------------------------------------
  // Orthogonality of the residuals and conjugacy of the directions.
  // ------------------------------------------------------------------------

  ghost predicate Conjugate(s: System, x0: Vec, k: nat) {
    forall i: nat, j: nat | i < j <= k ::
      Dot(PrecAt(s, x0, i), ResAt(s, x0, j)) == 0.0 && Dot(ProdAt(s, x0, i), DirAt(s, x0, j)) == 0.0
  }

  lemma ConjugateAt(s: System, x0: Vec, k: nat, i: nat)
    requires s.Sound() && |x0| == s.N() && Conjugate(s, x0, k) && i < k
    ensures Dot(PrecAt(s, x0, i), ResAt(s, x0, k)) == 0.0
    ensures Dot(ProdAt(s, x0, i), DirAt(s, x0, k)) == Dot(DirAt(s, x0, i), ProdAt(s, x0, k)) == 0.0
  {
    assert Dot(ProdAt(s, x0, i), DirAt(s, x0, k)) == 0.0;
    hide Mul, Dot, MatVec, Nth, System.Sound, Conjugate;
    SoundSize(s);
    Sizes(s, x0, i);
    Sizes(s, x0, k);
    SoundSymmetric(s, DirAt(s, x0, i), DirAt(s, x0, k));
  }

  /** The preconditioned residual sees the newest product only through its own direction. */
  lemma ResSeesQ(s: System, x0: Vec, k: nat, i: nat)
    requires s.Sound() && |x0| == s.N() && Conjugate(s, x0, k) && i <= k
    ensures Dot(PrecAt(s, x0, i), ProdAt(s, x0, k)) == if i < k then 0.0 else Dot(DirAt(s, x0, k), ProdAt(s, x0, k))
  {
    hide *;
    SoundSize(s);
    Sizes(s, x0, k);
    if i < k {
      ConjugateAt(s, x0, k, i);
    }
    if i == 0 {
      FirstDirection(s, x0);
    } else {
      ConjugateAt(s, x0, k, i - 1);
      DirStep(s, x0, i - 1, ProdAt(s, x0, k));
      MulUnits(Div(Rho(s, x0, i), Rho(s, x0, i - 1)));
    }
  }

  lemma NewResidual(s: System, x0: Vec, k: nat, i: nat)
    requires s.Sound() && |x0| == s.N() && Live(s, x0, k + 1) && Conjugate(s, x0, k) && i <= k
    ensures Dot(PrecAt(s, x0, i), ResAt(s, x0, k + 1)) == 0.0
  {
    hide *;
    SoundSize(s);
    LiveAt(s, x0, k + 1, k);
    Denominators(s, x0, k);
    Sizes(s, x0, i);
    Sizes(s, x0, k);
    Sizes(s, x0, k + 1);
    if i < k {
      ConjugateAt(s, x0, k, i);
    }
    var z := PrecAt(s, x0, i);
    ResStep(s, x0, k, z);
    DotComm(ResAt(s, x0, k + 1), z);
    DotComm(ResAt(s, x0, k), z);
    DotComm(ProdAt(s, x0, k), z);
    ResSeesQ(s, x0, k, i);
    RhoIs(s, x0, k);
    MulUnits(StepLength(s, x0, k));
  }

  /** The preconditioner moves across the inner product. */
  lemma PrecMove(s: System, x0: Vec, i: nat, j: nat)
    requires s.Sound() && |x0| == s.N()
    ensures Dot(ResAt(s, x0, i), PrecAt(s, x0, j)) == Dot(PrecAt(s, x0, i), ResAt(s, x0, j))
  {
    hide Mul, Dot, MatVec, Nth, System.Sound;
    SoundSize(s);
    Sizes(s, x0, i);
    Sizes(s, x0, j);
    SoundSymmetric(s, ResAt(s, x0, i), ResAt(s, x0, j));
  }

  lemma NewDirection(s: System, x0: Vec, k: nat, i: nat)
    requires s.Sound() && |x0| == s.N() && Live(s, x0, k + 1) && Conjugate(s, x0, k) && i <= k
    ensures Dot(ProdAt(s, x0, i), DirAt(s, x0, k + 1)) == 0.0
  {
    hide *;
    SoundSize(s);
    Sizes(s, x0, i);
    Sizes(s, x0, k);
    Sizes(s, x0, k + 1);
    LiveAt(s, x0, k + 1, i);
    LiveAt(s, x0, k + 1, k);
    Denominators(s, x0, i);
    Denominators(s, x0, k);
    var z', q, d, d' := PrecAt(s, x0, k + 1), ProdAt(s, x0, i), DirAt(s, x0, k), DirAt(s, x0, k + 1);
    var a, b := StepLength(s, x0, i), Div(Rho(s, x0, k + 1), Rho(s, x0, k));
    ResStep(s, x0, i, z');
    PrecMove(s, x0, i, k + 1);
    PrecMove(s, x0, i + 1, k + 1);
    NewResidual(s, x0, k, i);
    DirStep(s, x0, k, q);
    DotComm(d', q);
    DotComm(z', q);
    DotComm(d, q);
    MulSign(a, Dot(q, z'));
    if i < k {
      ConjugateAt(s, x0, k, i);
      NewResidual(s, x0, k, i + 1);
      MulUnits(b);
    } else {
      RhoIs(s, x0, k + 1);
      DivMul(Rho(s, x0, k + 1), Rho(s, x0, k));
      MulSwap(a, b, Dot(d, q));
      MulAdd(a, Dot(q, z'), Mul(b, Dot(d, q)));
      MulSign(a, Dot(q, z') + Mul(b, Dot(d, q)));
    }
  }

  /**
   * All residuals are mutually orthogonal in the inner product of the preconditioner,
   * and all directions are mutually conjugate.
   */
  lemma {:induction false} Conjugacy(s: System, x0: Vec, k: nat)
    requires s.Sound() && |x0| == s.N() && Live(s, x0, k)
    ensures Conjugate(s, x0, k)
  {
    hide Mul, Dot, Nth, ResAt, DirAt, PrecAt, ProdAt, System.Sound;
    if k > 0 {
      Conjugacy(s, x0, k - 1);
      forall i: nat | i < k
        ensures Dot(PrecAt(s, x0, i), ResAt(s, x0, k)) == 0.0 && Dot(ProdAt(s, x0, i), DirAt(s, x0, k)) == 0.0
      {
        NewResidual(s, x0, k - 1, i);
        NewDirection(s, x0, k - 1, i);
      }
    }
  }

  function Residuals(s: System, x0: Vec, k: nat): seq<Vec> {
    seq(k, i requires 0 <= i => ResAt(s, x0, i))
  }

  function Preconditioned(s: System, x0: Vec, k: nat): seq<Vec> {
    seq(k, i requires 0 <= i => PrecAt(s, x0, i))
  }

  /** Nonzero residuals are independent. */
  lemma IndependentResiduals(s: System, x0: Vec, k: nat)
    requires s.Sound() && |x0| == s.N() && Live(s, x0, k)
    ensures Triangular(s.N(), Residuals(s, x0, k), Preconditioned(s, x0, k))
  {
    hide Mul, Dot, Nth, ResAt, PrecAt, DirAt, ProdAt, Live, System.Sound, System.M, Conjugate;
    SoundSize(s);
    Conjugacy(s, x0, k);
    forall i: nat | i < k
      ensures |ResAt(s, x0, i)| == |PrecAt(s, x0, i)| == s.N() && Dot(ResAt(s, x0, i), PrecAt(s, x0, i)) != 0.0
    {
      Sizes(s, x0, i);
      LiveAt(s, x0, k, i);
      Denominators(s, x0, i);
      RhoIs(s, x0, i);
      PrecMove(s, x0, i, i);
    }
    forall i: nat, j: nat | j < i < k ensures Dot(ResAt(s, x0, j), PrecAt(s, x0, i)) == 0.0 {
      PrecMove(s, x0, j, i);
      Earlier(s, x0, k, i);
      ConjugateAt(s, x0, i, j);
    }
  }

  lemma Earlier(s: System, x0: Vec, k: nat, i: nat)
    requires Conjugate(s, x0, k) && i <= k
    ensures Conjugate(s, x0, i)
  {
    hide Mul, Dot, Nth, ResAt, PrecAt, DirAt, ProdAt;
  }

  /** Finite termination: one of the first n + 1 residuals is zero. */
  lemma Termination(s: System, x0: Vec) returns (k: nat)
    requires s.Sound() && |x0| == s.N()
    ensures k <= s.N() && IsZero(ResAt(s, x0, k))
  {
    hide Mul, Dot, Nth, ResAt, PrecAt, System.Sound, System.M;
    var n := s.N();
    if Live(s, x0, n + 1) {
      IndependentResiduals(s, x0, n + 1);
      TriangularBound(n, Residuals(s, x0, n + 1), Preconditioned(s, x0, n + 1));
      assert false;
    } else {
      k :| k < n + 1 && IsZero(ResAt(s, x0, k));
    }
  }

  lemma {:induction false} LoopStops(s: System, x0: Vec, tol: real, maxIters: nat, k: nat, last: nat)
    requires k <= last <= maxIters && !Exceeds(Norm2(s, x0, last), tol)
    ensures !Exceeds(Loop(s, x0, tol, maxIters, k).norm2, tol)
    ensures Loop(s, x0, tol, maxIters, k).iters <= last
    decreases last - k
  {
    hide *;
    LoopCases(s, x0, tol, maxIters, k);
    if k < last {
      LoopStops(s, x0, tol, maxIters, k + 1, last);
    }
  }

  lemma LoopCases(s: System, x0: Vec, tol: real, maxIters: nat, k: nat)
    requires k <= maxIters
    ensures Exceeds(Norm2(s, x0, k), tol) && k < maxIters ==>
              Loop(s, x0, tol, maxIters, k) == Loop(s, x0, tol, maxIters, k + 1)
    ensures !(Exceeds(Norm2(s, x0, k), tol) && k < maxIters) ==>
              Loop(s, x0, tol, maxIters, k) == Outcome(Nth(s, x0, k).sol, Norm2(s, x0, k), k)
  {
    hide Nth, Norm2, Exceeds;
  }

  /** With at least n iterations allowed, the loop meets the tolerance, after at most n of them. */
  lemma Converges(s: System, x0: Vec, tol: real, maxIters: nat)
    requires s.Sound() && |x0| == s.N() && tol >= 0.0 && maxIters >= s.N()
    ensures !Exceeds(Loop(s, x0, tol, maxIters, 0).norm2, tol)
    ensures Loop(s, x0, tol, maxIters, 0).iters <= s.N()
  {
    var k := Termination(s, x0);
    hide Mul, Dot, Nth;
    DotSelf(ResAt(s, x0, k));
    MulSign(tol, tol);
    LoopStops(s, x0, tol, maxIters, 0, k);
  }

  lemma {:induction false} LoopOutcome(s: System, x0: Vec, tol: real, maxIters: nat, k: nat)
    requires k <= maxIters
    ensures var o := Loop(s, x0, tol, maxIters, k); o.sol == Nth(s, x0, o.iters).sol && o.norm2 == Norm2(s, x0, o.iters)
    decreases maxIters - k
  {
    hide *;
    LoopCases(s, x0, tol, maxIters, k);
    if k < maxIters {
      LoopOutcome(s, x0, tol, maxIters, k + 1);
    }
  }

  /**
   * Where a loop stops that starts with a count: at the first norm that does not exceed the tolerance, unless all
   * iterations are used up before.
   */
  ghost predicate StopsAt(norms: nat -> real, tol: real, first: nat, maxIters: nat, k: nat) {
    && first <= k && (k < maxIters ==> !Exceeds(norms(k), tol))
    && forall j: nat | first <= j < k :: j < maxIters && Exceeds(norms(j), tol)
  }

  /** There is only one such place. With a negative tolerance it is the end of the allowed iterations. */
  lemma StopsOnce(norms: nat -> real, tol: real, first: nat, maxIters: nat, k: nat, l: nat)
    requires StopsAt(norms, tol, first, maxIters, k) && StopsAt(norms, tol, first, maxIters, l)
    ensures k == l && (tol < 0.0 ==> k == if first < maxIters then maxIters else first)
  {
    assert k < l ==> Exceeds(norms(k), tol);
    assert l < k ==> Exceeds(norms(l), tol);
    assert first < k ==> Exceeds(norms(k - 1), tol) && k - 1 < maxIters;
  }

  function Norms(s: System, x0: Vec): nat -> real {
    (k: nat) => Norm2(s, x0, k)
  }

  lemma {:induction false} LoopStopsAt(s: System, x0: Vec, tol: real, maxIters: nat, k: nat)
    requires k <= maxIters
    ensures StopsAt(Norms(s, x0), tol, k, maxIters, Loop(s, x0, tol, maxIters, k).iters)
    decreases maxIters - k
  {
    hide Nth, Norm2, Exceeds, Loop;
    LoopCases(s, x0, tol, maxIters, k);
    if Exceeds(Norm2(s, x0, k), tol) && k < maxIters {
      LoopStopsAt(s, x0, tol, maxIters, k + 1);
    }
  }

  /**
   * What the loop returns: the solution and the norm of the first iteration whose norm does not exceed the tolerance,
   * or of the last allowed one. With a negative tolerance it is the last allowed one.
   */
  lemma LoopExactly(s: System, x0: Vec, tol: real, maxIters: nat, o: Outcome)
    ensures o == Loop(s, x0, tol, maxIters, 0)
       <==> StopsAt(Norms(s, x0), tol, 0, maxIters, o.iters) && o.sol == Nth(s, x0, o.iters).sol
              && o.norm2 == Norm2(s, x0, o.iters)
    ensures tol < 0.0 ==> Loop(s, x0, tol, maxIters, 0).iters == maxIters
  {
    hide *;
    var l := Loop(s, x0, tol, maxIters, 0);
    LoopOutcome(s, x0, tol, maxIters, 0);
    LoopStopsAt(s, x0, tol, maxIters, 0);
    StopsOnce(Norms(s, x0), tol, 0, maxIters, l.iters, l.iters);
    if StopsAt(Norms(s, x0), tol, 0, maxIters, o.iters) {
      StopsOnce(Norms(s, x0), tol, 0, maxIters, o.iters, l.iters);
    }
  }

  /** With zero tolerance and n iterations allowed, the loop solves the system exactly. */
  lemma LoopSolves(s: System, x0: Vec, maxIters: nat)
    requires s.Sound() && |x0| == s.N() && maxIters >= s.N()
    ensures s.A(Loop(s, x0, 0.0, maxIters, 0).sol) == s.rhs
  {
    hide Loop, Nth, MatVec, System.Sound, Dot, Axpby;
    SoundSize(s);
    Converges(s, x0, 0.0, maxIters);
    LoopOutcome(s, x0, 0.0, maxIters, 0);
    var o := Loop(s, x0, 0.0, maxIters, 0);
    MulUnits(0.0);
    DotSelf(ResAt(s, x0, o.iters));
    ResidualExact(s, x0, o.iters);
    ZeroResidual(s, o.sol);
  }

  lemma ZeroResidual(s: System, x: Vec)
    requires IsZero(s.Residual(x)) && |s.rhs| == s.N()
    ensures s.A(x) == s.rhs
  {
    hide Mul, MatVec;
    forall i | 0 <= i < s.N() ensures s.A(x)[i] == s.rhs[i] {
      assert s.Residual(x)[i] == 0.0;
      MulUnits(s.A(x)[i]);
      MulUnits(s.rhs[i]);
    }
  }

  // ------------------------------------------------------------------------
  // The energy.
  // ------------------------------------------------------------------------

  function Energy(s: System, x: Vec): real {
    Mul(0.5, Dot(x, s.A(x))) - Dot(s.rhs, x)
  }

  /** The energy along a direction, as a quadratic in the step length. */
  lemma EnergyAlong(s: System, x: Vec, a: real, d: Vec)
    requires s.Sound() && |x| == |d| == s.N()
    ensures Energy(s, Axpby(a, d, 1.0, x))
         == Energy(s, x) - Mul(a, Dot(d, s.Residual(x))) + Mul(0.5, Mul(a, Mul(a, Dot(d, s.A(d)))))
  {
    hide *;
    SoundSize(s);
    SoundSymmetric(s, d, x);
    var ax, ad, b := s.A(x), s.A(d), s.rhs;
    CrossTerms(s, x, a, d);
    DotComm(ad, x);
    DotComm(b, d);
    EnergyAlgebra(a, Dot(d, ad), Dot(d, ax), Dot(x, ax), Dot(d, b), Dot(b, x));
  }

  lemma CrossTerms(s: System, x: Vec, a: real, d: Vec)
    requires |s.rhs| == |x| == |d| == s.N()
    ensures Energy(s, x) == Mul(0.5, Dot(x, s.A(x))) - Dot(s.rhs, x)
    ensures Energy(s, Axpby(a, d, 1.0, x))
         == Mul(0.5, Mul(a, Mul(a, Dot(d, s.A(d))) + Dot(d, s.A(x))) + (Mul(a, Dot(x, s.A(d))) + Dot(x, s.A(x))))
          - (Mul(a, Dot(s.rhs, d)) + Dot(s.rhs, x))
    ensures Dot(d, s.Residual(x)) == -Dot(d, s.A(x)) + Dot(d, s.rhs)
  {
    hide Mul, Dot, Axpby, MatVec;
    var y, ax, ad, b := Axpby(a, d, 1.0, x), s.A(x), s.A(d), s.rhs;
    MatVecLinear(s.p, s.vals, a, d, 1.0, x);
    DotAxpby(a, d, 1.0, x, s.A(y));
    DotAxpbyRight(d, a, ad, 1.0, ax);
    DotAxpbyRight(x, a, ad, 1.0, ax);
    DotAxpbyRight(b, a, d, 1.0, x);
    DotAxpbyRight(d, -1.0, ax, 1.0, b);
    MulUnits(Dot(d, ax));
    MulUnits(Dot(x, ax));
    MulUnits(Dot(b, x));
    MulUnits(Dot(d, b));
    MulUnits(Dot(x, s.A(y)));
  }

  lemma EnergyAlgebra(a: real, u: real, v: real, w: real, c: real, e: real)
    ensures Mul(0.5, Mul(a, Mul(a, u) + v) + (Mul(a, v) + w)) - (Mul(a, c) + e)
         == Mul(0.5, w) - e - Mul(a, -v + c) + Mul(0.5, Mul(a, Mul(a, u)))
  {}

  /** Every iteration with a nonzero residual lowers the energy by half of step length times rho. */
  lemma EnergyDecreases(s: System, x0: Vec, k: nat)
    requires s.Sound() && |x0| == s.N() && Live(s, x0, k + 1)
    ensures Energy(s, Nth(s, x0, k + 1).sol)
         == Energy(s, Nth(s, x0, k).sol) - Mul(0.5, Mul(StepLength(s, x0, k), Rho(s, x0, k)))
    ensures Energy(s, Nth(s, x0, k + 1).sol) < Energy(s, Nth(s, x0, k).sol)
  {
    hide *;
    SoundSize(s);
    LiveAt(s, x0, k + 1, k);
    Denominators(s, x0, k);
    Sizes(s, x0, k);
    ResidualExact(s, x0, k);
    SolStep(s, x0, k);
    DotComm(ResAt(s, x0, k), DirAt(s, x0, k));
    var a, rho := StepLength(s, x0, k), Rho(s, x0, k);
    EnergyAlong(s, Nth(s, x0, k).sol, a, DirAt(s, x0, k));
    MulSign(a, rho);
    MulHalf(Mul(a, rho));
  }

  lemma SolStep(s: System, x0: Vec, k: nat)
    ensures Nth(s, x0, k + 1).sol == Axpby(StepLength(s, x0, k), DirAt(s, x0, k), 1.0, Nth(s, x0, k).sol)
    ensures ProdAt(s, x0, k) == s.A(DirAt(s, x0, k))
  {}

  lemma MulHalf(a: real)
    ensures Mul(0.5, a) + Mul(0.5, a) == a
  {}

  // ------------------------------------------------------------------------
  // Preconditioners that meet the hypotheses.
  // ------------------------------------------------------------------------

  /** The identity and any number of Jacobi sweeps are symmetric. */
  lemma PrecSymmetric(s: System, u: Vec, v: Vec)
    requires s.p.WellFormed() && Symmetric(s.p, s.vals) && |u| == |v| == s.N()
    requires s.prec.Jacobi? ==> Jacobi.DiagonalStored(s.p)
    ensures Dot(s.M(u), v) == Dot(u, s.M(v))
  {
    if s.prec.Jacobi? {
      Jacobi.IterateSymmetric(s.p, s.vals, u, v, if s.prec.sweeps == 0 then 1 else s.prec.sweeps);
    }
  }

  lemma SpdParts(s: System)
    requires Spd(s.p, s.vals)
    ensures s.p.WellFormed() && Symmetric(s.p, s.vals)
  {}

  /** Definite: no preconditioner, an odd number of sweeps, or a diagonal that outweighs the rest. */
  ghost predicate Suited(s: System) {
    s.prec.Jacobi? ==> s.prec.sweeps == 0 || s.prec.sweeps % 2 == 1 || Jacobi.Dominant(s.p, s.vals)
  }

  lemma PrecDefinite(s: System, u: Vec)
    requires Spd(s.p, s.vals) && (s.prec.Jacobi? ==> Jacobi.DiagonalStored(s.p)) && Suited(s)
    requires |u| == s.N() && !IsZero(u)
    ensures Dot(s.M(u), u) > 0.0
  {
    hide Mul, Dot, MatVec, Csr.Spd, Symmetric, Jacobi.DiagonalStored, Jacobi.Iterate, Jacobi.Dominant, Jacobi.Scale;
    match s.prec
    case Identity => DotSelf(u);
    case Jacobi(m) =>
      var k := if m == 0 then 1 else m;
      if k % 2 == 1 {
        Jacobi.OddDefinite(s.p, s.vals, u, k);
        Jacobi.ScaleDefinite(s.p, s.vals, u);
      } else {
        Jacobi.EvenDefinite(s.p, s.vals, u, k);
      }
  }

  /** For an even number of sweeps soundness needs the dominance. */
  lemma SoundSuited(s: System)
    requires s.Sound() && (s.prec.Jacobi? ==> Jacobi.DiagonalStored(s.p))
    ensures Suited(s)
  {
    hide Mul, Dot, MatVec, Csr.Spd, Symmetric, Jacobi.DiagonalStored, Jacobi.Iterate, Jacobi.Dominant;
    if s.prec.Jacobi? && s.prec.sweeps > 0 && s.prec.sweeps % 2 == 0 {
      forall u: Vec | |u| == s.N() && !IsZero(u) ensures Dot(Jacobi.Iterate(s.p, s.vals, u, s.prec.sweeps), u) > 0.0 {
        SoundDefinite(s, u);
      }
      Jacobi.EvenDefiniteExactly(s.p, s.vals, s.prec.sweeps);
    }
  }

  /**
   * A symmetric positive definite system is sound exactly without preconditioner, with zero or an odd number of
   * Jacobi sweeps, or if the diagonal outweighs the rest.
   */
  lemma SoundSystem(s: System)
    requires Spd(s.p, s.vals) && |s.rhs| == s.N()
    requires s.prec.Jacobi? ==> Jacobi.DiagonalStored(s.p)
    ensures s.Sound()
       <==> s.prec.Identity? || s.prec.sweeps == 0 || s.prec.sweeps % 2 == 1 || Jacobi.Dominant(s.p, s.vals)
  {
    hide Mul, Dot, MatVec, Csr.Spd, Symmetric, Jacobi.DiagonalStored, Jacobi.Dominant, System.M;
    if Suited(s) {
      forall u: Vec, v: Vec | |u| == |v| == s.N() ensures Dot(s.M(u), v) == Dot(u, s.M(v)) {
        SpdParts(s);
        PrecSymmetric(s, u, v);
      }
      forall u: Vec | |u| == s.N() && !IsZero(u) ensures Dot(s.M(u), u) > 0.0 {
        PrecDefinite(s, u);
      }
    }
    if s.Sound() {
      SoundSuited(s);
    }
  }

  // ------------------------------------------------------------------------
  // The unpreconditioned recurrence.
  // ------------------------------------------------------------------------

  function CgStart(s: System, x0: Vec): State {
    var r := s.Residual(x0);
    State(x0, r, r, Dot(r, r))
  }

  function CgAdvance(s: System, st: State): State {
    var r := NextRes(s, st);
    var rho := Dot(r, r);
    State(NextSol(s, st), r, Axpby(1.0, r, Div(rho, st.rho), st.dir), rho)
  }

  function CgNth(s: System, x0: Vec, k: nat): State {
    if k == 0 then CgStart(s, x0) else CgAdvance(s, CgNth(s, x0, k - 1))
  }

  function CgLoop(s: System, x0: Vec, tol: real, maxIters: nat, k: nat): (o: Outcome)
    requires k <= maxIters
    decreases maxIters - k
  {
    var st := CgNth(s, x0, k);
    if Exceeds(st.rho, tol) && k < maxIters then CgLoop(s, x0, tol, maxIters, k + 1) else Outcome(st.sol, st.rho, k)
  }

  /** With the identity as preconditioner, both recurrences have the same solution, residual, direction and rho. */
  lemma {:induction false} CgMatches(s: System, x0: Vec, k: nat)
    requires s.prec.Identity?
    ensures CgNth(s, x0, k) == Nth(s, x0, k)
  {
    hide Mul, Div, Dot, Axpby, NextSol, NextRes, System.Residual;
    if k > 0 {
      CgMatches(s, x0, k - 1);
    }
  }

  /** Both loops stop at the same iteration with the same result. */
  lemma {:induction false} CgLoopMatches(s: System, x0: Vec, tol: real, maxIters: nat, k: nat)
    requires s.prec.Identity? && k <= maxIters
    ensures CgLoop(s, x0, tol, maxIters, k) == Loop(s, x0, tol, maxIters, k)
    decreases maxIters - k
  {
    hide Mul, Dot, Nth, CgNth, Exceeds;
    CgMatches(s, x0, k);
    RhoIs(s, x0, k);
    LoopCases(s, x0, tol, maxIters, k);
    if k < maxIters {
      CgLoopMatches(s, x0, tol, maxIters, k + 1);
    }
  }

  /** Without preconditioner, residuals are mutually orthogonal and directions mutually conjugate. */
  lemma CgConjugacy(s: System, x0: Vec, k: nat, i: nat, j: nat)
    requires s.prec.Identity? && Spd(s.p, s.vals) && |s.rhs| == |x0| == s.N()
    requires i < j <= k && forall l: nat | l < k :: !IsZero(CgNth(s, x0, l).res)
    ensures Dot(CgNth(s, x0, i).res, CgNth(s, x0, j).res) == 0.0
    ensures Dot(s.A(CgNth(s, x0, i).dir), CgNth(s, x0, j).dir) == 0.0
  {
    hide Mul, Dot, MatVec, Csr.Spd, Nth, CgNth;
    SoundSystem(s);
    forall l: nat | l < k ensures !IsZero(ResAt(s, x0, l)) {
      CgMatches(s, x0, l);
    }
    Conjugacy(s, x0, k);
    CgMatches(s, x0, i);
    CgMatches(s, x0, j);
    assert Dot(PrecAt(s, x0, i), ResAt(s, x0, j)) == 0.0 && Dot(ProdAt(s, x0, i), DirAt(s, x0, j)) == 0.0;
  }

  /** For a symmetric positive definite matrix the plain loop meets the tolerance within n iterations. */
  lemma CgConverges(s: System, x0: Vec, tol: real, maxIters: nat)
    requires s.prec.Identity? && Spd(s.p, s.vals) && |s.rhs| == |x0| == s.N()
    requires tol >= 0.0 && maxIters >= s.N()
    ensures CgLoop(s, x0, tol, maxIters, 0).norm2 <= Mul(tol, tol)
    ensures CgLoop(s, x0, tol, maxIters, 0).iters <= s.N()
  {
    hide Mul, Dot, Csr.Spd, Loop, CgLoop, System.Sound;
    SoundSystem(s);
    Converges(s, x0, tol, maxIters);
    CgLoopMatches(s, x0, tol, maxIters, 0);
  }
}
