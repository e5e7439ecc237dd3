/** The Newton iteration as a function: what its states are when the linear solver does its work, and when not. */
module NewtonStates {
  import opened Vectors
  import opened Csr
  import opened HeatMatrix
  import opened Resubmission
  import Heat
  import Newton
  import Krylov
  import StaleSweeps

  /**
   * The problem, its linear solver and the linear solver's parameters. The linear solver is attached if its graph
   * updates the step of this iteration, and not that of an earlier one.
   */
  datatype Setup = Setup(
    hp: Heat.Params, useGraph: bool, prec: Krylov.Prec, built: Krylov.Prec, attached: bool, tol: real, maxIters: nat)

  /** Between iterations: the current solution, the last step, and the inner iterations so far. */
  datatype Point = Point(u: Vec, delta: Vec, inner: nat)

  /** The linear solve at u, started from the last step. */
  function LinearSolve(c: Setup, u: Vec, d0: Vec): Krylov.Outcome {
    var s := Newton.LinearSystem(c.hp, u, c.prec);
    if c.useGraph then Passed(s, Newton.LinearSystem(c.hp, u, c.built), d0, c.tol, c.maxIters, c.attached)
    else Krylov.Loop(s, d0, c.tol, c.maxIters, 0)
  }

  function Next(c: Setup, pt: Point): Point {
    var o := LinearSolve(c, pt.u, pt.delta);
    Point(Newton.Subtracted(pt.u, o.sol), o.sol, pt.inner + o.iters)
  }

  /** The state after k Newton iterations from u0. */
  function PointAt(c: Setup, u0: Vec, k: nat): Point {
    if k == 0 then Point(u0, Zeros(c.hp.NumDofs()), 0) else Next(c, PointAt(c, u0, k - 1))
  }

  /** The squared norm of the nonlinear residual after k iterations. */
  function Norm2At(c: Setup, u0: Vec, k: nat): real {
    var f := Heat.Rhs(c.hp, PointAt(c, u0, k).u);
    Dot(f, f)
  }

  datatype Result = Result(u: Vec, norm2: real, outer: nat, inner: nat)

  function NewtonLoop(c: Setup, u0: Vec, tol: real, maxIters: nat, k: nat): (r: Result)
    requires k <= maxIters
    decreases maxIters - k
  {
    if Krylov.Exceeds(Norm2At(c, u0, k), tol) && k < maxIters then NewtonLoop(c, u0, tol, maxIters, k + 1)
    else Result(PointAt(c, u0, k).u, Norm2At(c, u0, k), k, PointAt(c, u0, k).inner)
  }

  lemma NewtonCases(c: Setup, u0: Vec, tol: real, maxIters: nat, k: nat)
    requires k <= maxIters
    ensures PointAt(c, u0, 0) == Point(u0, Zeros(c.hp.NumDofs()), 0)
    ensures PointAt(c, u0, k + 1) == Next(c, PointAt(c, u0, k))
    ensures Krylov.Exceeds(Norm2At(c, u0, k), tol) && k < maxIters ==>
              NewtonLoop(c, u0, tol, maxIters, k) == NewtonLoop(c, u0, tol, maxIters, k + 1)
    ensures !(Krylov.Exceeds(Norm2At(c, u0, k), tol) && k < maxIters) ==>
              NewtonLoop(c, u0, tol, maxIters, k)
              == Result(PointAt(c, u0, k).u, Norm2At(c, u0, k), k, PointAt(c, u0, k).inner)
  {
    hide Krylov.Exceeds, Norm2At, Next;
  }

  lemma Norm2Is(c: Setup, u0: Vec, k: nat)
    ensures Norm2At(c, u0, k) == Dot(Heat.Rhs(c.hp, PointAt(c, u0, k).u), Heat.Rhs(c.hp, PointAt(c, u0, k).u))
  {}

  lemma NextIs(c: Setup, pt: Point)
    ensures var o := LinearSolve(c, pt.u, pt.delta);
            Next(c, pt) == Point(Newton.Subtracted(pt.u, o.sol), o.sol, pt.inner + o.iters)
  {}

  function NormsFrom(c: Setup, u0: Vec): nat -> real {
    (k: nat) => Norm2At(c, u0, k)
  }

  lemma {:induction false} NewtonStopsAt(c: Setup, u0: Vec, tol: real, maxIters: nat, k: nat)
    requires k <= maxIters
    ensures var r := NewtonLoop(c, u0, tol, maxIters, k);
            && Krylov.StopsAt(NormsFrom(c, u0), tol, k, maxIters, r.outer)
            && r == Result(PointAt(c, u0, r.outer).u, Norm2At(c, u0, r.outer), r.outer, PointAt(c, u0, r.outer).inner)
    decreases maxIters - k
  {
    hide Krylov.Exceeds, Norm2At, NewtonLoop, PointAt;
    NewtonCases(c, u0, tol, maxIters, k);
    if Krylov.Exceeds(Norm2At(c, u0, k), tol) && k < maxIters {
      NewtonStopsAt(c, u0, tol, maxIters, k + 1);
    }
  }

  /** The inner iterations of the first k linear solves. */
  function InnerSum(c: Setup, u0: Vec, k: nat): nat {
    if k == 0 then 0
    else InnerSum(c, u0, k - 1) + LinearSolve(c, PointAt(c, u0, k - 1).u, PointAt(c, u0, k - 1).delta).iters
  }

  lemma {:induction false} InnerIs(c: Setup, u0: Vec, k: nat)
    ensures PointAt(c, u0, k).inner == InnerSum(c, u0, k)
  {
    hide LinearSolve, Newton.Subtracted;
    if k > 0 {
      InnerIs(c, u0, k - 1);
    }
  }

  /**
   * What a solve returns: the solution and the norm of the first Newton state whose residual norm does not exceed the
   * tolerance, or of the last allowed one, and the sum of the iterations of all linear solves up to it. With a
   * negative tolerance it is the last allowed one.
   */
  lemma NewtonExactly(c: Setup, u0: Vec, tol: real, maxIters: nat, r: Result)
    ensures r == NewtonLoop(c, u0, tol, maxIters, 0)
       <==> Krylov.StopsAt(NormsFrom(c, u0), tol, 0, maxIters, r.outer)
              && r == Result(PointAt(c, u0, r.outer).u, Norm2At(c, u0, r.outer), r.outer, InnerSum(c, u0, r.outer))
    ensures tol < 0.0 ==> NewtonLoop(c, u0, tol, maxIters, 0).outer == maxIters
  {
    hide *;
    var l := NewtonLoop(c, u0, tol, maxIters, 0);
    NewtonStopsAt(c, u0, tol, maxIters, 0);
    InnerIs(c, u0, r.outer);
    InnerIs(c, u0, l.outer);
    Krylov.StopsOnce(NormsFrom(c, u0), tol, 0, maxIters, l.outer, l.outer);
    if Krylov.StopsAt(NormsFrom(c, u0), tol, 0, maxIters, r.outer) {
      Krylov.StopsOnce(NormsFrom(c, u0), tol, 0, maxIters, r.outer, l.outer);
    }
  }

  // ------------------------------------------------------------------------
  // Sizes and boundary values.
  // ------------------------------------------------------------------------

  lemma {:induction false} StatesSized(t: Krylov.System, st: Krylov.State, k: nat)
    ensures |Resubmitted(t, st, k).sol| == |st.sol|
  {
    hide Krylov.NextRes, Krylov.StepSize, Krylov.System.M, Dot;
    if k > 0 {
      StatesSized(t, st, k - 1);
    }
  }

  lemma {:induction false} LoopSized(s: Krylov.System, x0: Vec, tol: real, maxIters: nat)
    ensures |Krylov.Loop(s, x0, tol, maxIters, 0).sol| == |x0|
  {
    hide *;
    var o := Krylov.Loop(s, x0, tol, maxIters, 0);
    Krylov.LoopOutcome(s, x0, tol, maxIters, 0);
    ResubmittedNth(s, x0, o.iters);
    StatesSized(s, Krylov.Start(s, x0), o.iters);
    StartSol(s, x0);
  }

  /** What the step holds after a linear solve: an iterate of one of the solvers, or still the last step. */
  lemma SolveCases(c: Setup, u: Vec, d0: Vec)
    ensures var s, t := Newton.LinearSystem(c.hp, u, c.prec), Newton.LinearSystem(c.hp, u, c.built);
            var o := LinearSolve(c, u, d0);
            && (!c.useGraph ==>
                  o == Krylov.Loop(s, d0, c.tol, c.maxIters, 0) && o.sol == Krylov.Nth(s, d0, o.iters).sol)
            && (c.useGraph && !c.attached ==> o.sol == d0)
            && (c.useGraph && c.attached ==> o == GraphOutcome(s, t, d0, c.tol, c.maxIters))
            && (c.useGraph && c.attached ==>
                  o.sol == Resubmitted(t, Krylov.Start(s, d0), o.iters).sol)
  {
    hide Krylov.Loop, Krylov.Norm2, Krylov.Beneath, Krylov.Nth, Krylov.Start, ResubmitLoop, Newton.LinearSystem,
         Resubmitted;
    var s, t := Newton.LinearSystem(c.hp, u, c.prec), Newton.LinearSystem(c.hp, u, c.built);
    Krylov.LoopOutcome(s, d0, c.tol, c.maxIters, 0);
    OutcomeCases(s, t, d0, c.tol, c.maxIters);
    LoopSol(t, Krylov.Start(s, d0), c.tol, c.maxIters, 1);
    ResubmitCases(t, Krylov.Start(s, d0), c.tol, c.maxIters, 0);
    StartSol(s, d0);
  }

  lemma SolveSized(c: Setup, u: Vec, d0: Vec)
    ensures |LinearSolve(c, u, d0).sol| == |d0|
  {
    hide *;
    var s, t := Newton.LinearSystem(c.hp, u, c.prec), Newton.LinearSystem(c.hp, u, c.built);
    SolveCases(c, u, d0);
    LoopSized(s, d0, c.tol, c.maxIters);
    StatesSized(t, Krylov.Start(s, d0), LinearSolve(c, u, d0).iters);
    StartSol(s, d0);
  }

  lemma {:induction false} PointSized(c: Setup, u0: Vec, k: nat)
    ensures |PointAt(c, u0, k).u| == |u0| && |PointAt(c, u0, k).delta| == c.hp.NumDofs()
  {
    hide LinearSolve;
    if k > 0 {
      PointSized(c, u0, k - 1);
      SolveSized(c, PointAt(c, u0, k - 1).u, PointAt(c, u0, k - 1).delta);
    }
  }

  lemma GroundedSol(hp: Heat.Params, st: Krylov.State)
    requires Newton.Grounded(st) && Newton.FullSize(hp, st)
    ensures |st.sol| == hp.NumDofs() && At(st.sol, 0) == 0.0
  {}

  lemma SolveGrounded(c: Setup, u: Vec, d0: Vec)
    requires c.hp.numElems >= 1 && |d0| == c.hp.NumDofs() && At(d0, 0) == 0.0
    ensures var o := LinearSolve(c, u, d0); |o.sol| == c.hp.NumDofs() && At(o.sol, 0) == 0.0
  {
    hide *;
    var s, t := Newton.LinearSystem(c.hp, u, c.prec), Newton.LinearSystem(c.hp, u, c.built);
    var n := LinearSolve(c, u, d0).iters;
    SolveCases(c, u, d0);
    Newton.BoundaryNth(c.hp, u, c.prec, d0, n);
    GroundedSol(c.hp, Krylov.Nth(s, d0, n));
    Newton.BoundaryResubmitted(c.hp, u, c.prec, c.built, d0, n);
    GroundedSol(c.hp, Resubmitted(t, Krylov.Start(s, d0), n));
  }

  /** In every Newton state the solution stays one and the step stays zero at the boundary. */
  lemma {:induction false} BoundaryKept(c: Setup, u0: Vec, k: nat)
    requires c.hp.numElems >= 1 && |u0| == c.hp.NumDofs() && u0[0] == 1.0
    ensures var pt := PointAt(c, u0, k);
            && |pt.u| == |pt.delta| == c.hp.NumDofs() && pt.u[0] == 1.0 && pt.delta[0] == 0.0
  {
    hide LinearSolve, Newton.Subtracted;
    if k > 0 {
      BoundaryKept(c, u0, k - 1);
      var pt := PointAt(c, u0, k - 1);
      SolveGrounded(c, pt.u, pt.delta);
      Newton.SubtractedAt(pt.u, LinearSolve(c, pt.u, pt.delta).sol, 0);
    }
  }

  /**
   * Every linear solve starts from the last step. It does no iteration, and takes the same step again, exactly if that
   * step leaves a residual in the new system that is good enough, or if the queue may not iterate.
   */
  lemma WarmStart(c: Setup, pt: Point)
    ensures var r := Newton.LinearSystem(c.hp, pt.u, c.prec).Residual(pt.delta);
            && (Next(c, pt).inner == pt.inner <==>
                  if c.useGraph then Krylov.Beneath(Dot(r, r), c.tol)
                  else !Krylov.Exceeds(Dot(r, r), c.tol) || c.maxIters == 0)
            && (Next(c, pt).inner == pt.inner ==>
                  Next(c, pt) == Point(Newton.Subtracted(pt.u, pt.delta), pt.delta, pt.inner))
  {
    var s := Newton.LinearSystem(c.hp, pt.u, c.prec);
    hide *;
    NextIs(c, pt);
    FirstNorm(s, pt.delta);
    if c.useGraph {
      GraphStart(c, pt.u, pt.delta);
    } else {
      QueueStart(c, pt.u, pt.delta);
    }
  }

  lemma FirstNorm(s: Krylov.System, x0: Vec)
    ensures Krylov.Norm2(s, x0, 0) == Dot(s.Residual(x0), s.Residual(x0))
  {
    hide Dot, Krylov.System.Residual;
  }

  lemma GraphStart(c: Setup, u: Vec, d0: Vec)
    requires c.useGraph
    ensures var o := LinearSolve(c, u, d0);
            if Krylov.Beneath(Krylov.Norm2(Newton.LinearSystem(c.hp, u, c.prec), d0, 0), c.tol)
            then o.sol == d0 && o.iters == 0 else o.iters >= 1
  {
    hide Krylov.Beneath, Krylov.Norm2, GraphOutcome, ResubmitLoop, Newton.LinearSystem;
    var s, t := Newton.LinearSystem(c.hp, u, c.prec), Newton.LinearSystem(c.hp, u, c.built);
    OutcomeCases(s, t, d0, c.tol, c.maxIters);
    ResubmitCount(t, Krylov.Start(s, d0), c.tol, c.maxIters, 1);
  }

  lemma QueueStart(c: Setup, u: Vec, d0: Vec)
    requires !c.useGraph
    ensures var o := LinearSolve(c, u, d0);
            if Krylov.Exceeds(Krylov.Norm2(Newton.LinearSystem(c.hp, u, c.prec), d0, 0), c.tol) && c.maxIters > 0
            then o.iters >= 1 else o.sol == d0 && o.iters == 0
  {
    hide Krylov.Exceeds, Krylov.Norm2, Krylov.Loop, Krylov.Nth, Newton.LinearSystem;
    var s := Newton.LinearSystem(c.hp, u, c.prec);
    StartSol(s, d0);
    Krylov.LoopCases(s, d0, c.tol, c.maxIters, 0);
    if c.maxIters > 0 {
      Krylov.LoopStopsAt(s, d0, c.tol, c.maxIters, 1);
    }
  }

  // ------------------------------------------------------------------------
  // A graph that updates the step of an earlier solve.
  // ------------------------------------------------------------------------

  function Times(k: nat, each: nat): (r: nat) {
    k * each
  }

  lemma TimesStep(k: nat, each: nat)
    ensures Times(0, each) == 0 && Times(k + 1, each) == Times(k, each) + each
  {}

  /** The linear solver runs, but its solution goes elsewhere: every state is the initial one. */
  lemma {:induction false} DetachedPoint(c: Setup, u0: Vec, k: nat)
    requires c.useGraph && !c.attached && |u0| == c.hp.NumDofs()
    ensures PointAt(c, u0, k)
         == Point(u0, Zeros(c.hp.NumDofs()), Times(k, LinearSolve(c, u0, Zeros(c.hp.NumDofs())).iters))
  {
    hide LinearSolve, Newton.Subtracted, Times;
    TimesStep(if k > 0 then k - 1 else 0, LinearSolve(c, u0, Zeros(c.hp.NumDofs())).iters);
    if k > 0 {
      DetachedPoint(c, u0, k - 1);
      SolveCases(c, u0, Zeros(c.hp.NumDofs()));
      NoStep(u0, c.hp.NumDofs());
    }
  }

  lemma NoStep(u: Vec, n: nat)
    requires |u| == n
    ensures Newton.Subtracted(u, Zeros(n)) == u
  {
    forall i | 0 <= i < n ensures Newton.Subtracted(u, Zeros(n))[i] == u[i] {
      Newton.SubtractedAt(u, Zeros(n), i);
    }
  }

  lemma {:induction false} DetachedFrom(c: Setup, u0: Vec, tol: real, maxIters: nat, k: nat)
    requires c.useGraph && !c.attached && |u0| == c.hp.NumDofs() && k <= maxIters
    requires Krylov.Exceeds(Norm2At(c, u0, 0), tol)
    ensures NewtonLoop(c, u0, tol, maxIters, k)
         == Result(u0, Norm2At(c, u0, 0), maxIters, Times(maxIters, LinearSolve(c, u0, Zeros(c.hp.NumDofs())).iters))
    decreases maxIters - k
  {
    hide LinearSolve, NewtonLoop, PointAt, Times, Krylov.Exceeds;
    DetachedPoint(c, u0, 0);
    DetachedPoint(c, u0, k);
    NewtonCases(c, u0, tol, maxIters, k);
    if k < maxIters {
      DetachedFrom(c, u0, tol, maxIters, k + 1);
    }
  }

  /** So the solve returns its guess, and unless that is good enough it takes all the iterations it may. */
  lemma DetachedLoop(c: Setup, u0: Vec, tol: real, maxIters: nat)
    requires c.useGraph && !c.attached && |u0| == c.hp.NumDofs()
    ensures var norm2, each := Norm2At(c, u0, 0), LinearSolve(c, u0, Zeros(c.hp.NumDofs())).iters;
            NewtonLoop(c, u0, tol, maxIters, 0)
            == if Krylov.Exceeds(norm2, tol) then Result(u0, norm2, maxIters, Times(maxIters, each))
               else Result(u0, norm2, 0, 0)
  {
    hide LinearSolve, NewtonLoop, PointAt, Times, Krylov.Exceeds, Norm2At;
    NewtonCases(c, u0, tol, maxIters, 0);
    if Krylov.Exceeds(Norm2At(c, u0, 0), tol) {
      DetachedFrom(c, u0, tol, maxIters, 0);
    }
  }

  // ------------------------------------------------------------------------
  // A step with an exact linear solve.
  // ------------------------------------------------------------------------

  /** A tolerance, enough iterations to meet it, and for the graph solver the right graph and work to do. */
  ghost predicate Tight(c: Setup, u: Vec, d0: Vec) {
    && c.tol >= 0.0 && c.maxIters >= c.hp.NumDofs() && |d0| == c.hp.NumDofs()
    && (c.useGraph ==>
          && c.attached && StaleSweeps.Effective(c.built) == StaleSweeps.Effective(c.prec)
          && (c.tol > 0.0 || !IsZero(Newton.LinearSystem(c.hp, u, c.prec).Residual(d0))))
  }

  /** The same without tolerance. */
  ghost predicate Exact(c: Setup, u: Vec, d0: Vec) {
    c.tol == 0.0 && Tight(c, u, d0)
  }

  lemma TightParts(c: Setup, u: Vec, d0: Vec)
    requires Tight(c, u, d0)
    ensures c.tol >= 0.0 && c.maxIters >= c.hp.NumDofs() && |d0| == c.hp.NumDofs()
    ensures c.useGraph ==>
              && c.attached && StaleSweeps.Effective(c.built) == StaleSweeps.Effective(c.prec)
              && (c.tol > 0.0 || !IsZero(Newton.LinearSystem(c.hp, u, c.prec).Residual(d0)))
    ensures StaleSweeps.Effective(c.built) == StaleSweeps.Effective(c.prec) ==>
              Resubmission.SameSystem(Newton.LinearSystem(c.hp, u, c.prec), Newton.LinearSystem(c.hp, u, c.built))
  {
    hide StaleSweeps.Effective;
  }

  /** The outcome of a linear solve is the exact residual of some iteration, and meets the tolerance. */
  lemma OutcomeWithin(s: Krylov.System, d0: Vec, tol: real, o: Krylov.Outcome)
    requires s.Sound() && |d0| == s.N() && tol >= 0.0 && !Krylov.Exceeds(o.norm2, tol)
    requires o.sol == Krylov.Nth(s, d0, o.iters).sol && o.norm2 == Krylov.Norm2(s, d0, o.iters)
    ensures var r := s.Residual(o.sol); Dot(r, r) == o.norm2 <= Mul(tol, tol)
  {
    hide Krylov.Nth, MatVec, Krylov.System.Sound, DotTo, Axpby;
    Krylov.SoundSize(s);
    Krylov.ResidualExact(s, d0, o.iters);
  }

  /** Wherever the linear system is sound, the step of either solver leaves a true residual within the tolerance. */
  lemma SolveWithin(c: Setup, u: Vec, d0: Vec)
    requires c.hp.numElems >= 1 && Newton.LinearSystem(c.hp, u, c.prec).Sound() && Tight(c, u, d0)
    ensures var o := LinearSolve(c, u, d0);
            var r := Newton.LinearSystem(c.hp, u, c.prec).Residual(o.sol);
            Dot(r, r) == o.norm2 <= Mul(c.tol, c.tol)
  {
    var s, t := Newton.LinearSystem(c.hp, u, c.prec), Newton.LinearSystem(c.hp, u, c.built);
    SystemSize(c.hp, u, c.prec);
    hide *;
    TightParts(c, u, d0);
    SolveCases(c, u, d0);
    if c.useGraph {
      StaleSweeps.SameSweeps(s, t, d0, c.tol, c.maxIters);
      GraphConverges(s, d0, c.tol, c.maxIters);
    } else {
      Krylov.Converges(s, d0, c.tol, c.maxIters);
      Krylov.LoopOutcome(s, d0, c.tol, c.maxIters, 0);
    }
    OutcomeWithin(s, d0, c.tol, LinearSolve(c, u, d0));
  }

  lemma SystemSize(hp: Heat.Params, u: Vec, prec: Krylov.Prec)
    requires hp.numElems >= 1
    ensures var s := Newton.LinearSystem(hp, u, prec); |s.rhs| == s.N() == hp.NumDofs()
  {
    hide HeatPattern, Heat.Values, Heat.Rhs;
    PatternWellFormed(hp);
  }

  /**
   * Wherever the linear system is sound, either solver without tolerance solves the linear system of a Newton
   * iteration, with any preconditioner.
   */
  lemma SolveExactly(c: Setup, u: Vec, d0: Vec)
    requires c.hp.numElems >= 1 && Newton.LinearSystem(c.hp, u, c.prec).Sound() && Exact(c, u, d0)
    ensures MatVec(HeatPattern(c.hp), Heat.Values(c.hp, u), LinearSolve(c, u, d0).sol) == Heat.Rhs(c.hp, u)
  {
    var s := Newton.LinearSystem(c.hp, u, c.prec);
    SystemSize(c.hp, u, c.prec);
    hide LinearSolve, HeatPattern, Heat.Values, Heat.Rhs, MatVec, Krylov.System.Sound, Tight, Dot, Axpby;
    SolveWithin(c, u, d0);
    MulUnits(0.0);
    DotSelf(s.Residual(LinearSolve(c, u, d0).sol));
    Krylov.ZeroResidual(s, LinearSolve(c, u, d0).sol);
  }

  /**
   * Then the residual of the next Newton state is exactly the quadratic remainder of the step, so that no
   * entry exceeds h k times the squared largest entry of the step.
   */
  lemma QuadraticStep(c: Setup, pt: Point, m: real, i: nat)
    requires c.hp.numElems >= 1 && c.hp.length >= 0.0 && |pt.u| == c.hp.NumDofs() && i <= c.hp.numElems
    requires Newton.LinearSystem(c.hp, pt.u, c.prec).Sound() && Exact(c, pt.u, pt.delta)
    requires forall j | 0 <= j < |Next(c, pt).delta| :: -m <= Next(c, pt).delta[j] <= m
    ensures Heat.Rhs(c.hp, Next(c, pt).u) == Newton.Remainder(c.hp, Next(c, pt).delta)
    ensures Newton.Abs(Heat.Rhs(c.hp, Next(c, pt).u)[i]) <= Mul(Mul(c.hp.H(), Newton.Abs(c.hp.k)), Mul(m, m))
  {
    hide Mul, LinearSolve, HeatPattern, Heat.Values, Heat.Rhs, MatVec, Newton.Remainder, Heat.Params.H,
         Newton.Subtracted, Next, Krylov.System.Sound, Tight;
    SolveExactly(c, pt.u, pt.delta);
    TightParts(c, pt.u, pt.delta);
    SolveSized(c, pt.u, pt.delta);
    NextIs(c, pt);
    Newton.ExactStep(c.hp, pt.u, Next(c, pt).delta);
    Newton.ExactStepBound(c.hp, pt.u, Next(c, pt).delta, m, i);
  }

  /**
   * With a tolerance, the residual of the next Newton state differs from the quadratic remainder of the step by
   * exactly the residual of the linear solve, whose norm is at most the tolerance.
   */
  lemma InexactStep(c: Setup, pt: Point)
    requires c.hp.numElems >= 1 && |pt.u| == c.hp.NumDofs() && At(pt.delta, 0) == 0.0
    requires Newton.LinearSystem(c.hp, pt.u, c.prec).Sound() && Tight(c, pt.u, pt.delta)
    ensures var d := Next(c, pt).delta;
            var e := Newton.Subtracted(Heat.Rhs(c.hp, Next(c, pt).u), Newton.Remainder(c.hp, d));
            && e == Newton.LinearSystem(c.hp, pt.u, c.prec).Residual(d)
            && Dot(e, e) == LinearSolve(c, pt.u, pt.delta).norm2 <= Mul(c.tol, c.tol)
  {
    hide *;
    TightParts(c, pt.u, pt.delta);
    SolveWithin(c, pt.u, pt.delta);
    SolveGrounded(c, pt.u, pt.delta);
    NextIs(c, pt);
    Newton.StepResidual(c.hp, pt.u, Next(c, pt).delta, c.prec);
  }

  /**
   * The step of an iteration with work to do is the one of an attached solver if and only if the solver is
   * attached.
   */
  lemma RightStep(c: Setup, u: Vec, d0: Vec)
    requires c.hp.numElems >= 1 && c.useGraph && |d0| == c.hp.NumDofs()
    requires Newton.LinearSystem(c.hp, u, c.prec).Sound()
    requires var s := Newton.LinearSystem(c.hp, u, c.prec);
             !Krylov.Beneath(Krylov.Norm2(s, d0, 0), c.tol) && !IsZero(s.Residual(d0))
    ensures LinearSolve(c, u, d0).sol == LinearSolve(c.(attached := true), u, d0).sol <==> c.attached
  {
    var s, t := Newton.LinearSystem(c.hp, u, c.prec), Newton.LinearSystem(c.hp, u, c.built);
    hide GraphOutcome, HeatPattern, Heat.Values, Heat.Rhs, MatVec, Krylov.System.Sound, Krylov.Norm2,
         Krylov.Beneath, Passed, Krylov.System.Residual, Spd;
    PatternWellFormed(c.hp);
    Newton.LinearSystemSound(c.hp, u, c.prec);
    Newton.LinearSystemSound(c.hp, u, c.built);
    RightView(s, t, d0, c.tol, c.maxIters, c.attached);
    RightView(s, t, d0, c.tol, c.maxIters, true);
  }
}
