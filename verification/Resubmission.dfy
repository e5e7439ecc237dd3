/** The loop of a resubmitted graph: when it does what the queue does, and what survives when its graph is stale. */
module Resubmission {
  import opened Vectors
  import opened Csr
  import opened Krylov

  /** The state after k submissions of a graph built for t. */
  function Resubmitted(t: System, st: State, k: nat): State {
    if k == 0 then st else Advance(t, Resubmitted(t, st, k - 1))
  }

  /** The loop of submissions, with k of them done. */
  function ResubmitLoop(t: System, st: State, tol: real, maxIters: nat, k: nat): (o: Outcome)
    decreases maxIters - k
  {
    var now := Resubmitted(t, st, k);
    if Exceeds(Dot(now.res, now.res), tol) && k < maxIters then ResubmitLoop(t, st, tol, maxIters, k + 1)
    else Outcome(now.sol, Dot(now.res, now.res), k)
  }

  /**
   * A solve of s from the initial guess x0 with a graph built for t. The solution that the graph updates
   * started at y0, which is x0 if the graph was built for the view that holds the guess. The first
   * submission is unconditional.
   */
  function GraphRun(s: System, t: System, x0: Vec, y0: Vec, tol: real, maxIters: nat): (o: Outcome) {
    if Beneath(Norm2(s, x0, 0), tol) then Outcome(y0, Norm2(s, x0, 0), 0)
    else ResubmitLoop(t, Start(s, x0).(sol := y0), tol, maxIters, 1)
  }

  /** The outcome when the graph updates the view of the guess. */
  function GraphOutcome(s: System, t: System, x0: Vec, tol: real, maxIters: nat): (o: Outcome) {
    GraphRun(s, t, x0, x0, tol, maxIters)
  }

  lemma ResubmitCases(t: System, st: State, tol: real, maxIters: nat, k: nat)
    ensures Resubmitted(t, st, 0) == st && Resubmitted(t, st, k + 1) == Advance(t, Resubmitted(t, st, k))
    ensures var now := Resubmitted(t, st, k);
            && (Exceeds(Dot(now.res, now.res), tol) && k < maxIters ==>
                  ResubmitLoop(t, st, tol, maxIters, k) == ResubmitLoop(t, st, tol, maxIters, k + 1))
            && (!(Exceeds(Dot(now.res, now.res), tol) && k < maxIters) ==>
                  ResubmitLoop(t, st, tol, maxIters, k) == Outcome(now.sol, Dot(now.res, now.res), k))
  {
    hide Dot, Exceeds, Advance;
  }

  lemma StartSol(s: System, x0: Vec)
    ensures Start(s, x0).sol == x0 && Start(s, x0).(sol := x0) == Start(s, x0) && Nth(s, x0, 0) == Start(s, x0)
  {
    hide Dot;
  }

  lemma OutcomeCases(s: System, t: System, x0: Vec, tol: real, maxIters: nat)
    ensures GraphOutcome(s, t, x0, tol, maxIters)
         == if Beneath(Norm2(s, x0, 0), tol) then Outcome(x0, Norm2(s, x0, 0), 0)
            else ResubmitLoop(t, Start(s, x0), tol, maxIters, 1)
  {
    hide Norm2, Beneath, ResubmitLoop, Start;
    StartSol(s, x0);
  }

  // ------------------------------------------------------------------------
  // The graph solver and the queue solver.
  // ------------------------------------------------------------------------

  lemma {:induction false} ResubmittedNth(s: System, x0: Vec, k: nat)
    ensures Resubmitted(s, Start(s, x0), k) == Nth(s, x0, k)
  {
    hide Start, Advance;
    if k > 0 {
      ResubmittedNth(s, x0, k - 1);
    }
  }

  lemma {:induction false} ResubmitLoopMatches(s: System, x0: Vec, tol: real, maxIters: nat, k: nat)
    requires k <= maxIters
    ensures ResubmitLoop(s, Start(s, x0), tol, maxIters, k) == Loop(s, x0, tol, maxIters, k)
    decreases maxIters - k
  {
    hide Dot, Nth, Resubmitted, Exceeds, ResubmitLoop, Loop;
    ResubmittedNth(s, x0, k);
    LoopCases(s, x0, tol, maxIters, k);
    ResubmitCases(s, Start(s, x0), tol, maxIters, k);
    if k < maxIters {
      ResubmitLoopMatches(s, x0, tol, maxIters, k + 1);
    }
  }

  lemma {:induction false} ResubmitCount(t: System, st: State, tol: real, maxIters: nat, k: nat)
    ensures ResubmitLoop(t, st, tol, maxIters, k).iters >= k
    decreases maxIters - k
  {
    hide *;
    ResubmitCases(t, st, tol, maxIters, k);
    if k < maxIters {
      ResubmitCount(t, st, tol, maxIters, k + 1);
    }
  }

  function NormsOf(t: System, st: State): nat -> real {
    (k: nat) => Dot(Resubmitted(t, st, k).res, Resubmitted(t, st, k).res)
  }

  lemma {:induction false} SubmissionsStopAt(t: System, st: State, tol: real, maxIters: nat, k: nat)
    ensures var o := ResubmitLoop(t, st, tol, maxIters, k);
            && StopsAt(NormsOf(t, st), tol, k, maxIters, o.iters)
            && o == Outcome(Resubmitted(t, st, o.iters).sol, NormsOf(t, st)(o.iters), o.iters)
    decreases maxIters - k
  {
    hide Dot, Exceeds, ResubmitLoop, Resubmitted;
    ResubmitCases(t, st, tol, maxIters, k);
    if Exceeds(Dot(Resubmitted(t, st, k).res, Resubmitted(t, st, k).res), tol) && k < maxIters {
      SubmissionsStopAt(t, st, tol, maxIters, k + 1);
    }
  }

  /**
   * What the graph solver returns with work to do: the solution and the norm of the first submission whose norm does
   * not exceed the tolerance, or of the last allowed one, but at least one. With a negative tolerance it is the last
   * allowed one.
   */
  lemma SubmissionsExactly(s: System, t: System, x0: Vec, tol: real, maxIters: nat, o: Outcome)
    requires !Beneath(Norm2(s, x0, 0), tol)
    ensures o == GraphOutcome(s, t, x0, tol, maxIters)
       <==> StopsAt(NormsOf(t, Start(s, x0)), tol, 1, maxIters, o.iters)
              && o == Outcome(Resubmitted(t, Start(s, x0), o.iters).sol, NormsOf(t, Start(s, x0))(o.iters), o.iters)
    ensures tol < 0.0 ==> GraphOutcome(s, t, x0, tol, maxIters).iters == if maxIters >= 1 then maxIters else 1
  {
    hide *;
    var g := GraphOutcome(s, t, x0, tol, maxIters);
    OutcomeCases(s, t, x0, tol, maxIters);
    SubmissionsStopAt(t, Start(s, x0), tol, maxIters, 1);
    StopsOnce(NormsOf(t, Start(s, x0)), tol, 1, maxIters, g.iters, g.iters);
    if StopsAt(NormsOf(t, Start(s, x0)), tol, 1, maxIters, o.iters) {
      StopsOnce(NormsOf(t, Start(s, x0)), tol, 1, maxIters, o.iters, g.iters);
    }
  }

  /**
   * The graph solver and the queue solver return the same solution, norm and count exactly when the
   * initial norm is below the tolerance, or is above it and at least one iteration is allowed.
   */
  lemma GraphMatchesQueue(s: System, x0: Vec, tol: real, maxIters: nat)
    ensures GraphOutcome(s, s, x0, tol, maxIters) == Loop(s, x0, tol, maxIters, 0)
       <==> Beneath(Norm2(s, x0, 0), tol) || (Exceeds(Norm2(s, x0, 0), tol) && maxIters >= 1)
  {
    var norm2 := Norm2(s, x0, 0);
    assert Beneath(norm2, tol) ==> !Exceeds(norm2, tol);
    StartSol(s, x0);
    hide Dot, Nth, Exceeds, Beneath, Norm2, GraphOutcome, ResubmitLoop, Loop, Start;
    OutcomeCases(s, s, x0, tol, maxIters);
    LoopCases(s, x0, tol, maxIters, 0);
    if maxIters >= 1 {
      ResubmitLoopMatches(s, x0, tol, maxIters, 1);
    }
    ResubmitCount(s, Start(s, x0), tol, maxIters, 1);
  }

  /** With work to do, or a tolerance, the graph solver meets the tolerance after at most n iterations as well. */
  lemma GraphConverges(s: System, x0: Vec, tol: real, maxIters: nat)
    requires s.Sound() && |x0| == s.N() && tol >= 0.0 && maxIters >= s.N()
    requires tol > 0.0 || !IsZero(s.Residual(x0))
    ensures var o := GraphOutcome(s, s, x0, tol, maxIters);
            && !Exceeds(o.norm2, tol) && o.iters <= s.N()
            && o.sol == Nth(s, x0, o.iters).sol && o.norm2 == Norm2(s, x0, o.iters)
  {
    var last := Termination(s, x0);
    hide *;
    OutcomeCases(s, s, x0, tol, maxIters);
    StartSol(s, x0);
    ResidualParts(s, x0);
    BeneathCases(Norm2(s, x0, 0), tol);
    if !Beneath(Norm2(s, x0, 0), tol) {
      ZeroNorm(s, x0, last, tol);
      ResubmitLoopMatches(s, x0, tol, maxIters, 1);
      LoopStops(s, x0, tol, maxIters, 1, last);
      LoopOutcome(s, x0, tol, maxIters, 1);
    }
  }

  lemma BeneathCases(norm2: real, tol: real)
    ensures Beneath(norm2, tol) ==> !Exceeds(norm2, tol)
    ensures tol > 0.0 && norm2 == 0.0 ==> Beneath(norm2, tol)
  {
    MulSign(tol, tol);
  }

  lemma ResidualParts(s: System, x0: Vec)
    ensures ResAt(s, x0, 0) == s.Residual(x0) && (IsZero(s.Residual(x0)) ==> Norm2(s, x0, 0) == 0.0)
  {
    hide System.Residual, System.M, DotTo;
    DotSelf(s.Residual(x0));
  }

  lemma ZeroNorm(s: System, x0: Vec, k: nat, tol: real)
    requires IsZero(ResAt(s, x0, k)) && tol >= 0.0
    ensures !Exceeds(Norm2(s, x0, k), tol)
  {
    hide Nth, Dot, Mul;
    DotSelf(ResAt(s, x0, k));
    MulSign(tol, tol);
  }

  /** The equation x = 1, without preconditioner. */
  function OneByOne(): System {
    System(Pattern([0, 1], [0]), [1.0], [1.0], Identity)
  }

  lemma OneByOneProduct(x: Vec)
    requires |x| == 1
    ensures OneByOne().p.WellFormed() && Symmetric(OneByOne().p, OneByOne().vals)
    ensures OneByOne().A(x) == x
  {
    hide Mul;
    MulUnits(x[0]);
    var p, vals := OneByOne().p, OneByOne().vals;
    assert SlotSum(p, vals, 0, 0, x) == 0.0;
    assert SlotSum(p, vals, 0, 1, x) == Mul(1.0, x[0]);
    assert OneByOne().A(x)[0] == x[0];
  }

  lemma OneByOneSound()
    ensures OneByOne().Sound()
  {
    hide Mul, DotTo, MatVec;
    forall x: Vec | |x| == 1 && !IsZero(x) ensures Dot(x, OneByOne().A(x)) > 0.0 {
      OneByOneProduct(x);
      DotSelf(x);
    }
    OneByOneProduct([0.0]);
    SoundSystem(OneByOne());
  }

  lemma OneByOneNorm()
    ensures Norm2(OneByOne(), [0.0], 0) == 1.0
  {
    hide Mul, MatVec;
    OneByOneProduct([0.0]);
    MulUnits(-1.0);
    MulUnits(1.0);
    assert OneByOne().Residual([0.0]) == [1.0];
    assert DotTo([1.0], [1.0], 0) == 0.0;
    assert At([1.0], 0) == 1.0;
  }

  /** A residual norm equal to the tolerance: the queue returns at once, the graph iterates once more. */
  lemma GraphDiffersFromQueue()
    ensures OneByOne().Sound()
    ensures GraphOutcome(OneByOne(), OneByOne(), [0.0], 1.0, 5) != Loop(OneByOne(), [0.0], 1.0, 5, 0)
  {
    hide *;
    OneByOneSound();
    OneByOneNorm();
    AtTolerance();
    GraphMatchesQueue(OneByOne(), [0.0], 1.0, 5);
  }

  lemma AtTolerance()
    ensures !Beneath(1.0, 1.0) && !Exceeds(1.0, 1.0)
  {}

  // ------------------------------------------------------------------------
  // A graph built for another view of the solution.
  // ------------------------------------------------------------------------

  lemma AdvanceApart(t: System, st: State, y: Vec)
    ensures Advance(t, st.(sol := y)) == Advance(t, st).(sol := Axpby(StepSize(t, st), st.dir, 1.0, y))
  {
    hide Mul, Div, Dot, Axpby, MatVec, System.M;
  }

  /** The solution does not influence residual, direction and rho. */
  lemma {:induction false} ResubmittedApart(t: System, st: State, y: Vec, k: nat)
    ensures var a, b := Resubmitted(t, st.(sol := y), k), Resubmitted(t, st, k); a == b.(sol := a.sol)
  {
    hide Advance;
    if k > 0 {
      ResubmittedApart(t, st, y, k - 1);
      var a, b := Resubmitted(t, st.(sol := y), k - 1), Resubmitted(t, st, k - 1);
      AdvanceApart(t, b, a.sol);
    }
  }

  /** Norm and count do not depend on the view that the graph updates. */
  lemma {:induction false} LoopApart(t: System, st: State, y: Vec, tol: real, maxIters: nat, k: nat)
    ensures var a, b := ResubmitLoop(t, st.(sol := y), tol, maxIters, k), ResubmitLoop(t, st, tol, maxIters, k);
            a.norm2 == b.norm2 && a.iters == b.iters
    decreases maxIters - k
  {
    hide *;
    ResubmitCases(t, st, tol, maxIters, k);
    ResubmitCases(t, st.(sol := y), tol, maxIters, k);
    ResubmittedApart(t, st, y, k);
    if k < maxIters {
      LoopApart(t, st, y, tol, maxIters, k + 1);
    }
  }

  lemma RunApart(s: System, t: System, x0: Vec, y0: Vec, tol: real, maxIters: nat)
    ensures var a, b := GraphRun(s, t, x0, y0, tol, maxIters), GraphOutcome(s, t, x0, tol, maxIters);
            a.norm2 == b.norm2 && a.iters == b.iters
  {
    hide Norm2, Beneath, ResubmitLoop, Start;
    StartSol(s, x0);
    LoopApart(t, Start(s, x0), y0, tol, maxIters, 1);
  }

  // ------------------------------------------------------------------------
  // What survives when the graph was built with another preconditioner.
  // ------------------------------------------------------------------------

  /** The same system with a possibly different preconditioner. */
  ghost predicate SameSystem(s: System, t: System) {
    t == s.(prec := t.prec)
  }

  /** The residual is the true one, and the direction meets it in rho, which is positive unless the residual is zero. */
  ghost predicate Consistent(t: System, st: State) {
    && |st.sol| == |st.res| == |st.dir| == |t.rhs| == t.N()
    && st.res == t.Residual(st.sol) && Dot(st.dir, st.res) == st.rho && (!IsZero(st.res) ==> st.rho > 0.0)
  }

  lemma ConsistentParts(t: System, st: State)
    requires Consistent(t, st)
    ensures |st.sol| == |st.res| == |st.dir| == |t.rhs| == t.N()
    ensures st.res == t.Residual(st.sol) && Dot(st.dir, st.res) == st.rho && (!IsZero(st.res) ==> st.rho > 0.0)
  {}

  lemma AdvanceParts(t: System, st: State)
    ensures var e, a := Advance(t, st), StepSize(t, st);
            && e.sol == Axpby(a, st.dir, 1.0, st.sol) && e.res == Axpby(-a, t.A(st.dir), 1.0, st.res)
            && e.dir == Axpby(1.0, t.M(e.res), Div(e.rho, st.rho), st.dir) && e.rho == Dot(t.M(e.res), e.res)
            && a == Div(st.rho, Dot(st.dir, t.A(st.dir)))
  {
    hide Mul, Div, Dot, Axpby, MatVec, System.M;
  }

  lemma PrecSize(t: System, r: Vec)
    requires |r| == t.N()
    ensures |t.M(r)| == |t.A(r)| == t.N()
  {}

  /** The step length is the minimising one, and it is zero only at a zero residual. */
  lemma StepMeets(t: System, st: State)
    requires t.Sound() && Consistent(t, st)
    ensures Mul(StepSize(t, st), Dot(st.dir, t.A(st.dir))) == st.rho
    ensures !IsZero(st.res) ==> StepSize(t, st) > 0.0
    ensures IsZero(st.res) ==> StepSize(t, st) == 0.0
  {
    hide *;
    ConsistentParts(t, st);
    AdvanceParts(t, st);
    var d, r := st.dir, st.res;
    var curvature := Dot(d, t.A(d));
    if IsZero(r) {
      ZeroDot(d, r);
      ZeroQuotient(curvature);
      MulUnits(curvature);
    } else {
      if IsZero(d) {
        ZeroDot(r, d);
        DotComm(r, d);
      }
      SoundDefinite(t, d);
      StepSign(st.rho, curvature);
    }
  }

  lemma ZeroDot(x: Vec, z: Vec)
    requires IsZero(z) && |x| == |z|
    ensures Dot(x, z) == 0.0
  {
    DotToZero(z, x, |x|);
  }

  lemma ZeroQuotient(c: real)
    ensures Div(0.0, c) == 0.0
  {}

  /** An iteration of any sound system keeps consistency, and lowers the energy by half of step length times rho. */
  lemma AdvanceConsistent(t: System, st: State)
    requires t.Sound() && Consistent(t, st)
    ensures Consistent(t, Advance(t, st))
    ensures Energy(t, Advance(t, st).sol) == Energy(t, st.sol) - Mul(0.5, Mul(StepSize(t, st), st.rho))
    ensures Dot(st.dir, Advance(t, st).res) == 0.0
  {
    hide *;
    ConsistentParts(t, st);
    AdvanceParts(t, st);
    StepMeets(t, st);
    var e, a, d, q := Advance(t, st), StepSize(t, st), st.dir, t.A(st.dir);
    PrecSize(t, d);
    ResidualUpdate(t, st.sol, a, d);
    PrecSize(t, e.res);
    DotAxpbyRight(d, -a, q, 1.0, st.res);
    MulNeg(a, Dot(d, q));
    MulUnits(st.rho);
    DotAxpby(1.0, t.M(e.res), Div(e.rho, st.rho), d, e.res);
    MulUnits(e.rho);
    MulUnits(Div(e.rho, st.rho));
    if !IsZero(e.res) {
      SoundDefinite(t, e.res);
    }
    EnergyAlong(t, st.sol, a, d);
    MulHalf(Mul(a, st.rho));
    ConsistentWhole(t, e);
  }

  lemma ConsistentWhole(t: System, st: State)
    requires |st.sol| == |st.res| == |st.dir| == |t.rhs| == t.N()
    requires st.res == t.Residual(st.sol) && Dot(st.dir, st.res) == st.rho && (!IsZero(st.res) ==> st.rho > 0.0)
    ensures Consistent(t, st)
  {}

  lemma StartParts(s: System, x0: Vec)
    ensures var st := Start(s, x0);
            && st.sol == x0 && st.res == s.Residual(x0) && st.dir == s.M(st.res) && st.rho == Dot(s.M(st.res), st.res)
  {
    hide Dot, System.M, System.Residual;
  }

  lemma SameParts(s: System, t: System, x: Vec)
    requires SameSystem(s, t)
    ensures s.N() == t.N() && s.Residual(x) == t.Residual(x) && |s.rhs| == |t.rhs|
  {}

  /** Whatever the two preconditioners are: the residual stays exact, and the direction keeps meeting it in rho. */
  lemma {:induction false} MixedConsistent(s: System, t: System, x0: Vec, k: nat)
    requires s.Sound() && t.Sound() && SameSystem(s, t) && |x0| == s.N()
    ensures Consistent(t, Resubmitted(t, Start(s, x0), k))
  {
    hide *;
    if k == 0 {
      SoundSize(s);
      SameParts(s, t, x0);
      StartParts(s, x0);
      ResubmitCases(t, Start(s, x0), 0.0, 0, 0);
      PrecSize(s, s.Residual(x0));
      if !IsZero(s.Residual(x0)) {
        SoundDefinite(s, s.Residual(x0));
      }
      ConsistentWhole(t, Start(s, x0));
    } else {
      MixedConsistent(s, t, x0, k - 1);
      ResubmitCases(t, Start(s, x0), 0.0, 0, k - 1);
      AdvanceConsistent(t, Resubmitted(t, Start(s, x0), k - 1));
    }
  }

  /** Every submission lowers the energy, strictly while the residual is nonzero. */
  lemma MixedEnergy(s: System, t: System, x0: Vec, k: nat)
    requires s.Sound() && t.Sound() && SameSystem(s, t) && |x0| == s.N()
    ensures var now, next := Resubmitted(t, Start(s, x0), k), Resubmitted(t, Start(s, x0), k + 1);
            && Energy(t, next.sol) <= Energy(t, now.sol)
            && (!IsZero(now.res) ==> Energy(t, next.sol) < Energy(t, now.sol))
  {
    hide *;
    var now := Resubmitted(t, Start(s, x0), k);
    MixedConsistent(s, t, x0, k);
    ConsistentParts(t, now);
    ResubmitCases(t, Start(s, x0), 0.0, 0, k);
    AdvanceConsistent(t, now);
    StepMeets(t, now);
    MulSign(StepSize(t, now), now.rho);
    MulHalf(Mul(StepSize(t, now), now.rho));
  }

  lemma {:induction false} MixedDescent(s: System, t: System, x0: Vec, k: nat)
    requires s.Sound() && t.Sound() && SameSystem(s, t) && |x0| == s.N() && !IsZero(s.Residual(x0)) && k >= 1
    ensures Energy(t, Resubmitted(t, Start(s, x0), k).sol) < Energy(t, x0)
  {
    hide *;
    StartParts(s, x0);
    ResubmitCases(t, Start(s, x0), 0.0, 0, 0);
    if k > 1 {
      MixedDescent(s, t, x0, k - 1);
    }
    MixedEnergy(s, t, x0, k - 1);
  }

  lemma {:induction false} LoopSol(t: System, st: State, tol: real, maxIters: nat, k: nat)
    ensures var o := ResubmitLoop(t, st, tol, maxIters, k);
            o.iters >= k && o.sol == Resubmitted(t, st, o.iters).sol
    decreases maxIters - k
  {
    hide *;
    ResubmitCases(t, st, tol, maxIters, k);
    if k < maxIters {
      LoopSol(t, st, tol, maxIters, k + 1);
    }
  }

  /**
   * A solve as the caller sees it in the passed view: the outcome if the graph updates that view, else the
   * unchanged guess with the same norm and count.
   */
  function Passed(s: System, t: System, x0: Vec, tol: real, maxIters: nat, same: bool): Outcome {
    var o := GraphOutcome(s, t, x0, tol, maxIters);
    if same then o else Outcome(x0, o.norm2, o.iters)
  }

  /**
   * A solve with work to do leaves the solution in the passed view if and only if its graph was built for
   * that view: the solution always has less energy than the guess.
   */
  lemma RightView(s: System, t: System, x0: Vec, tol: real, maxIters: nat, same: bool)
    requires s.Sound() && t.Sound() && SameSystem(s, t) && |x0| == s.N()
    requires !Beneath(Norm2(s, x0, 0), tol) && !IsZero(s.Residual(x0))
    ensures Passed(s, t, x0, tol, maxIters, same).sol == GraphOutcome(s, t, x0, tol, maxIters).sol <==> same
  {
    hide GraphOutcome, ResubmitLoop, Energy, Start, Norm2, Beneath, System.Residual, System.Sound;
    OutcomeCases(s, t, x0, tol, maxIters);
    LoopSol(t, Start(s, x0), tol, maxIters, 1);
    MixedDescent(s, t, x0, ResubmitLoop(t, Start(s, x0), tol, maxIters, 1).iters);
  }
}
