/** The conjugate gradient solvers on two execution space instances. */
module Queues {
  import opened Vectors
  import opened Wrappers
  import opened Csr
  import opened Tasks
  import opened Schedule
  import opened Krylov
  import opened Kernels
  import Dev = Device
  import Preconditioners
  import Jacobi

  /** The system a solver finds in the views. */
  function SystemIn(m: Memory, p: Pattern, prec: Prec): System {
    System(p, Get(m, MatValues), Get(m, Tasks.Rhs), prec)
  }

  /** Sizes fit, and a Jacobi preconditioner finds one stored diagonal slot in every row. */
  ghost predicate Fits(s: System, x0: Vec) {
    |s.rhs| == |x0| == s.N() && (s.prec.Jacobi? ==> Jacobi.DiagonalStored(s.p))
  }

  /** The kernel that updates the solution, which stays in flight while the residual is updated. */
  function UpdateSol(view: nat, alpha: real): Task {
    Combine(Literal(alpha), Dir, Literal(1.0), Sol(view))
  }

  function UpdateRes(alpha: real): Task {
    Combine(Literal(-alpha), MatDir, Literal(1.0), Res)
  }

  lemma StartFootprints(p: Pattern, view: nat)
    ensures Within(Copy(Res, Rhs)) && Within(Spmv(p, -1.0, Sol(view), 1.0, Res))
    ensures Within(Copy(Dir, ResP)) && Within(Copy(Dir, Res))
    ensures Within(DotOf(Host, Res, Res)) && Within(DotOf(Host, ResP, Res)) && Within(DotOf(RhoOld, ResP, Res))
    ensures A != B
  {}

  lemma StepFootprints(p: Pattern, view: nat, alpha: real, beta: real)
    ensures Within(Spmv(p, 1.0, Dir, 0.0, MatDir)) && Within(DotOf(Pinned, Dir, MatDir))
    ensures Within(UpdateSol(view, alpha)) && Within(UpdateRes(alpha))
    ensures Within(DotOf(Pinned, Res, Res)) && Within(DotOf(Pinned, ResP, Res))
    ensures Within(Combine(Literal(1.0), ResP, Literal(beta), Dir))
    ensures Within(Combine(Literal(1.0), Res, Literal(beta), Dir))
  {}

  lemma SolFootprint(view: nat, alpha: real)
    ensures Independent(UpdateSol(view, alpha), UpdateRes(alpha))
    ensures Independent(UpdateSol(view, alpha), DotOf(Pinned, Res, Res))
    ensures Independent(UpdateSol(view, alpha), DotOf(Pinned, ResP, Res))
    ensures Writes(UpdateSol(view, alpha)) == {Sol(view)} && Reads(UpdateSol(view, alpha)) == {Dir, Sol(view)}
  {}

  lemma ReadyToRead(pending: seq<Item>, rest: seq<Item>, there: nat, us: set<Task>, here: nat)
    requires Around(pending, rest, there, here, {}) && Around(pending, rest, here, there, us) && here != there
    requires forall u | u in us :: Pinned !in Writes(u)
    ensures forall x | x in pending :: Pinned !in Writes(x.task)
  {
    hide Reads, Writes;
    assert Used(Pinned);
  }

  /** A dot product into pinned memory, awaited and read. */
  method PinnedDot(dev: Dev.Device, here: nat, x: Cell, y: Cell, ghost rest: seq<Item>, ghost there: nat,
      ghost us: set<Task>)
    returns (v: real)
    requires dev.Valid() && Around(dev.pending, rest, here, there, us) && here != there
    requires Within(DotOf(Pinned, x, y))
    requires forall u | u in us :: Independent(u, DotOf(Pinned, x, y))
    modifies dev`memory, dev`pending, dev`next, dev`waits
    ensures dev.Valid() && dev.Flushed() == Exec(DotOf(Pinned, x, y), old(dev.Flushed()))
    ensures v == Scalar(dev.Flushed(), Pinned)
    ensures Around(dev.pending, rest, there, here, {}) && Around(dev.pending, rest, here, there, us)
    ensures us == {} ==> Idle(dev.pending, rest)
    ensures dev.waits == Waited(old(dev.waits), here)
  {
    hide *;
    Enqueue(dev, here, DotOf(Pinned, x, y), rest, there, us);
    Await(dev, here, rest, there, us);
    DotWrites(us, x, y);
    ReadyToRead(dev.pending, rest, there, us, here);
    v := dev.Read(Pinned);
  }

  lemma DotWrites(us: set<Task>, x: Cell, y: Cell)
    requires forall u | u in us :: Independent(u, DotOf(Pinned, x, y))
    ensures forall u | u in us :: Pinned !in Writes(u)
  {
    hide Reads;
  }

  // ------------------------------------------------------------------------
  // The loop invariant.
  // ------------------------------------------------------------------------

  /** Norm, rho and views at the head of iteration k. */
  ghost predicate AtHead(m: Memory, view: nat, s: System, x0: Vec, k: nat, norm2: real, rho: real, tol: real) {
    && Holds(m, view, s, Nth(s, x0, k), Exceeds(norm2, tol))
    && norm2 == Norm2(s, x0, k)
    && (Exceeds(norm2, tol) ==> rho == Nth(s, x0, k).rho)
  }

  /** The first residual and its norm. */
  lemma FirstResidual(m: Memory, view: nat, s: System, x0: Vec)
    requires Get(m, MatValues) == s.vals && Get(m, Rhs) == s.rhs && Get(m, Sol(view)) == x0
    ensures var r := Exec(Spmv(s.p, -1.0, Sol(view), 1.0, Res), Exec(Copy(Res, Rhs), m));
            var n := Exec(DotOf(Host, Res, Res), r);
            && Dot(Get(r, Res), Get(r, Res)) == Norm2(s, x0, 0)
            && Holds(n, view, s, Nth(s, x0, 0), false) && Same(m, n, Scratch()) && Get(n, Sol(view)) == x0
  {
    hide Exec, Get, Same, Dot, System.Residual, Scratch, System.M;
    var r := Exec(Spmv(s.p, -1.0, Sol(view), 1.0, Res), Exec(Copy(Res, Rhs), m));
    var n := Exec(DotOf(Host, Res, Res), r);
    ExecResidual(m, view, s, x0);
    ExecDot(r, Host, Res, Res);
    SameAt(r, n, {Host}, Res);
    SameTrans(m, r, n, {Res}, {Host}, {Res, Host});
    SameAt(m, n, {Res, Host}, MatValues);
    SameAt(m, n, {Res, Host}, Rhs);
    SameAt(m, n, {Res, Host}, Sol(view));
    OwnedHas(view);
    SameWiden(m, n, {Res, Host}, Scratch());
  }

  /** The first direction. */
  lemma FirstSearch(n: Memory, view: nat, s: System, x0: Vec, norm2: real, tol: real)
    requires Holds(n, view, s, Nth(s, x0, 0), false) && norm2 == Norm2(s, x0, 0)
    requires s.prec.Jacobi? ==> Jacobi.DiagonalStored(s.p)
    ensures var z := Run(n, Preconditioners.PrecTasks(s.p, s.prec, ResP, Res));
            var d := Exec(Copy(Dir, ResP), Exec(DotOf(Host, ResP, Res), z));
            AtHead(d, view, s, x0, 0, norm2, Dot(Get(z, ResP), Get(z, Res)), tol) && Same(n, d, Scratch())
  {
    hide Exec, Run, Get, Same, Dot, Scalar, Scratch, System.M, System.Residual, Preconditioners.PrecTasks, Exceeds;
    var z := Run(n, Preconditioners.PrecTasks(s.p, s.prec, ResP, Res));
    var h := Exec(DotOf(Host, ResP, Res), z);
    var d := Exec(Copy(Dir, ResP), h);
    Kernels.Preconditioned(n, s, Host);
    ExecDot(z, Host, ResP, Res);
    HoldsSame(n, h, {ResP, SweepTmp, Host}, view, s, Nth(s, x0, 0), false);
    ExecSame(Copy(Dir, ResP), h);
    HoldsSame(h, d, {Dir}, view, s, Nth(s, x0, 0), false);
    Preconditioners.ExecCopy(h, Dir, ResP);
    OwnedHas(view);
    SameTrans(n, h, d, {ResP, SweepTmp, Host}, {Dir}, Scratch());
  }

  /** What the parts of an iteration compute is the next state. */
  lemma NthStep(s: System, x0: Vec, k: nat)
    ensures Nth(s, x0, k + 1) == Advance(s, Nth(s, x0, k))
    ensures Nth(s, x0, k + 1).sol == NextSol(s, Nth(s, x0, k)) && Nth(s, x0, k + 1).res == NextRes(s, Nth(s, x0, k))
    ensures Norm2(s, x0, k + 1) == Dot(NextRes(s, Nth(s, x0, k)), NextRes(s, Nth(s, x0, k)))
    ensures StepSize(s, Nth(s, x0, k)) == Div(Nth(s, x0, k).rho, Dot(Nth(s, x0, k).dir, s.A(Nth(s, x0, k).dir)))
  {
    hide Mul, Div, Dot, Axpby, System.M, MatVec;
  }

  lemma HeadParts(m: Memory, view: nat, s: System, x0: Vec, k: nat, norm2: real, rho: real, tol: real)
    ensures AtHead(m, view, s, x0, k, norm2, rho, tol) ==>
              norm2 == Norm2(s, x0, k) && Get(m, Sol(view)) == Nth(s, x0, k).sol
    ensures AtHead(m, view, s, x0, k, norm2, rho, tol) && Exceeds(norm2, tol) ==>
              Holds(m, view, s, Nth(s, x0, k), true) && rho == Nth(s, x0, k).rho
  {
    hide Get, Nth, Norm2, Exceeds;
  }

  lemma HeadWhole(m: Memory, view: nat, s: System, x0: Vec, k: nat, norm2: real, rho: real, tol: real)
    requires Holds(m, view, s, Nth(s, x0, k), Exceeds(norm2, tol)) && norm2 == Norm2(s, x0, k)
    requires Exceeds(norm2, tol) ==> rho == Nth(s, x0, k).rho
    ensures AtHead(m, view, s, x0, k, norm2, rho, tol)
  {}

  lemma HoldsParts(m: Memory, view: nat, s: System, st: State, st': State)
    requires Holds(m, view, s, st, true)
    ensures st.sol == st'.sol && st.res == st'.res ==> Holds(m, view, s, st', false)
  {}

  lemma FitsParts(m: Memory, p: Pattern, prec: Prec)
    ensures var s := SystemIn(m, p, prec);
            s.p == p && s.prec == prec && s.vals == Get(m, MatValues) && s.rhs == Get(m, Rhs)
    ensures forall x0 :: Fits(SystemIn(m, p, prec), x0) && prec.Jacobi? ==> Jacobi.DiagonalStored(p)
  {
    hide Get, Jacobi.DiagonalStored;
  }

  lemma StopsBeneath(norm2: real, tol: real)
    ensures Beneath(norm2, tol) ==> !Exceeds(norm2, tol)
  {}

  /** The views after the updates of solution and residual, which is all that a final iteration needs. */
  lemma MidIteration(m: Memory, view: nat, s: System, st: State, alpha: real)
    requires Holds(m, view, s, st, true)
    ensures var q := Exec(DotOf(Pinned, Dir, MatDir), Exec(Spmv(s.p, 1.0, Dir, 0.0, MatDir), m));
            && Scalar(q, Pinned) == Dot(st.dir, s.A(st.dir))
            && (alpha == StepSize(s, st) ==>
                  var w := Exec(DotOf(Pinned, Res, Res), Exec(UpdateRes(alpha), Exec(UpdateSol(view, alpha), q)));
                  && Scalar(w, Pinned) == Dot(NextRes(s, st), NextRes(s, st))
                  && Get(w, Dir) == st.dir && Get(w, Res) == NextRes(s, st) && Get(w, MatValues) == s.vals
                  && Holds(w, view, s, State(NextSol(s, st), NextRes(s, st), st.dir, 0.0), true)
                  && Same(m, w, Owned(view)))
  {
    hide Exec, Get, Same, Dot, MatVec, Scalar, NextSol, NextRes, StepSize, Scratch;
    Quadratic(m, view, s, st, Pinned);
    var q := Exec(DotOf(Pinned, Dir, MatDir), Exec(Spmv(s.p, 1.0, Dir, 0.0, MatDir), m));
    if alpha == StepSize(s, st) {
      UpdateViews(q, view, s, st, Literal(alpha), Literal(-alpha), Pinned);
      var w := Exec(DotOf(Pinned, Res, Res), Exec(UpdateRes(alpha), Exec(UpdateSol(view, alpha), q)));
      SameAt(q, w, {Sol(view), Res, Pinned}, MatValues);
      SameAt(q, w, {Sol(view), Res, Pinned}, Rhs);
      OwnedHas(view);
      SameTrans(m, q, w, {MatDir, Pinned}, {Sol(view), Res, Pinned}, Owned(view));
    }
  }

  lemma OwnedHas(view: nat)
    ensures {Res, ResP, Dir, MatDir, SweepTmp, Pinned, Host, Tmp, Alpha, AlphaNeg, RhoOld, ResDot} <= Scratch()
    ensures Scratch() <= Owned(view) && Sol(view) in Owned(view) && Sol(view) !in Scratch()
  {}

  /** The preconditioned part of an iteration that goes on. */
  lemma EndIteration(w: Memory, view: nat, s: System, st: State, beta: real)
    requires Holds(w, view, s, State(NextSol(s, st), NextRes(s, st), st.dir, 0.0), true)
    requires s.prec.Jacobi? ==> Jacobi.DiagonalStored(s.p)
    ensures var z := Exec(DotOf(Pinned, ResP, Res), Run(w, Preconditioners.PrecTasks(s.p, s.prec, ResP, Res)));
            && Scalar(z, Pinned) == Advance(s, st).rho
            && (beta == Div(Advance(s, st).rho, st.rho) ==>
                  var e := Exec(Combine(Literal(1.0), ResP, Literal(beta), Dir), z);
                  Holds(e, view, s, Advance(s, st), true) && Same(w, e, Owned(view)))
  {
    hide Exec, Run, Get, Same, Dot, Scalar, NextSol, NextRes, Scratch, System.M, Axpby, Div,
        Preconditioners.PrecTasks;
    Kernels.Preconditioned(w, s, Pinned);
    var z := Exec(DotOf(Pinned, ResP, Res), Run(w, Preconditioners.PrecTasks(s.p, s.prec, ResP, Res)));
    HoldsSame(w, z, {ResP, SweepTmp, Pinned}, view, s, State(NextSol(s, st), NextRes(s, st), st.dir, 0.0), true);
    ExecCombine(z, Literal(1.0), ResP, Literal(beta), Dir);
    var e := Exec(Combine(Literal(1.0), ResP, Literal(beta), Dir), z);
    HoldsSame(z, e, {Dir}, view, s, State(NextSol(s, st), NextRes(s, st), st.dir, 0.0), false);
    OwnedHas(view);
    SameTrans(w, z, e, {ResP, SweepTmp, Pinned}, {Dir}, Owned(view));
  }

  /** Without preconditioner, the first direction is the residual, and its norm is rho. */
  lemma CgFirstSearch(n: Memory, view: nat, s: System, x0: Vec, norm2: real, tol: real)
    requires Holds(n, view, s, Nth(s, x0, 0), false) && norm2 == Norm2(s, x0, 0) && s.prec.Identity?
    ensures var d := Exec(Copy(Dir, Res), n);
            AtHead(d, view, s, x0, 0, norm2, norm2, tol) && Same(n, d, Scratch())
  {
    hide Exec, Get, Same, Dot, Scratch, System.Residual, Exceeds;
    var d := Exec(Copy(Dir, Res), n);
    ExecSame(Copy(Dir, Res), n);
    HoldsSame(n, d, {Dir}, view, s, Nth(s, x0, 0), false);
    Preconditioners.ExecCopy(n, Dir, Res);
    OwnedHas(view);
    SameWiden(n, d, {Dir}, Scratch());
  }

  /** Without preconditioner, the squared norm is the next rho. */
  lemma CgEndIteration(w: Memory, view: nat, s: System, st: State, norm2: real)
    requires Holds(w, view, s, State(NextSol(s, st), NextRes(s, st), st.dir, 0.0), true) && s.prec.Identity?
    requires norm2 == Dot(NextRes(s, st), NextRes(s, st))
    ensures norm2 == Advance(s, st).rho
    ensures var e := Exec(Combine(Literal(1.0), Res, Literal(Div(norm2, st.rho)), Dir), w);
            Holds(e, view, s, Advance(s, st), true) && Same(w, e, Owned(view))
  {
    hide Exec, Get, Same, Dot, NextSol, NextRes, Scratch, Axpby, Div;
    var beta := Div(norm2, st.rho);
    ExecCombine(w, Literal(1.0), Res, Literal(beta), Dir);
    var e := Exec(Combine(Literal(1.0), Res, Literal(beta), Dir), w);
    HoldsSame(w, e, {Dir}, view, s, State(NextSol(s, st), NextRes(s, st), st.dir, 0.0), false);
    OwnedHas(view);
    SameWiden(w, e, {Dir}, Owned(view));
  }

  // ------------------------------------------------------------------------
  // The streams that the host waits for.
  // ------------------------------------------------------------------------

  /** In k preconditioned iterations. An iteration that meets the tolerance does not wait for the next rho. */
  function LoopWaits(k: nat, met: bool): seq<nat> {
    if k > 0 && met then Repeated([A, B, B], k - 1) + [A, B] else Repeated([A, B, B], k)
  }

  /** In a solve: for the first norm, the first rho, the iterations and the solution. */
  function PcgWaits(first: real, tol: real, norm2: real, iters: nat): seq<nat> {
    if Beneath(first, tol) then [A] else [A, A] + LoopWaits(iters, !Exceeds(norm2, tol)) + [A]
  }

  /** Without preconditioner the first norm is the first rho, and every other norm the next one. */
  function CgWaits(first: real, tol: real, iters: nat): seq<nat> {
    if Beneath(first, tol) then [A] else [A] + Repeated([A, B], iters) + [A]
  }

  /** What the host has waited for after k iterations. */
  function PcgWaited(before: seq<nat>, k: nat, met: bool): seq<nat> {
    before + [A, A] + LoopWaits(k, met)
  }

  function CgWaited(before: seq<nat>, k: nat): seq<nat> {
    before + [A] + Repeated([A, B], k)
  }

  lemma PcgWaitedStep(before: seq<nat>, k: nat, met: bool)
    ensures Waited(Waited(before, A), A) == PcgWaited(before, 0, met)
    ensures var w := Waited(Waited(PcgWaited(before, k, false), A), B);
            PcgWaited(before, k + 1, met) == if met then w else Waited(w, B)
  {
    hide Repeated;
    RepeatedStep([A, B, B], k);
  }

  lemma CgWaitedStep(before: seq<nat>, k: nat)
    ensures Waited(before, A) == CgWaited(before, 0)
    ensures Waited(Waited(CgWaited(before, k), A), B) == CgWaited(before, k + 1)
  {
    hide Repeated;
    RepeatedStep([A, B], k);
  }

  lemma WaitedEnd(before: seq<nat>, first: real, tol: real, norm2: real, iters: nat)
    ensures before + PcgWaits(first, tol, norm2, iters)
         == if Beneath(first, tol) then Waited(before, A)
            else Waited(PcgWaited(before, iters, !Exceeds(norm2, tol)), A)
    ensures before + CgWaits(first, tol, iters)
         == if Beneath(first, tol) then Waited(before, A) else Waited(CgWaited(before, iters), A)
  {
    hide Repeated, LoopWaits;
  }

  /** A preconditioned iteration waits three times, the one that meets the tolerance twice; a plain one twice. */
  lemma WaitCounts(first: real, tol: real, norm2: real, iters: nat)
    requires !Beneath(first, tol)
    ensures |PcgWaits(first, tol, norm2, iters)| == 3 + 3 * iters - if iters > 0 && !Exceeds(norm2, tol) then 1 else 0
    ensures |CgWaits(first, tol, iters)| == 2 + 2 * iters
  {
    hide Repeated;
    RepeatedLength([A, B], iters);
    RepeatedLength([A, B, B], iters);
    if iters > 0 {
      RepeatedLength([A, B, B], iters - 1);
    }
  }

  class CGQueue {
    const p: Pattern

    constructor (p: Pattern)
      ensures this.p == p
    {
      this.p := p;
    }

    /** Solve without preconditioner. */
    method Apply(dev: Dev.Device, view: nat, tol: real, maxIters: nat) returns (norm2: real, iters: nat)
      requires dev.Valid()
      requires Around(dev.pending, dev.pending, A, B, {})
      requires Fits(SystemIn(dev.Flushed(), p, Identity), Get(dev.Flushed(), Sol(view)))
      modifies dev`memory, dev`pending, dev`next, dev`waits
      ensures dev.Valid() && Idle(dev.pending, old(dev.pending))
      ensures Outcome(Get(dev.Flushed(), Sol(view)), norm2, iters)
           == CgLoop(SystemIn(old(dev.Flushed()), p, Identity), Get(old(dev.Flushed()), Sol(view)), tol, maxIters, 0)
      ensures Same(old(dev.Flushed()), dev.Flushed(), Owned(view))
      ensures dev.waits
           == old(dev.waits)
            + CgWaits(Norm2(SystemIn(old(dev.Flushed()), p, Identity), Get(old(dev.Flushed()), Sol(view)), 0), tol,
                iters)
    {
      hide *;
      ghost var rest, m0, w0 := dev.pending, dev.Flushed(), dev.waits;
      ghost var s, x0 := SystemIn(m0, p, Identity), Get(m0, Sol(view));
      StartFootprints(p, view);
      StepFootprints(p, view, 0.0, 0.0);
      FitsParts(m0, p, Identity);
      CgLoopMatches(s, x0, tol, maxIters, 0);
      FirstResidual(m0, view, s, x0);
      Enqueue(dev, A, Copy(Res, Rhs), rest, B, {});
      Enqueue(dev, A, Spmv(p, -1.0, Sol(view), 1.0, Res), rest, B, {});
      var rho := Reduce(dev, A, Res, Res, rest, B);
      norm2 := rho;
      LoopCases(s, x0, tol, maxIters, 0);
      StopsBeneath(norm2, tol);
      StartSol(s, x0);
      OwnedHas(view);
      SameWiden(m0, dev.Flushed(), Scratch(), Owned(view));
      if Beneath(norm2, tol) {
        iters := 0;
        WaitedEnd(w0, norm2, tol, norm2, iters);
        return;
      }
      CgFirstSearch(dev.Flushed(), view, s, x0, norm2, tol);
      ghost var n := dev.Flushed();
      Enqueue(dev, A, Copy(Dir, Res), rest, B, {});
      SameTrans(m0, n, dev.Flushed(), Owned(view), Scratch(), Owned(view));
      iters := 0;
      CgWaitedStep(w0, 0);
      while Exceeds(norm2, tol) && iters < maxIters
        invariant dev.Valid() && Around(dev.pending, rest, A, B, {}) && iters <= maxIters
        invariant AtHead(dev.Flushed(), view, s, x0, iters, norm2, rho, tol)
        invariant Same(m0, dev.Flushed(), Owned(view))
        invariant dev.waits == CgWaited(w0, iters)
        invariant Loop(s, x0, tol, maxIters, 0) == Loop(s, x0, tol, maxIters, iters)
      {
        ghost var m, st := dev.Flushed(), Nth(s, x0, iters);
        HeadParts(m, view, s, x0, iters, norm2, rho, tol);
        NthStep(s, x0, iters);
        LoopCases(s, x0, tol, maxIters, iters);
        Enqueue(dev, A, Spmv(p, 1.0, Dir, 0.0, MatDir), rest, B, {});
        var quadratic := PinnedDot(dev, A, Dir, MatDir, rest, B, {});
        var alpha := Div(rho, quadratic);
        StepFootprints(p, view, alpha, 0.0);
        SolFootprint(view, alpha);
        MidIteration(m, view, s, st, alpha);
        Enqueue(dev, A, UpdateSol(view, alpha), rest, B, {});
        Enqueue(dev, B, UpdateRes(alpha), rest, A, {UpdateSol(view, alpha)});
        norm2 := PinnedDot(dev, B, Res, Res, rest, A, {UpdateSol(view, alpha)});
        ghost var w := dev.Flushed();
        SameTrans(m0, m, w, Owned(view), Owned(view), Owned(view));
        HoldsParts(w, view, s, State(NextSol(s, st), NextRes(s, st), st.dir, 0.0), Nth(s, x0, iters + 1));
        if Exceeds(norm2, tol) {
          var beta := Div(norm2, rho);
          StepFootprints(p, view, alpha, beta);
          CgEndIteration(w, view, s, st, norm2);
          Enqueue(dev, A, Combine(Literal(1.0), Res, Literal(beta), Dir), rest, B, {});
          SameTrans(m0, w, dev.Flushed(), Owned(view), Owned(view), Owned(view));
          rho := norm2;
        }
        CgWaitedStep(w0, iters);
        iters := iters + 1;
        HeadWhole(dev.Flushed(), view, s, x0, iters, norm2, rho, tol);
      }
      HeadParts(dev.Flushed(), view, s, x0, iters, norm2, rho, tol);
      LoopCases(s, x0, tol, maxIters, iters);
      Await(dev, A, rest, B, {});
      WaitedEnd(w0, Norm2(s, x0, 0), tol, norm2, iters);
    }
  }

  class PCGQueue {
    const preconditioner: Preconditioners.Preconditioner

    constructor (p: Pattern, prec: Prec)
      ensures fresh(preconditioner) && preconditioner.p == p && preconditioner.prec == prec
    {
      this.preconditioner := new Preconditioners.Preconditioner(p, prec);
    }

    /**
     * Solve. Whatever the device does with the work in flight, the outcome is that of the sequential
     * iteration, and the solution is complete when the solver returns.
     */
    method Apply(dev: Dev.Device, view: nat, tol: real, maxIters: nat) returns (norm2: real, iters: nat)
      requires dev.Valid()
      requires Around(dev.pending, dev.pending, A, B, {})
      requires Fits(SystemIn(dev.Flushed(), preconditioner.p, preconditioner.prec), Get(dev.Flushed(), Sol(view)))
      modifies dev`memory, dev`pending, dev`next, dev`waits
      ensures dev.Valid() && Idle(dev.pending, old(dev.pending))
      ensures Outcome(Get(dev.Flushed(), Sol(view)), norm2, iters)
           == Loop(SystemIn(old(dev.Flushed()), preconditioner.p, preconditioner.prec),
               Get(old(dev.Flushed()), Sol(view)), tol, maxIters, 0)
      ensures Same(old(dev.Flushed()), dev.Flushed(), Owned(view))
      ensures dev.waits
           == old(dev.waits)
            + PcgWaits(Norm2(SystemIn(old(dev.Flushed()), preconditioner.p, preconditioner.prec),
                         Get(old(dev.Flushed()), Sol(view)), 0), tol, norm2, iters)
    {
      hide *;
      var p := preconditioner.p;
      ghost var rest, m0, w0 := dev.pending, dev.Flushed(), dev.waits;
      ghost var s, x0 := SystemIn(m0, p, preconditioner.prec), Get(m0, Sol(view));
      StartFootprints(p, view);
      StepFootprints(p, view, 0.0, 0.0);
      FitsParts(m0, p, preconditioner.prec);
      FirstResidual(m0, view, s, x0);
      Enqueue(dev, A, Copy(Res, Rhs), rest, B, {});
      Enqueue(dev, A, Spmv(p, -1.0, Sol(view), 1.0, Res), rest, B, {});
      norm2 := Reduce(dev, A, Res, Res, rest, B);
      LoopCases(s, x0, tol, maxIters, 0);
      StopsBeneath(norm2, tol);
      StartSol(s, x0);
      OwnedHas(view);
      SameWiden(m0, dev.Flushed(), Scratch(), Owned(view));
      if Beneath(norm2, tol) {
        iters := 0;
        WaitedEnd(w0, norm2, tol, norm2, iters);
        return;
      }
      FirstSearch(dev.Flushed(), view, s, x0, norm2, tol);
      ghost var n := dev.Flushed();
      Precondition(dev, preconditioner, A, rest, B, {});
      var rho := Reduce(dev, A, ResP, Res, rest, B);
      Enqueue(dev, A, Copy(Dir, ResP), rest, B, {});
      SameTrans(m0, n, dev.Flushed(), Owned(view), Scratch(), Owned(view));
      iters := 0;
      PcgWaitedStep(w0, 0, !Exceeds(norm2, tol));
      while Exceeds(norm2, tol) && iters < maxIters
        invariant dev.Valid() && Around(dev.pending, rest, A, B, {}) && iters <= maxIters
        invariant AtHead(dev.Flushed(), view, s, x0, iters, norm2, rho, tol)
        invariant Same(m0, dev.Flushed(), Owned(view))
        invariant dev.waits == PcgWaited(w0, iters, !Exceeds(norm2, tol))
        invariant Loop(s, x0, tol, maxIters, 0) == Loop(s, x0, tol, maxIters, iters)
      {
        ghost var m, st := dev.Flushed(), Nth(s, x0, iters);
        HeadParts(m, view, s, x0, iters, norm2, rho, tol);
        NthStep(s, x0, iters);
        LoopCases(s, x0, tol, maxIters, iters);
        Enqueue(dev, A, Spmv(p, 1.0, Dir, 0.0, MatDir), rest, B, {});
        var quadratic := PinnedDot(dev, A, Dir, MatDir, rest, B, {});
        var alpha := Div(rho, quadratic);
        StepFootprints(p, view, alpha, 0.0);
        SolFootprint(view, alpha);
        MidIteration(m, view, s, st, alpha);
        Enqueue(dev, A, UpdateSol(view, alpha), rest, B, {});
        Enqueue(dev, B, UpdateRes(alpha), rest, A, {UpdateSol(view, alpha)});
        norm2 := PinnedDot(dev, B, Res, Res, rest, A, {UpdateSol(view, alpha)});
        ghost var w := dev.Flushed();
        SameTrans(m0, m, w, Owned(view), Owned(view), Owned(view));
        HoldsParts(w, view, s, State(NextSol(s, st), NextRes(s, st), st.dir, 0.0), Nth(s, x0, iters + 1));
        if Exceeds(norm2, tol) {
          Precondition(dev, preconditioner, B, rest, A, {UpdateSol(view, alpha)});
          var num := PinnedDot(dev, B, ResP, Res, rest, A, {UpdateSol(view, alpha)});
          var beta := Div(num, rho);
          StepFootprints(p, view, alpha, beta);
          EndIteration(w, view, s, st, beta);
          Enqueue(dev, A, Combine(Literal(1.0), ResP, Literal(beta), Dir), rest, B, {});
          SameTrans(m0, w, dev.Flushed(), Owned(view), Owned(view), Owned(view));
          rho := num;
        }
        PcgWaitedStep(w0, iters, !Exceeds(norm2, tol));
        iters := iters + 1;
        HeadWhole(dev.Flushed(), view, s, x0, iters, norm2, rho, tol);
      }
      HeadParts(dev.Flushed(), view, s, x0, iters, norm2, rho, tol);
      LoopCases(s, x0, tol, maxIters, iters);
      Await(dev, A, rest, B, {});
      WaitedEnd(w0, Norm2(s, x0, 0), tol, norm2, iters);
    }
  }

  lemma StartSol(s: System, x0: Vec)
    ensures Nth(s, x0, 0).sol == x0
  {}
}
