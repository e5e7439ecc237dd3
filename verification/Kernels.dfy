/** What the solver kernels do to the solver's views, and which of them may be in flight together. */
module Kernels {
  import opened Vectors
  import opened Csr
  import opened Tasks
  import opened Schedule
  import opened Krylov
  import Dev = Device
  import Preconditioners
  import Jacobi

  /** The instances of the pool. */
  const A: nat := 0
  const B: nat := 1
  const C: nat := 2

  // ------------------------------------------------------------------------
  // Work in flight.
  // ------------------------------------------------------------------------

  /** The private views of a solver. */
  function Scratch(): set<Cell> {
    {Res, ResP, Dir, MatDir, SweepTmp, Pinned, Host, Tmp, Alpha, AlphaNeg, RhoOld, ResDot}
  }

  /** The views a solver may change: its own ones and one solution. */
  function Owned(view: nat): set<Cell> {
    Scratch() + {Sol(view)}
  }

  /** The views a solver works with. */
  predicate Used(c: Cell) {
    c.Sol? || c in Scratch() || c in {Rhs, MatValues}
  }

  predicate Foreign(t: Task) {
    (forall c | c in Reads(t) :: !Used(c)) && (forall c | c in Writes(t) :: !Used(c))
  }

  predicate Within(t: Task) {
    (forall c | c in Reads(t) :: Used(c)) && (forall c | c in Writes(t) :: Used(c))
  }

  /** Apart from foreign work of the rest, only one stream is busy, and the other one runs no more than us. */
  ghost predicate Around(pending: seq<Item>, rest: seq<Item>, here: nat, there: nat, us: set<Task>) {
    forall x | x in pending ::
      x.stream == here || (x.stream == there && x.task in us) || (x in rest && Foreign(x.task))
  }

  /** Only foreign work of the rest is pending. */
  ghost predicate Idle(pending: seq<Item>, rest: seq<Item>) {
    forall x | x in pending :: x in rest && Foreign(x.task)
  }

  lemma AroundClear(pending: seq<Item>, rest: seq<Item>, here: nat, there: nat, us: set<Task>, ts: seq<Task>)
    requires Around(pending, rest, here, there, us)
    requires forall t | t in ts :: Within(t) && forall u | u in us :: Independent(u, t)
    ensures Clear(pending, here, ts)
  {
    hide Independent, Foreign, Within;
    forall x, t | x in pending && t in ts ensures x.stream == here || Independent(x.task, t) {
      if Foreign(x.task) {
        ForeignBeside(x.task, t);
      }
    }
  }

  lemma ForeignBeside(t: Task, u: Task)
    requires Foreign(t) && Within(u)
    ensures Independent(t, u)
  {
    hide Reads, Writes, Used;
  }

  lemma AroundGrown(before: seq<Item>, after: seq<Item>, rest: seq<Item>, here: nat, there: nat, us: set<Task>,
      ts: seq<Task>)
    requires Around(before, rest, here, there, us) && Grown(before, after, here, ts)
    ensures Around(after, rest, here, there, us)
    ensures Idle(before, rest) && (forall t | t in ts :: t in us) ==> Around(after, rest, there, here, us)
  {
    hide Foreign;
  }

  lemma IdleAround(pending: seq<Item>, rest: seq<Item>, here: nat, there: nat, us: set<Task>)
    requires Idle(pending, rest)
    ensures Around(pending, rest, here, there, us)
  {}

  /** The streams waited for, with one more. */
  function Waited(before: seq<nat>, stream: nat): seq<nat> {
    before + [stream]
  }

  /** Launch a kernel beside the work us of the other stream. */
  method Enqueue(dev: Dev.Device, here: nat, t: Task, ghost rest: seq<Item>, ghost there: nat, ghost us: set<Task>)
    requires dev.Valid() && Around(dev.pending, rest, here, there, us)
    requires Within(t) && forall u | u in us :: Independent(u, t)
    modifies dev`memory, dev`pending, dev`next
    ensures dev.Valid() && dev.Flushed() == Exec(t, old(dev.Flushed()))
    ensures Around(dev.pending, rest, here, there, us)
    ensures Idle(old(dev.pending), rest) ==> Around(dev.pending, rest, there, here, {t})
  {
    hide *;
    AroundClear(dev.pending, rest, here, there, us, [t]);
    dev.Launch(here, t);
    AroundGrown(old(dev.pending), dev.pending, rest, here, there, us, [t]);
    if Idle(old(dev.pending), rest) {
      IdleAround(old(dev.pending), rest, here, there, {t});
      AroundGrown(old(dev.pending), dev.pending, rest, here, there, {t}, [t]);
    }
  }

  /** Wait for one stream. */
  method Await(dev: Dev.Device, here: nat, ghost rest: seq<Item>, ghost there: nat, ghost us: set<Task>)
    requires dev.Valid() && Around(dev.pending, rest, here, there, us)
    modifies dev`memory, dev`pending, dev`next, dev`waits
    ensures dev.Valid() && dev.Flushed() == old(dev.Flushed()) && dev.waits == Waited(old(dev.waits), here)
    ensures Around(dev.pending, rest, there, here, {}) && Around(dev.pending, rest, here, there, us)
    ensures us == {} ==> Idle(dev.pending, rest)
  {
    hide Dev.Device.Flushed, Foreign;
    dev.Fence(here);
  }

  /** Reduce into a host scalar. */
  method Reduce(dev: Dev.Device, here: nat, x: Cell, y: Cell, ghost rest: seq<Item>, ghost there: nat) returns (v: real)
    requires dev.Valid() && Around(dev.pending, rest, here, there, {}) && Within(DotOf(Host, x, y))
    modifies dev`memory, dev`pending, dev`next, dev`waits
    ensures dev.Valid() && dev.Flushed() == Exec(DotOf(Host, x, y), old(dev.Flushed()))
    ensures v == Dot(Get(old(dev.Flushed()), x), Get(old(dev.Flushed()), y))
    ensures Idle(dev.pending, rest) && Around(dev.pending, rest, here, there, {})
    ensures dev.waits == Waited(old(dev.waits), here)
  {
    hide Dev.Device.Flushed, Dot;
    AroundClear(dev.pending, rest, here, there, {}, [DotOf(Host, x, y)]);
    v := dev.HostDot(here, x, y);
  }

  /** Apply a preconditioner beside the work us of the other stream. */
  method Precondition(dev: Dev.Device, m: Preconditioners.Preconditioner, here: nat,
                      ghost rest: seq<Item>, ghost there: nat, ghost us: set<Task>)
    requires dev.Valid() && Around(dev.pending, rest, here, there, us)
    requires forall u | u in us :: Writes(u) !! {MatValues, Res, ResP, SweepTmp} && Reads(u) !! {ResP, SweepTmp}
    modifies dev`memory, dev`pending, dev`next
    ensures dev.Valid() && Around(dev.pending, rest, here, there, us)
    ensures dev.Flushed() == Run(old(dev.Flushed()), Preconditioners.PrecTasks(m.p, m.prec, ResP, Res))
  {
    hide Dev.Device.Flushed, Dev.Device.Valid, Around, Reads, Writes, Clear, Grown;
    var ts := Preconditioners.PrecTasks(m.p, m.prec, ResP, Res);
    AroundClear(dev.pending, rest, here, there, us, ts);
    m.Apply(dev, here, ResP, Res);
    AroundGrown(old(dev.pending), dev.pending, rest, here, there, us, ts);
  }

  // ------------------------------------------------------------------------
  // The kernels on the views.
  // ------------------------------------------------------------------------

  /** All views except the given ones have the same contents. */
  ghost predicate Same(m: Memory, m': Memory, except: set<Cell>) {
    forall c | c !in except :: Get(m, c) == Get(m', c)
  }

  lemma ExecSame(t: Task, m: Memory)
    ensures Same(m, Exec(t, m), Writes(t))
  {
    hide Exec, Get, Writes;
    forall c | c !in Writes(t) ensures Get(Exec(t, m), c) == Get(m, c) {
      ExecFrame(t, m, c);
    }
  }

  lemma SameTrans(a: Memory, b: Memory, c: Memory, ab: set<Cell>, bc: set<Cell>, ac: set<Cell>)
    requires Same(a, b, ab) && Same(b, c, bc) && ab + bc <= ac
    ensures Same(a, c, ac)
  {
    hide Get;
  }

  lemma SameWiden(a: Memory, b: Memory, ab: set<Cell>, ac: set<Cell>)
    requires Same(a, b, ab) && ab <= ac
    ensures Same(a, b, ac)
  {}

  /** The system and the state that the views hold. The direction is held only while it is needed. */
  ghost predicate Holds(m: Memory, view: nat, s: System, st: State, withDir: bool) {
    && Get(m, MatValues) == s.vals && Get(m, Rhs) == s.rhs && Get(m, Sol(view)) == st.sol && Get(m, Res) == st.res
    && (withDir ==> Get(m, Dir) == st.dir)
  }

  lemma ExecCombine(m: Memory, a: Coefficient, x: Cell, b: Coefficient, y: Cell)
    ensures Get(Exec(Combine(a, x, b, y), m), y) == Axpby(a.Value(m), Get(m, x), b.Value(m), Get(m, y))
    ensures Same(m, Exec(Combine(a, x, b, y), m), {y})
  {
    hide Axpby, Get, Same;
    ExecGet(Combine(a, x, b, y), m, y);
    ExecSame(Combine(a, x, b, y), m);
  }

  lemma ExecDot(m: Memory, out: Cell, x: Cell, y: Cell)
    ensures Scalar(Exec(DotOf(out, x, y), m), out) == Dot(Get(m, x), Get(m, y))
    ensures Same(m, Exec(DotOf(out, x, y), m), {out})
  {
    hide Dot, Get, Same;
    ExecGet(DotOf(out, x, y), m, out);
    ExecSame(DotOf(out, x, y), m);
  }

  lemma AxpbyUnit(x: Vec)
    ensures Axpby(1.0, x, 0.0, x) == x
  {
    forall i | 0 <= i < |x| ensures Axpby(1.0, x, 0.0, x)[i] == x[i] {
      hide Mul;
      MulUnits(x[i]);
    }
  }

  /** The product with the direction. */
  lemma ExecProduct(m: Memory, p: Pattern)
    ensures Get(Exec(Spmv(p, 1.0, Dir, 0.0, MatDir), m), MatDir) == MatVec(p, Get(m, MatValues), Get(m, Dir))
    ensures Same(m, Exec(Spmv(p, 1.0, Dir, 0.0, MatDir), m), {MatDir})
  {
    hide MatVec, Get, Same, Axpby;
    ExecGet(Spmv(p, 1.0, Dir, 0.0, MatDir), m, MatDir);
    ExecSame(Spmv(p, 1.0, Dir, 0.0, MatDir), m);
    AxpbyUnit(MatVec(p, Get(m, MatValues), Get(m, Dir)));
  }

  /** The residual of the initial guess. */
  lemma ExecResidual(m: Memory, view: nat, s: System, x0: Vec)
    requires Get(m, MatValues) == s.vals && Get(m, Rhs) == s.rhs && Get(m, Sol(view)) == x0
    ensures var m' := Exec(Spmv(s.p, -1.0, Sol(view), 1.0, Res), Exec(Copy(Res, Rhs), m));
            Get(m', Res) == s.Residual(x0) && Same(m, m', {Res})
  {
    hide MatVec, Get, Same, Axpby, Exec;
    var c, t := Exec(Copy(Res, Rhs), m), Spmv(s.p, -1.0, Sol(view), 1.0, Res);
    ExecGet(Copy(Res, Rhs), m, Res);
    ExecSame(Copy(Res, Rhs), m);
    ExecGet(t, c, Res);
    ExecSame(t, c);
    SameAt(m, c, {Res}, MatValues);
    SameAt(m, c, {Res}, Sol(view));
    SameTrans(m, c, Exec(t, c), {Res}, {Res}, {Res});
  }

  lemma SameAt(m: Memory, m': Memory, except: set<Cell>, c: Cell)
    requires Same(m, m', except) && c !in except
    ensures Get(m, c) == Get(m', c)
  {}

  /** The state survives kernels that write none of its views. */
  lemma HoldsSame(m: Memory, m': Memory, except: set<Cell>, view: nat, s: System, st: State, withDir: bool)
    requires Holds(m, view, s, st, withDir) && Same(m, m', except)
    requires except !! {MatValues, Rhs, Sol(view), Res} && (withDir ==> Dir !in except)
    ensures Holds(m', view, s, st, withDir)
  {
    hide Get;
  }

  /** Product and quadratic form. */
  lemma Quadratic(m: Memory, view: nat, s: System, st: State, out: Cell)
    requires Holds(m, view, s, st, true) && out !in {MatValues, Rhs, Sol(view), Res, Dir, MatDir}
    ensures var m' := Exec(DotOf(out, Dir, MatDir), Exec(Spmv(s.p, 1.0, Dir, 0.0, MatDir), m));
            && Scalar(m', out) == Dot(st.dir, s.A(st.dir)) && Get(m', MatDir) == s.A(st.dir)
            && Holds(m', view, s, st, true) && Same(m, m', {MatDir, out})
  {
    hide Exec, Get, Same, Dot, MatVec, Scalar;
    var q := Exec(Spmv(s.p, 1.0, Dir, 0.0, MatDir), m);
    ExecProduct(m, s.p);
    HoldsSame(m, q, {MatDir}, view, s, st, true);
    ExecDot(q, out, Dir, MatDir);
    HoldsSame(q, Exec(DotOf(out, Dir, MatDir), q), {out}, view, s, st, true);
    SameAt(q, Exec(DotOf(out, Dir, MatDir), q), {out}, MatDir);
    SameTrans(m, q, Exec(DotOf(out, Dir, MatDir), q), {MatDir}, {out}, {MatDir, out});
  }

  /** The updates of solution and residual, and the squared norm. */
  lemma UpdateViews(m: Memory, view: nat, s: System, st: State, a: Coefficient, na: Coefficient, out: Cell)
    requires Holds(m, view, s, st, true) && Get(m, MatDir) == s.A(st.dir)
    requires a.Value(m) == StepSize(s, st) && na.Value(m) == -StepSize(s, st)
    requires out !in {MatValues, Rhs, Sol(view), Res, Dir} && na.Reads() !! {Sol(view)}
    ensures var u := Exec(Combine(a, Dir, Literal(1.0), Sol(view)), m);
            var v := Exec(Combine(na, MatDir, Literal(1.0), Res), u);
            var w := Exec(DotOf(out, Res, Res), v);
            && Scalar(w, out) == Dot(NextRes(s, st), NextRes(s, st))
            && Get(w, Sol(view)) == NextSol(s, st) && Get(w, Res) == NextRes(s, st) && Get(w, Dir) == st.dir
            && Same(m, w, {Sol(view), Res, out})
  {
    hide Exec, Get, Same, Dot, MatVec, StepSize, Scalar, Axpby;
    var u := Exec(Combine(a, Dir, Literal(1.0), Sol(view)), m);
    ExecCombine(m, a, Dir, Literal(1.0), Sol(view));
    SameAt(m, u, {Sol(view)}, MatDir);
    SameAt(m, u, {Sol(view)}, Res);
    SameAt(m, u, {Sol(view)}, Dir);
    ValueSame(na, m, u, {Sol(view)});
    var v := Exec(Combine(na, MatDir, Literal(1.0), Res), u);
    ExecCombine(u, na, MatDir, Literal(1.0), Res);
    SameAt(u, v, {Res}, Sol(view));
    SameAt(u, v, {Res}, Dir);
    var w := Exec(DotOf(out, Res, Res), v);
    ExecDot(v, out, Res, Res);
    SameAt(v, w, {out}, Sol(view));
    SameAt(v, w, {out}, Res);
    SameAt(v, w, {out}, Dir);
    SameTrans(m, u, v, {Sol(view)}, {Res}, {Sol(view), Res});
    SameTrans(m, v, w, {Sol(view), Res}, {out}, {Sol(view), Res, out});
  }

  lemma ValueSame(a: Coefficient, m: Memory, m': Memory, except: set<Cell>)
    requires Same(m, m', except) && a.Reads() !! except
    ensures a.Value(m) == a.Value(m')
  {
    hide Get;
  }

  /** The preconditioned residual and its product with the residual. */
  lemma Preconditioned(m: Memory, s: System, out: Cell)
    requires Get(m, MatValues) == s.vals && (s.prec.Jacobi? ==> Jacobi.DiagonalStored(s.p))
    requires out !in {Res, ResP}
    ensures var z := Run(m, Preconditioners.PrecTasks(s.p, s.prec, ResP, Res));
            var m' := Exec(DotOf(out, ResP, Res), z);
            && Get(m', ResP) == s.M(Get(m, Res))
            && Scalar(m', out) == Dot(s.M(Get(m, Res)), Get(m, Res))
            && Same(m, m', {ResP, SweepTmp, out})
  {
    hide *;
    var z := Run(m, Preconditioners.PrecTasks(s.p, s.prec, ResP, Res));
    var m' := Exec(DotOf(out, ResP, Res), z);
    SeparateResP();
    Preconditioners.PrecResult(m, s.p, s.prec, ResP, Res);
    PrecIgnoresRhs(s, Get(m, Res));
    SameIntro(m, z, {ResP, SweepTmp});
    ExecDot(z, out, ResP, Res);
    SameAt(z, m', {out}, ResP);
    SameTrans(m, z, m', {ResP, SweepTmp}, {out}, {ResP, SweepTmp, out});
  }

  lemma SeparateResP()
    ensures Preconditioners.Separate(ResP, Res)
  {}

  lemma PrecIgnoresRhs(s: System, r: Vec)
    ensures System(s.p, s.vals, [], s.prec).M(r) == s.M(r)
  {}

  lemma SameIntro(m: Memory, m': Memory, except: set<Cell>)
    requires forall c | c !in except :: Get(m', c) == Get(m, c)
    ensures Same(m, m', except)
  {}
}
