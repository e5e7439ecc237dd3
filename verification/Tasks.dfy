/** Device work: tasks with what they read and write, and the device that runs them out of order. */
module Tasks {
  import opened Vectors
  import opened Csr
  import Jacobi
  import Heat

  /**
   * The device and pinned views of the solvers. A scalar is a vector of length one. A solution view is passed
   * by the caller, so that there may be several of them.
   */
  datatype Cell =
    | Sol(id: nat) | Rhs | Res | ResP | Dir | MatDir | SweepTmp | Pinned | Host
    | Tmp | Alpha | AlphaNeg | RhoOld | ResDot
    | MatValues | LocalSol | ElemMats | ElemRhss

  type Memory = map<Cell, Vec>

  function Get(m: Memory, c: Cell): Vec {
    if c in m then m[c] else []
  }

  function Scalar(m: Memory, c: Cell): real {
    At(Get(m, c), 0)
  }

  /** A coefficient of axpby: a host value captured at launch, or a view read when the kernel runs. */
  datatype Coefficient = Literal(value: real) | View(cell: Cell) {

    function Value(m: Memory): real {
      match this
      case Literal(v) => v
      case View(c) => Scalar(m, c)
    }

    function Reads(): set<Cell> {
      if View? then {cell} else {}
    }
  }

  datatype Task =
    | Copy(dst: Cell, src: Cell)
    | Fill(dst: Cell, size: nat, value: real)
    | Spmv(p: Pattern, alpha: real, x: Cell, beta: real, y: Cell)
    | DotOf(out: Cell, x: Cell, y: Cell)
    | Combine(ca: Coefficient, x: Cell, cb: Coefficient, y: Cell)
    | AlphaOf(num: Cell, den: Cell)
    | DivideAndSwap(a: Cell, b: Cell)
    | FirstPass(p: Pattern, dst: Cell, src: Cell)
    | Sweep(p: Pattern, x: Cell, src: Cell, next: Cell)
    | HeatFill(hp: Heat.Params)
    | HeatScatter(hp: Heat.Params)
    | Subtract(dst: Cell, src: Cell)
    | InitialGuess(size: nat, step: real)

  function Reads(t: Task): set<Cell> {
    match t
    case Copy(dst, src) => {src}
    case Fill(dst, size, value) => {}
    case Spmv(p, alpha, x, beta, y) => {MatValues, x} + (if beta == 0.0 then {} else {y})
    case DotOf(out, x, y) => {x, y}
    case Combine(ca, x, cb, y) => ca.Reads() + cb.Reads() + {x, y}
    case AlphaOf(num, den) => {num, den}
    case DivideAndSwap(a, b) => {a, b}
    case FirstPass(p, dst, src) => {MatValues, dst, src}
    case Sweep(p, x, src, next) => {MatValues, x, src}
    case HeatFill(hp) => {LocalSol}
    case HeatScatter(hp) => {ElemMats, ElemRhss, MatValues, Rhs}
    case Subtract(dst, src) => {dst, src}
    case InitialGuess(size, step) => {}
  }

  function Writes(t: Task): set<Cell> {
    match t
    case Copy(dst, src) => {dst}
    case Fill(dst, size, value) => {dst}
    case Spmv(p, alpha, x, beta, y) => {y}
    case DotOf(out, x, y) => {out}
    case Combine(ca, x, cb, y) => {y}
    case AlphaOf(num, den) => {Alpha, AlphaNeg}
    case DivideAndSwap(a, b) => {a, b}
    case FirstPass(p, dst, src) => {dst}
    case Sweep(p, x, src, next) => {next}
    case HeatFill(hp) => {ElemMats, ElemRhss}
    case HeatScatter(hp) => {MatValues, Rhs}
    case Subtract(dst, src) => {dst}
    case InitialGuess(size, step) => {LocalSol}
  }

  /** y = beta * y + alpha * A x. A zero beta does not read y. */
  function SpmvValue(p: Pattern, vals: Vec, alpha: real, x: Vec, beta: real, y: Vec): (r: Vec) {
    if beta == 0.0 then Axpby(alpha, MatVec(p, vals, x), 0.0, MatVec(p, vals, x))
    else Axpby(alpha, MatVec(p, vals, x), beta, y)
  }

  /** The cells a task overwrites, with their new contents. */
  function Update(t: Task, m: Memory): Memory {
    match t
    case Copy(dst, src) => map[dst := Get(m, src)]
    case Fill(dst, size, value) => map[dst := seq(size, i => value)]
    case Spmv(p, alpha, x, beta, y) =>
      map[y := SpmvValue(p, Get(m, MatValues), alpha, Get(m, x), beta, if beta == 0.0 then [] else Get(m, y))]
    case DotOf(out, x, y) => map[out := [Dot(Get(m, x), Get(m, y))]]
    case Combine(ca, x, cb, y) => map[y := Axpby(ca.Value(m), Get(m, x), cb.Value(m), Get(m, y))]
    case AlphaOf(num, den) =>
      map[Alpha := [Div(Scalar(m, num), Scalar(m, den))], AlphaNeg := [-Div(Scalar(m, num), Scalar(m, den))]]
    case DivideAndSwap(a, b) =>
      map[a := [Div(Scalar(m, a), Scalar(m, b))]] + map[b := [Scalar(m, a)]]
    case FirstPass(p, dst, src) => map[dst := Jacobi.FirstPass(p, Get(m, MatValues), Get(m, dst), Get(m, src))]
    case Sweep(p, x, src, next) => map[next := Jacobi.Sweep(p, Get(m, MatValues), Get(m, src), Get(m, x))]
    case HeatFill(hp) =>
      map[ElemMats := Heat.FillMats(hp, Get(m, LocalSol)), ElemRhss := Heat.FillRhss(hp, Get(m, LocalSol))]
    case HeatScatter(hp) =>
      map[MatValues := Heat.ScatterValues(hp, Get(m, ElemMats), Get(m, MatValues)),
          Rhs := Heat.ScatterRhs(hp, Get(m, ElemRhss), Get(m, Rhs))]
    case Subtract(dst, src) => map[dst := Axpby(-1.0, Get(m, src), 1.0, Get(m, dst))]
    case InitialGuess(size, step) => map[LocalSol := Heat.Guess(size, step)]
  }

  function Exec(t: Task, m: Memory): Memory {
    m + Update(t, m)
  }

  /** Run the tasks in the given order. */
  function Run(m: Memory, ts: seq<Task>): Memory {
    if ts == [] then m else Exec(ts[|ts| - 1], Run(m, ts[..|ts| - 1]))
  }

  /** Neither task writes what the other one touches. */
  predicate Independent(t: Task, u: Task) {
    && Writes(t) !! Writes(u) && Writes(t) !! Reads(u) && Reads(t) !! Writes(u)
  }

  lemma IndependentSymmetric(t: Task, u: Task)
    ensures Independent(t, u) == Independent(u, t)
  {}

  // ------------------------------------------------------------------------
  // A task changes what it writes, and depends on what it reads.
  // ------------------------------------------------------------------------

  lemma UpdateKeys(t: Task, m: Memory)
    ensures Update(t, m).Keys == Writes(t)
  {
    hide Axpby, MatVec, Dot, Div, Jacobi.FirstPass, Jacobi.Sweep, SpmvValue;
  }

  lemma UpdateDepends(t: Task, m: Memory, m': Memory)
    requires forall c | c in Reads(t) :: Get(m, c) == Get(m', c)
    ensures Update(t, m) == Update(t, m')
  {
    hide Axpby, MatVec, Dot, Div, Jacobi.FirstPass, Jacobi.Sweep, SpmvValue, Get;
  }

  lemma ExecFrame(t: Task, m: Memory, c: Cell)
    requires c !in Writes(t)
    ensures Get(Exec(t, m), c) == Get(m, c)
  {
    UpdateKeys(t, m);
  }

  lemma ExecGet(t: Task, m: Memory, c: Cell)
    requires c in Writes(t)
    ensures c in Update(t, m) && Get(Exec(t, m), c) == Update(t, m)[c]
  {
    UpdateKeys(t, m);
  }

  /** Independent tasks commute. */
  lemma Commute(t: Task, u: Task, m: Memory)
    requires Independent(t, u)
    ensures Exec(u, Exec(t, m)) == Exec(t, Exec(u, m))
  {
    hide Update, Reads, Writes;
    forall c | c in Reads(u) ensures Get(Exec(t, m), c) == Get(m, c) {
      ExecFrame(t, m, c);
    }
    forall c | c in Reads(t) ensures Get(Exec(u, m), c) == Get(m, c) {
      ExecFrame(u, m, c);
    }
    UpdateDepends(u, Exec(t, m), m);
    UpdateDepends(t, Exec(u, m), m);
    UpdateKeys(t, m);
    UpdateKeys(u, m);
  }

  lemma {:induction false} RunFrame(m: Memory, ts: seq<Task>, c: Cell)
    requires forall t | t in ts :: c !in Writes(t)
    ensures Get(Run(m, ts), c) == Get(m, c)
  {
    hide Update, Reads, Writes, Exec;
    if ts != [] {
      RunFrame(m, ts[..|ts| - 1], c);
      ExecFrame(ts[|ts| - 1], Run(m, ts[..|ts| - 1]), c);
    }
  }

  lemma RunAppend(m: Memory, ts: seq<Task>, t: Task)
    ensures Run(m, ts + [t]) == Exec(t, Run(m, ts))
  {
    hide Exec;
    assert (ts + [t])[..|ts|] == ts;
  }

  lemma {:induction false} RunConcat(m: Memory, ts: seq<Task>, us: seq<Task>)
    ensures Run(m, ts + us) == Run(Run(m, ts), us)
  {
    hide Exec;
    if us == [] {
      assert ts + us == ts;
    } else {
      var init, last := us[..|us| - 1], us[|us| - 1];
      RunConcat(m, ts, init);
      RunAppend(m, ts + init, last);
      assert ts + us == (ts + init) + [last];
    }
  }

  /** A task independent of a whole sequence may run before it. */
  lemma {:induction false} RunBefore(m: Memory, ts: seq<Task>, t: Task)
    requires forall u | u in ts :: Independent(t, u)
    ensures Exec(t, Run(m, ts)) == Run(Exec(t, m), ts)
  {
    hide Exec, Independent;
    if ts != [] {
      var init, last := ts[..|ts| - 1], ts[|ts| - 1];
      RunBefore(m, init, t);
      Commute(t, last, Run(m, init));
    }
  }

  function Without<T>(s: seq<T>, i: nat): (r: seq<T>)
    requires i < |s|
    ensures |r| == |s| - 1
  {
    s[..i] + s[i + 1..]
  }

  /** A task independent of all earlier ones may run first. */
  lemma {:induction false} RunFirst(m: Memory, ts: seq<Task>, i: nat)
    requires i < |ts| && forall j | 0 <= j < i :: Independent(ts[i], ts[j])
    ensures Run(m, ts) == Run(Exec(ts[i], m), Without(ts, i))
  {
    hide Exec, Independent;
    var init, last := ts[..|ts| - 1], ts[|ts| - 1];
    if i == |ts| - 1 {
      RunBefore(m, init, last);
      assert Without(ts, i) == init;
    } else {
      RunFirst(m, init, i);
      RunAppend(Exec(ts[i], m), Without(init, i), last);
      assert Without(ts, i) == Without(init, i) + [last];
    }
  }
}
