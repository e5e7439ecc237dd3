/** The heat problem on a device, and the Newton solver on top of it. */
module NewtonSolver {
  import opened Vectors
  import opened Wrappers
  import opened Csr
  import opened Tasks
  import opened Schedule
  import opened HeatMatrix
  import opened Kernels
  import opened NewtonStates
  import Heat
  import Newton
  import Krylov
  import Dev = Device
  import Queues
  import Resubmission
  import Graphs
  import Jacobi

  function ResetRhs(hp: Heat.Params): Task {
    Fill(Rhs, hp.NumDofs(), 0.0)
  }

  function ResetMat(hp: Heat.Params): Task {
    Fill(MatValues, hp.NumEntries(), 0.0)
  }

  function AssemblyNodes(hp: Heat.Params): (g: Graph) {
    [ Node(HeatFill(hp), {}), Node(ResetRhs(hp), {}), Node(ResetMat(hp), {}), Node(HeatScatter(hp), {0, 1, 2}) ]
  }

  /** The views that an assembly overwrites. */
  function Assembled(): set<Cell> {
    {ElemMats, ElemRhss, MatValues, Rhs}
  }

  lemma AssemblyOrdered(hp: Heat.Params)
    ensures WellFormed(AssemblyNodes(hp)) && ConflictOrdered(AssemblyNodes(hp))
    ensures Created(AssemblyNodes(hp)) == [HeatFill(hp), ResetRhs(hp), ResetMat(hp), HeatScatter(hp)]
  {
    var g := AssemblyNodes(hp);
    forall u: nat | u < 3 ensures Reach(g, u, 3) {
      ReachVia(g, u, u, 3);
    }
  }

  /** Only the scatter waits, for the three other kernels. */
  lemma AssemblyReach(hp: Heat.Params, u: nat, v: nat)
    ensures Reach(AssemblyNodes(hp), u, v) <==> v == 3 && u < 3
  {
    var g := AssemblyNodes(hp);
    forall w: nat | w < 3 ensures Reach(g, w, 3) {
      ReachVia(g, w, w, 3);
    }
    if Reach(g, u, v) {
      var x := Graphs.FirstEdge(g, u, v);
    }
  }

  lemma AssemblyBeside(hp: Heat.Params)
    ensures Independent(HeatFill(hp), ResetRhs(hp)) && Independent(HeatFill(hp), ResetMat(hp))
    ensures Independent(ResetRhs(hp), ResetMat(hp))
  {}

  lemma ExecAssembly(m: Memory, hp: Heat.Params)
    ensures var f := Exec(HeatFill(hp), m);
            && Get(f, ElemMats) == Heat.FillMats(hp, Get(m, LocalSol))
                && Get(f, ElemRhss) == Heat.FillRhss(hp, Get(m, LocalSol))
            && Same(m, f, {ElemMats, ElemRhss})
    ensures Get(Exec(ResetRhs(hp), m), Rhs) == Zeros(hp.NumDofs()) && Same(m, Exec(ResetRhs(hp), m), {Rhs})
    ensures Get(Exec(ResetMat(hp), m), MatValues) == Zeros(hp.NumEntries())
        && Same(m, Exec(ResetMat(hp), m), {MatValues})
    ensures var s := Exec(HeatScatter(hp), m);
            && Get(s, MatValues) == Heat.ScatterValues(hp, Get(m, ElemMats), Get(m, MatValues))
            && Get(s, Rhs) == Heat.ScatterRhs(hp, Get(m, ElemRhss), Get(m, Rhs)) && Same(m, s, {MatValues, Rhs})
  {
    hide Get, Same, Heat.FillMats, Heat.FillRhss, Heat.ScatterValues, Heat.ScatterRhs;
    ExecGet(HeatFill(hp), m, ElemMats);
    ExecGet(HeatFill(hp), m, ElemRhss);
    ExecSame(HeatFill(hp), m);
    ExecGet(ResetRhs(hp), m, Rhs);
    ExecSame(ResetRhs(hp), m);
    ExecGet(ResetMat(hp), m, MatValues);
    ExecSame(ResetMat(hp), m);
    ExecGet(HeatScatter(hp), m, MatValues);
    ExecGet(HeatScatter(hp), m, Rhs);
    ExecSame(HeatScatter(hp), m);
  }

  /** An assembly leaves the matrix and the residual of the current solution. */
  lemma AssemblyResult(m: Memory, hp: Heat.Params)
    ensures var a := Exec(HeatScatter(hp), Exec(ResetMat(hp), Exec(ResetRhs(hp), Exec(HeatFill(hp), m))));
            && Get(a, MatValues) == Heat.Values(hp, Get(m, LocalSol)) && Get(a, Rhs) == Heat.Rhs(hp, Get(m, LocalSol))
            && Same(m, a, Assembled())
  {
    hide Get, Exec, Heat.FillMats, Heat.FillRhss, Heat.ScatterValues, Heat.ScatterRhs;
    var f := Exec(HeatFill(hp), m);
    var r := Exec(ResetRhs(hp), f);
    var v := Exec(ResetMat(hp), r);
    ExecAssembly(m, hp);
    ExecAssembly(f, hp);
    ExecAssembly(r, hp);
    ExecAssembly(v, hp);
  }

  class HeatProblem {
    const hp: Heat.Params
    const p: Pattern
    /** Built on first use. */
    var graph: Option<Graph>

    ghost predicate Valid()
      reads this
    {
      hp.numElems >= 1 && p == HeatPattern(hp) && (graph.Some? ==> graph.value == AssemblyNodes(hp))
    }

    /** Build the pattern, and launch the kernel that writes the initial guess. */
    constructor (dev: Dev.Device, hp: Heat.Params)
      requires dev.Valid() && hp.numElems >= 1
      requires Clear(dev.pending, A, [InitialGuess(hp.NumDofs(), hp.H())])
      modifies dev`memory, dev`pending, dev`next
      ensures Valid() && this.hp == hp
      ensures dev.Valid() && Grown(old(dev.pending), dev.pending, A, [InitialGuess(hp.NumDofs(), hp.H())])
      ensures Get(dev.Flushed(), LocalSol) == Heat.Guess(hp.NumDofs(), hp.H())
      ensures Heat.Descends(Get(dev.Flushed(), LocalSol), hp.H())
      ensures Same(old(dev.Flushed()), dev.Flushed(), {LocalSol})
    {
      ghost var m := dev.Flushed();
      var rowMap := InitRowMap(hp);
      var entries := InitEntries(hp);
      this.hp := hp;
      this.p := Pattern(rowMap.data, entries.data);
      this.graph := None;
      new;
      dev.Launch(A, InitialGuess(hp.NumDofs(), hp.H()));
      GuessResult(m, hp.NumDofs(), hp.H());
      Heat.GuessDescends(Get(dev.Flushed(), LocalSol), hp.H());
    }

    /** Fill on one stream beside the resets on two others, then scatter. */
    method AssembleStreams(dev: Dev.Device)
      requires Valid() && dev.Valid()
      requires forall x | x in dev.pending ::
                 x.stream == A && Independent(x.task, ResetRhs(hp)) && Independent(x.task, ResetMat(hp))
      modifies dev`memory, dev`pending, dev`next, dev`waits
      ensures dev.Valid() && forall x | x in dev.pending :: x.stream == A
      ensures dev.Flushed() == Run(old(dev.Flushed()), Created(AssemblyNodes(hp)))
      ensures dev.waits == old(dev.waits) + [B, C]
    {
      ghost var m := dev.Flushed();
      AssemblyBeside(hp);
      AssemblyOrdered(hp);
      AssemblyRun(m, hp);
      hide Dev.Device.Flushed, Dev.Device.Valid, Independent, Exec, ResetRhs, ResetMat;
      var fill, rhs, mat, scatter := HeatFill(hp), ResetRhs(hp), ResetMat(hp), HeatScatter(hp);
      dev.Launch(A, fill);
      assert forall x | x in dev.pending :: x.stream == A && Independent(x.task, rhs) && Independent(x.task, mat);
      dev.Launch(B, rhs);
      assert forall x | x in dev.pending :: x.stream == C || Independent(x.task, mat);
      dev.Launch(C, mat);
      dev.Fence(B);
      dev.Fence(C);
      dev.Launch(A, scatter);
    }

    /** The same kernels as a graph. */
    method AssembleGraph(dev: Dev.Device)
      requires Valid() && dev.Valid()
      requires forall x | x in dev.pending :: x.stream == A
      modifies dev`memory, dev`pending, dev`next, this`graph
      ensures Valid() && dev.Valid() && forall x | x in dev.pending :: x.stream == A
      ensures dev.Flushed() == Run(old(dev.Flushed()), Created(AssemblyNodes(hp)))
    {
      hide Dev.Device.Flushed, Dev.Device.Valid, ConflictOrdered, WellFormed;
      if graph.None? {
        var g, fill, rhs, mat, scatter;
        g, fill := Graphs.AddNode([], {}, HeatFill(hp));
        g, rhs := Graphs.AddNode(g, {}, ResetRhs(hp));
        g, mat := Graphs.AddNode(g, {}, ResetMat(hp));
        g, scatter := Graphs.AddNode(g, {fill, rhs, mat}, HeatScatter(hp));
        graph := Some(g);
      }
      AssemblyOrdered(hp);
      assert graph.value == AssemblyNodes(hp);
      dev.Submit(A, graph.value);
    }
  }

  lemma GuessResult(m: Memory, size: nat, step: real)
    ensures Get(Exec(InitialGuess(size, step), m), LocalSol) == Heat.Guess(size, step)
    ensures Same(m, Exec(InitialGuess(size, step), m), {LocalSol})
  {
    hide Heat.Guess;
  }

  lemma AssemblyRun(m: Memory, hp: Heat.Params)
    ensures Run(m, Created(AssemblyNodes(hp)))
         == Exec(HeatScatter(hp), Exec(ResetMat(hp), Exec(ResetRhs(hp), Exec(HeatFill(hp), m))))
  {
    hide Run, Exec;
    AssemblyOrdered(hp);
    Graphs.RunThree(m, HeatFill(hp), ResetRhs(hp), ResetMat(hp));
    RunAppend(m, [HeatFill(hp), ResetRhs(hp), ResetMat(hp)], HeatScatter(hp));
    assert [HeatFill(hp), ResetRhs(hp), ResetMat(hp)] + [HeatScatter(hp)] == Created(AssemblyNodes(hp));
  }

  // ------------------------------------------------------------------------
  // The solver.
  // ------------------------------------------------------------------------

  /** The views hold the Newton state, and the matrix and residual assembled at it. */
  ghost predicate Ready(m: Memory, view: nat, hp: Heat.Params, pt: Point) {
    && Get(m, LocalSol) == pt.u && Get(m, Sol(view)) == pt.delta
    && Get(m, MatValues) == Heat.Values(hp, pt.u) && Get(m, Rhs) == Heat.Rhs(hp, pt.u)
  }

  /** What the host waits for in an assembly with its residual norm. */
  function AssemblyWaits(graphAssembly: bool): seq<nat> {
    if graphAssembly then [A] else [B, C, A]
  }

  /** What it waits for in the linear solve of an iteration. */
  function SolveWaits(c: Setup, pt: Point): seq<nat> {
    var first, o := Krylov.Norm2(Newton.LinearSystem(c.hp, pt.u, c.prec), pt.delta, 0), LinearSolve(c, pt.u, pt.delta);
    if c.useGraph then Graphs.GraphWaits(first, c.tol, o.iters) else Queues.PcgWaits(first, c.tol, o.norm2, o.iters)
  }

  /** What it waits for in a solve with k iterations. */
  function NewtonWaits(graphAssembly: bool, c: Setup, u0: Vec, k: nat): seq<nat> {
    if k == 0 then AssemblyWaits(graphAssembly)
    else
      NewtonWaits(graphAssembly, c, u0, k - 1) + SolveWaits(c, PointAt(c, u0, k - 1)) + AssemblyWaits(graphAssembly)
  }

  lemma NewtonWaitsStep(graphAssembly: bool, c: Setup, u0: Vec, k: nat, before: seq<nat>)
    ensures before + AssemblyWaits(graphAssembly) == before + NewtonWaits(graphAssembly, c, u0, 0)
    ensures before + NewtonWaits(graphAssembly, c, u0, k) + SolveWaits(c, PointAt(c, u0, k))
          + AssemblyWaits(graphAssembly)
         == before + NewtonWaits(graphAssembly, c, u0, k + 1)
  {
    hide SolveWaits, AssemblyWaits, PointAt;
  }

  /** With graphs for the linear solver the host waits once for every linear solve and every inner iteration. */
  lemma {:induction false} NewtonWaitCount(graphAssembly: bool, c: Setup, u0: Vec, k: nat)
    requires c.useGraph
    ensures |NewtonWaits(graphAssembly, c, u0, k)|
         == (if graphAssembly then 1 + k else 3 + 3 * k) + k + PointAt(c, u0, k).inner
  {
    hide LinearSolve, SolveWaits, Newton.Subtracted;
    if k > 0 {
      NewtonWaitCount(graphAssembly, c, u0, k - 1);
      SolveWaitCount(c, PointAt(c, u0, k - 1));
    }
  }

  lemma SolveWaitCount(c: Setup, pt: Point)
    requires c.useGraph
    ensures |SolveWaits(c, pt)| == 1 + LinearSolve(c, pt.u, pt.delta).iters
  {
    hide LinearSolve, Krylov.Norm2, Krylov.Beneath, Newton.LinearSystem, Repeated;
    GraphStart(c, pt.u, pt.delta);
    RepeatedLength([A], 1 + LinearSolve(c, pt.u, pt.delta).iters);
  }

  lemma ReadyAfterAssembly(m: Memory, view: nat, hp: Heat.Params, u: Vec, delta: Vec, inner: nat)
    requires Get(m, LocalSol) == u && Get(m, Sol(view)) == delta
    ensures Ready(Run(m, Created(AssemblyNodes(hp))), view, hp, Point(u, delta, inner))
    ensures Ready(Exec(DotOf(Host, Rhs, Rhs), Run(m, Created(AssemblyNodes(hp)))), view, hp, Point(u, delta, inner))
  {
    hide Get, Run, Exec, Heat.Values, Heat.Rhs, AssemblyNodes;
    AssemblyRun(m, hp);
    AssemblyResult(m, hp);
    var a := Run(m, Created(AssemblyNodes(hp)));
    ExecDot(a, Host, Rhs, Rhs);
  }

  lemma ReadyFits(m: Memory, view: nat, hp: Heat.Params, pt: Point, prec: Krylov.Prec)
    requires Ready(m, view, hp, pt) && hp.numElems >= 1 && |pt.delta| == hp.NumDofs()
    ensures Queues.SystemIn(m, HeatPattern(hp), prec) == Newton.LinearSystem(hp, pt.u, prec)
    ensures Queues.Fits(Queues.SystemIn(m, HeatPattern(hp), prec), Get(m, Sol(view)))
  {
    hide Get, Heat.Values, HeatPattern, Jacobi.DiagonalStored;
    PatternWellFormed(hp);
    PatternDiagonal(hp);
  }

  lemma ExecSubtract(m: Memory, view: nat)
    ensures Get(Exec(Subtract(LocalSol, Sol(view)), m), LocalSol)
         == Newton.Subtracted(Get(m, LocalSol), Get(m, Sol(view)))
    ensures Get(Exec(Subtract(LocalSol, Sol(view)), m), Sol(view)) == Get(m, Sol(view))
  {
    hide Axpby;
  }

  lemma SubtractBeside(hp: Heat.Params, view: nat)
    ensures Independent(Subtract(LocalSol, Sol(view)), ResetRhs(hp))
    ensures Independent(Subtract(LocalSol, Sol(view)), ResetMat(hp))
    ensures Independent(Fill(Sol(view), hp.NumDofs(), 0.0), ResetRhs(hp))
    ensures Independent(Fill(Sol(view), hp.NumDofs(), 0.0), ResetMat(hp))
  {}

  /** One of the two conjugate gradient solvers. */
  class LinearSolver {
    const useGraph: bool
    const queue: Queues.PCGQueue
    const graph: Graphs.PCGGraph

    ghost predicate Valid()
      reads graph, graph.preconditioner, queue.preconditioner
    {
      && graph.Valid() && graph.preconditioner.p == queue.preconditioner.p
      && graph.preconditioner.prec == queue.preconditioner.prec
    }

    constructor (useGraph: bool, p: Pattern, prec: Krylov.Prec, serial: bool)
      ensures Valid() && queue.preconditioner.p == p && queue.preconditioner.prec == prec && this.useGraph == useGraph
      ensures fresh(graph) && fresh(graph.preconditioner) && fresh(queue.preconditioner) && graph.graph.None?
    {
      this.useGraph := useGraph;
      this.queue := new Queues.PCGQueue(p, prec);
      this.graph := new Graphs.PCGGraph(p, prec, serial);
    }

    /** How a solve into the given view will go. */
    ghost function Configuration(hp: Heat.Params, view: nat, tol: real, maxIters: nat): Setup
      reads graph, graph.preconditioner, queue.preconditioner
    {
      Setup(hp, useGraph, queue.preconditioner.prec, graph.InGraph(), graph.Target(view) == view, tol, maxIters)
    }

    lemma ConfigurationHp(hp: Heat.Params, view: nat, tol: real, maxIters: nat)
      ensures var c := Configuration(hp, view, tol, maxIters);
              c.hp == hp && c == Configuration(c.hp, view, tol, maxIters)
    {}

    /** Nothing to do for the linear solver, so that it returns before it would build its graph. */
    ghost predicate Unneeded(c: Setup, pt: Point)
    {
      !c.useGraph || Krylov.Beneath(Krylov.Norm2(Newton.LinearSystem(c.hp, pt.u, c.prec), pt.delta, 0), c.tol)
    }

    method Apply(dev: Dev.Device, view: nat, tol: real, maxIters: nat, ghost c: Setup, ghost pt: Point)
      returns (norm2: real, iters: nat)
      requires Valid() && dev.Valid() && dev.pending == [] && c == Configuration(c.hp, view, tol, maxIters)
      requires queue.preconditioner.p == HeatPattern(c.hp) && c.hp.numElems >= 1
      requires Ready(dev.Flushed(), view, c.hp, pt) && |pt.delta| == c.hp.NumDofs()
      modifies dev`memory, dev`pending, dev`next, dev`waits, graph`graph, graph`built, graph`captured
      ensures Valid() && c == Configuration(c.hp, view, tol, maxIters) && dev.Valid() && dev.pending == []
      ensures graph.Target(view) == old(graph.Target(view))
      ensures graph.graph.None? <==> old(graph.graph.None?) && Unneeded(c, pt)
      ensures Krylov.Outcome(Get(dev.Flushed(), Sol(view)), norm2, iters) == LinearSolve(c, pt.u, pt.delta)
      ensures Get(dev.Flushed(), LocalSol) == pt.u
      ensures dev.waits == old(dev.waits) + SolveWaits(c, pt)
    {
      ghost var m, w := dev.Flushed(), graph.Target(view);
      hide Dev.Device.Flushed, Dev.Device.Valid, Krylov.Loop, Resubmission.Passed, Resubmission.GraphRun, HeatPattern,
           Newton.LinearSystem, Queues.SystemIn, Queues.Fits, Same, Ready, Get, Graphs.PcgNodes, Krylov.Norm2,
           Krylov.Beneath, Graphs.GraphWaits, Queues.PcgWaits;
      ReadyFits(m, view, c.hp, pt, c.prec);
      ReadyFits(m, view, c.hp, pt, c.built);
      ReadyParts(m, view, c.hp, pt);
      if useGraph {
        norm2, iters := graph.Apply(dev, view, tol, maxIters);
        SameLocal(m, dev.Flushed(), w);
      } else {
        norm2, iters := queue.Apply(dev, view, tol, maxIters);
        SameLocal(m, dev.Flushed(), view);
      }
      EmptyOrMember(dev.pending);
    }
  }

  lemma ReadyParts(m: Memory, view: nat, hp: Heat.Params, pt: Point)
    requires Ready(m, view, hp, pt)
    ensures Get(m, Sol(view)) == pt.delta && Get(m, LocalSol) == pt.u
  {}

  lemma SameLocal(m: Memory, m': Memory, view: nat)
    requires Same(m, m', Owned(view))
    ensures Get(m, LocalSol) == Get(m', LocalSol)
  {}

  class Solver {
    const problem: HeatProblem
    const linearSolver: LinearSolver
    const graphAssembly: bool

    ghost predicate Valid()
      reads problem, linearSolver.graph, linearSolver.graph.preconditioner, linearSolver.queue.preconditioner
    {
      problem.Valid() && linearSolver.Valid() && linearSolver.queue.preconditioner.p == problem.p
    }

    /** The graph of the linear solver updates a view that was allocated before. */
    ghost predicate Allocated(dev: Dev.Device)
      reads dev, linearSolver.graph
    {
      linearSolver.graph.graph.Some? ==> linearSolver.graph.captured < dev.views
    }

    constructor (problem: HeatProblem, linearSolver: LinearSolver, graphAssembly: bool)
      ensures this.problem == problem && this.linearSolver == linearSolver && this.graphAssembly == graphAssembly
    {
      this.problem := problem;
      this.linearSolver := linearSolver;
      this.graphAssembly := graphAssembly;
    }

    /** What the iteration depends on: a linear solver is attached unless an earlier solve built its graph. */
    ghost function Configuration(tol: real, maxIters: nat): Setup
      reads linearSolver.graph, linearSolver.graph.preconditioner, linearSolver.queue.preconditioner
    {
      Setup(problem.hp, linearSolver.useGraph, linearSolver.queue.preconditioner.prec, linearSolver.graph.InGraph(),
        linearSolver.graph.graph.None?, tol, maxIters)
    }

    /** Assemble, and reduce the residual norm. */
    method Assemble(dev: Dev.Device, ghost view: nat, ghost pt: Point) returns (norm2: real)
      requires Valid() && dev.Valid()
      requires forall x | x in dev.pending ::
                 x.stream == A && Independent(x.task, ResetRhs(problem.hp)) && Independent(x.task, ResetMat(problem.hp))
      requires Get(dev.Flushed(), LocalSol) == pt.u && Get(dev.Flushed(), Sol(view)) == pt.delta
      modifies dev`memory, dev`pending, dev`next, dev`waits, problem`graph
      ensures Valid() && dev.Valid() && dev.pending == []
      ensures Ready(dev.Flushed(), view, problem.hp, pt)
      ensures norm2 == Dot(Heat.Rhs(problem.hp, pt.u), Heat.Rhs(problem.hp, pt.u))
      ensures dev.waits == old(dev.waits) + AssemblyWaits(graphAssembly)
    {
      hide Dev.Device.Flushed, Dev.Device.Valid, Independent, Ready, Get, Dot, AssemblyNodes, HeatPattern,
           Graphs.PcgNodes, ResetRhs, ResetMat;
      ReadyAfterAssembly(dev.Flushed(), view, problem.hp, pt.u, pt.delta, pt.inner);
      if graphAssembly {
        problem.AssembleGraph(dev);
      } else {
        problem.AssembleStreams(dev);
      }
      ReadyRhs(dev.Flushed(), view, problem.hp, pt);
      norm2 := dev.HostDot(A, Rhs, Rhs);
      EmptyOrMember(dev.pending);
    }

    /** One Newton iteration. */
    method Step(dev: Dev.Device, view: nat, linTol: real, linMaxIters: nat, ghost c: Setup, ghost pt: Point)
      returns (norm2: real, iters: nat)
      requires Valid() && dev.Valid() && dev.pending == []
      requires c == linearSolver.Configuration(problem.hp, view, linTol, linMaxIters)
      requires Ready(dev.Flushed(), view, c.hp, pt) && |pt.delta| == c.hp.NumDofs()
      modifies dev`memory, dev`pending, dev`next, dev`waits, problem`graph
      modifies linearSolver.graph`graph, linearSolver.graph`built, linearSolver.graph`captured
      ensures Valid() && dev.Valid() && dev.pending == []
      ensures c == linearSolver.Configuration(problem.hp, view, linTol, linMaxIters)
      ensures linearSolver.graph.Target(view) == old(linearSolver.graph.Target(view))
      ensures linearSolver.graph.graph.None? <==> old(linearSolver.graph.graph.None?) && linearSolver.Unneeded(c, pt)
      ensures Ready(dev.Flushed(), view, c.hp, Next(c, pt)) && iters == LinearSolve(c, pt.u, pt.delta).iters
      ensures norm2 == Dot(Heat.Rhs(c.hp, Next(c, pt).u), Heat.Rhs(c.hp, Next(c, pt).u))
      ensures dev.waits == old(dev.waits) + SolveWaits(c, pt) + AssemblyWaits(graphAssembly)
    {
      hide *;
      linearSolver.ConfigurationHp(problem.hp, view, linTol, linMaxIters);
      ValidParts();
      var linNorm2;
      linNorm2, iters := linearSolver.Apply(dev, view, linTol, linMaxIters, c, pt);
      ValidWhole();
      NextIs(c, pt);
      ExecSubtract(dev.Flushed(), view);
      SubtractBeside(problem.hp, view);
      EmptyClear(A, Subtract(LocalSol, Sol(view)));
      dev.Launch(A, Subtract(LocalSol, Sol(view)));
      GrownFromEmpty(dev.pending, A, Subtract(LocalSol, Sol(view)));
      norm2 := Assemble(dev, view, Next(c, pt));
    }

    /** The graph of the linear solver is built by the first iteration that needs it. */
    ghost predicate Unbuilt(c: Setup, u0: Vec, k: nat)
    {
      forall j: nat | j < k :: linearSolver.Unneeded(c, PointAt(c, u0, j))
    }

    /** The loop, from the first assembly on. */
    method Iterate(dev: Dev.Device, view: nat, first: real, tol: real, maxIters: nat, linTol: real, linMaxIters: nat,
        ghost c: Setup, ghost u0: Vec, ghost waited: seq<nat>)
      returns (norm2: real, outer: nat, inner: nat)
      requires Valid() && dev.Valid() && dev.pending == []
      requires c == linearSolver.Configuration(problem.hp, view, linTol, linMaxIters)
      requires Ready(dev.Flushed(), view, c.hp, PointAt(c, u0, 0)) && first == Norm2At(c, u0, 0)
      requires dev.waits == waited + NewtonWaits(graphAssembly, c, u0, 0)
      modifies dev`memory, dev`pending, dev`next, dev`waits, problem`graph
      modifies linearSolver.graph`graph, linearSolver.graph`built, linearSolver.graph`captured
      ensures Valid() && dev.Valid() && dev.pending == []
      ensures c == linearSolver.Configuration(problem.hp, view, linTol, linMaxIters)
      ensures linearSolver.graph.Target(view) == old(linearSolver.graph.Target(view))
      ensures Result(Get(dev.Flushed(), LocalSol), norm2, outer, inner) == NewtonLoop(c, u0, tol, maxIters, 0)
      ensures Ready(dev.Flushed(), view, c.hp, PointAt(c, u0, outer))
      ensures dev.waits == waited + NewtonWaits(graphAssembly, c, u0, outer)
      ensures linearSolver.graph.graph.None? <==> old(linearSolver.graph.graph.None?) && Unbuilt(c, u0, outer)
    {
      hide *;
      NewtonCases(c, u0, tol, maxIters, 0);
      norm2, outer, inner := first, 0, 0;
      UnbuiltStep(c, u0, 0);
      while Krylov.Exceeds(norm2, tol) && outer < maxIters
        invariant Valid() && c == linearSolver.Configuration(problem.hp, view, linTol, linMaxIters)
        invariant dev.Valid() && dev.pending == [] && outer <= maxIters
        invariant linearSolver.graph.Target(view) == old(linearSolver.graph.Target(view))
        invariant linearSolver.graph.graph.None? <==> old(linearSolver.graph.graph.None?) && Unbuilt(c, u0, outer)
        invariant Ready(dev.Flushed(), view, c.hp, PointAt(c, u0, outer))
        invariant dev.waits == waited + NewtonWaits(graphAssembly, c, u0, outer)
        invariant norm2 == Norm2At(c, u0, outer) && inner == PointAt(c, u0, outer).inner
        invariant NewtonLoop(c, u0, tol, maxIters, 0) == NewtonLoop(c, u0, tol, maxIters, outer)
      {
        ghost var pt := PointAt(c, u0, outer);
        NewtonCases(c, u0, tol, maxIters, outer);
        PointSized(c, u0, outer);
        NextIs(c, pt);
        UnbuiltStep(c, u0, outer);
        NewtonWaitsStep(graphAssembly, c, u0, outer, waited);
        var linIters;
        norm2, linIters := Step(dev, view, linTol, linMaxIters, c, pt);
        inner := inner + linIters;
        outer := outer + 1;
        Norm2Is(c, u0, outer);
      }
      NewtonCases(c, u0, tol, maxIters, outer);
      ReadyParts(dev.Flushed(), view, c.hp, PointAt(c, u0, outer));
    }

    lemma UnbuiltStep(c: Setup, u0: Vec, k: nat)
      ensures Unbuilt(c, u0, 0)
      ensures Unbuilt(c, u0, k + 1) <==> Unbuilt(c, u0, k) && linearSolver.Unneeded(c, PointAt(c, u0, k))
    {
      hide PointAt, LinearSolver.Unneeded;
    }

    lemma ValidParts()
      requires Valid()
      ensures problem.Valid() && linearSolver.Valid() && linearSolver.queue.preconditioner.p == problem.p
      ensures problem.p == HeatPattern(problem.hp) && problem.hp.numElems >= 1
    {
      hide HeatPattern;
    }

    lemma ValidWhole()
      requires problem.Valid() && linearSolver.Valid() && linearSolver.queue.preconditioner.p == problem.p
      ensures Valid()
    {}

    /** The step of this iteration is a new view, which no graph that is already built can update. */
    lemma FreshView(dev: Dev.Device, view: nat, tol: real, maxIters: nat)
      requires Allocated(dev) && view == dev.views
      ensures linearSolver.Configuration(problem.hp, view, tol, maxIters) == Configuration(tol, maxIters)
      ensures linearSolver.graph.Target(view) <= view
    {}

    /**
     * Iterate. Whatever the device does in between, the outcome is that of the sequential Newton iteration, with an
     * attached linear solver as long as no earlier call built its graph, and with a detached one afterwards.
     */
    method Solve(dev: Dev.Device, tol: real, maxIters: nat, linTol: real, linMaxIters: nat)
      returns (norm2: real, outer: nat, inner: nat)
      requires Valid() && dev.Valid() && Allocated(dev)
      requires forall x | x in dev.pending ::
                 x.stream == A && Independent(x.task, ResetRhs(problem.hp)) && Independent(x.task, ResetMat(problem.hp))
      modifies dev, problem`graph
      modifies linearSolver.graph`graph, linearSolver.graph`built, linearSolver.graph`captured
      ensures Valid() && dev.Valid() && dev.pending == [] && Allocated(dev)
      ensures var c, u0 := old(Configuration(linTol, linMaxIters)), Get(old(dev.Flushed()), LocalSol);
              && Result(Get(dev.Flushed(), LocalSol), norm2, outer, inner) == NewtonLoop(c, u0, tol, maxIters, 0)
              && Ready(dev.Flushed(), old(dev.views), problem.hp, PointAt(c, u0, outer))
              && (linearSolver.graph.graph.None? <==> old(linearSolver.graph.graph.None?) && Unbuilt(c, u0, outer))
              && Configuration(linTol, linMaxIters) == c.(attached := linearSolver.graph.graph.None?)
              && dev.waits == old(dev.waits) + NewtonWaits(graphAssembly, c, u0, outer)
    {
      ghost var c, u0, waited := Configuration(linTol, linMaxIters), Get(dev.Flushed(), LocalSol), dev.waits;
      hide *;
      FreshView(dev, dev.views, linTol, linMaxIters);
      linearSolver.ConfigurationHp(problem.hp, dev.views, linTol, linMaxIters);
      var view;
      view, norm2 := Begin(dev, c, u0);
      norm2, outer, inner := Iterate(dev, view, norm2, tol, maxIters, linTol, linMaxIters, c, u0, waited);
      StillAllocated(dev, view);
      Later(c, view, linTol, linMaxIters);
    }

    /** The configuration of the next call. */
    lemma Later(c: Setup, view: nat, tol: real, maxIters: nat)
      requires c == linearSolver.Configuration(problem.hp, view, tol, maxIters)
      ensures Configuration(tol, maxIters) == c.(attached := linearSolver.graph.graph.None?)
    {}

    /** Allocate the step and launch the kernel that zeroes it. */
    method NewStep(dev: Dev.Device) returns (view: nat)
      requires dev.Valid()
      requires forall x | x in dev.pending ::
                 x.stream == A && Independent(x.task, ResetRhs(problem.hp)) && Independent(x.task, ResetMat(problem.hp))
      modifies dev
      ensures dev.Valid() && view == old(dev.views) && dev.views == view + 1
      ensures forall x | x in dev.pending ::
                x.stream == A && Independent(x.task, ResetRhs(problem.hp)) && Independent(x.task, ResetMat(problem.hp))
      ensures Get(dev.Flushed(), Sol(view)) == Zeros(problem.hp.NumDofs())
      ensures Get(dev.Flushed(), LocalSol) == Get(old(dev.Flushed()), LocalSol)
      ensures dev.waits == old(dev.waits)
    {
      hide *;
      view := dev.Allocate();
      var t := Fill(Sol(view), problem.hp.NumDofs(), 0.0);
      SubtractBeside(problem.hp, view);
      FillResult(dev.Flushed(), view, problem.hp);
      ClearOn(dev.pending, A, t);
      dev.Launch(A, t);
      GrownBeside(old(dev.pending), dev.pending, problem.hp, t);
    }

    /** Up to the first residual norm. */
    method Begin(dev: Dev.Device, ghost c: Setup, ghost u0: Vec) returns (view: nat, norm2: real)
      requires Valid() && dev.Valid() && c.hp == problem.hp && u0 == Get(dev.Flushed(), LocalSol)
      requires forall x | x in dev.pending ::
                 x.stream == A && Independent(x.task, ResetRhs(problem.hp)) && Independent(x.task, ResetMat(problem.hp))
      modifies dev, problem`graph
      ensures Valid() && dev.Valid() && dev.pending == [] && view == old(dev.views) && dev.views == view + 1
      ensures Ready(dev.Flushed(), view, c.hp, PointAt(c, u0, 0)) && norm2 == Norm2At(c, u0, 0)
      ensures dev.waits == old(dev.waits) + NewtonWaits(graphAssembly, c, u0, 0)
    {
      hide *;
      NewtonCases(c, u0, 0.0, 0, 0);
      view := NewStep(dev);
      NewtonWaitsStep(graphAssembly, c, u0, 0, dev.waits);
      norm2 := Assemble(dev, view, PointAt(c, u0, 0));
      Norm2Is(c, u0, 0);
    }

    lemma StillAllocated(dev: Dev.Device, view: nat)
      requires linearSolver.graph.Target(view) <= view < dev.views
      ensures Allocated(dev)
    {}
  }

  lemma ClearOn(pending: seq<Item>, stream: nat, t: Task)
    requires forall x | x in pending :: x.stream == stream
    ensures Clear(pending, stream, [t])
  {}

  lemma EmptyClear(stream: nat, t: Task)
    ensures Clear([], stream, [t])
  {}

  lemma GrownFromEmpty(pending: seq<Item>, stream: nat, t: Task)
    requires Grown([], pending, stream, [t])
    ensures forall x | x in pending :: x.stream == stream && x.task == t
  {}

  /** What is launched beside the resets leaves room for them. */
  lemma GrownBeside(before: seq<Item>, after: seq<Item>, hp: Heat.Params, t: Task)
    requires forall x | x in before ::
               x.stream == A && Independent(x.task, ResetRhs(hp)) && Independent(x.task, ResetMat(hp))
    requires Grown(before, after, A, [t]) && Independent(t, ResetRhs(hp)) && Independent(t, ResetMat(hp))
    ensures forall x | x in after ::
               x.stream == A && Independent(x.task, ResetRhs(hp)) && Independent(x.task, ResetMat(hp))
  {
    hide Independent, ResetRhs, ResetMat;
  }

  lemma ReadyRhs(m: Memory, view: nat, hp: Heat.Params, pt: Point)
    requires Ready(Exec(DotOf(Host, Rhs, Rhs), m), view, hp, pt)
    ensures Get(m, Rhs) == Heat.Rhs(hp, pt.u)
  {
    hide Heat.Rhs, Heat.Values, Exec;
    ExecDot(m, Host, Rhs, Rhs);
  }

  lemma FillResult(m: Memory, view: nat, hp: Heat.Params)
    ensures Get(Exec(Fill(Sol(view), hp.NumDofs(), 0.0), m), Sol(view)) == Zeros(hp.NumDofs())
    ensures Get(Exec(Fill(Sol(view), hp.NumDofs(), 0.0), m), LocalSol) == Get(m, LocalSol)
  {}
}
