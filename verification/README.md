# Asynchronous solvers and sender graphs: a verified model

This project models the numerical work that the repository runs asynchronously, directly on Kokkos execution space
instances ("queues") or through `Kokkos::Graph`, and the sender expressions that are turned into such graphs. It
proves what the solvers compute under every order in which the device may run the work, what the conjugate gradient
and Newton iterations achieve in exact arithmetic, which order a sender expression leaves between graph nodes, and
which fences a chain of work over several instances emits.

## How to read it

| file | what it holds |
|---|---|
| `Wrappers.dfy`, `Vectors.dfy`, `Csr.dfy` | optional values; real vectors, inner products, Bessel's inequality and the bound on independent families; compressed sparse row matrices |
| `Jacobi.dfy` | the two kernels of the Jacobi preconditioner, rows in any order; its iterates as a linear, symmetric operator, and when they are positive definite |
| `Krylov.dfy` | the sequential (preconditioned) conjugate gradient iteration: conjugacy, finite termination, energy |
| `Resubmission.dfy`, `StaleSweeps.dfy` | the loop of a resubmitted graph: when it does what the queue does, and what is left of it when the graph was built with another number of sweeps or for another view of the solution |
| `Tasks.dfy`, `Functors.dfy`, `Schedule.dfy`, `Device.dfy` | kernels with what they read and write; the functors of the solver graphs on arrays; schedules and task graphs; a device with in-order streams that runs pending work whenever it likes |
| `Preconditioners.dfy`, `Kernels.dfy` | preconditioners as launches and as graph nodes; what each solver kernel does to the views, and which may be in flight together |
| `Queues.dfy`, `Graphs.dfy` | `CGQueue`, `PCGQueue`, `CGGraph`, `PCGGraph` on the device |
| `Heat.dfy`, `HeatMatrix.dfy`, `Galerkin.dfy` | the element blocks of the heat problem, its sparse pattern, the scatter kernel with its atomic additions and plain stores; the assembled residual as the Galerkin discretisation of the heat equation |
| `Newton.dfy`, `NewtonStates.dfy` | the exact quadratic remainder of a Newton step, the boundary values, definiteness of the assembled matrix; the Newton iteration as a function, with an attached and with a detached linear solver |
| `NewtonRange.dfy`, `NewtonExamples.dfy` | the range of all Newton states, with the exact bound on the element size; one element in numbers, where a state leaves that range, and where a second solve does nothing |
| `NewtonSolver.dfy` | the assembly on three streams and as a graph, the Newton solver on the device |
| `SenderGraph.dfy`, `GraphState.dfy`, `GraphRuns.dfy` | sender expressions compiled to graph nodes; the lazy build, instantiate, submit and wait protocol; any sequence of connecting, dropping and starting chains |
| `Env.dfy`, `ExecChain.dfy` | receiver environments and `upsert_in_env`; chains over execution space instances with their fences and their error path |

A device holds a memory, which maps views to vectors, and the launched work that is still pending. A launch may only
be issued when everything pending on other streams is independent of it, so that a solver proved here never has two
conflicting kernels in flight, and a kernel can be taken as one step. Between any two host steps the device may run
any pending work whose predecessors are done. The contracts of the solvers speak of `Flushed()`, the memory once all
pending work is done, and hold for every such choice. A device also keeps the streams that the host has waited for, in
order, and the contracts say how often and for what a solver waits. A reduction into a host variable counts as one wait.

The convergence theorems assume `System.Sound`: a symmetric positive definite matrix and a symmetric positive definite
preconditioner. The hypothesis is met (`Resubmission.OneByOneSound` gives the smallest system), and for a symmetric
positive definite matrix its exact condition is proved: the identity, zero or an odd number of Jacobi sweeps, or a
diagonal that outweighs the rest (`Krylov.SoundSystem`). For the heat problem it holds with any number of sweeps
exactly where the assembled matrix is positive definite, and there it is at every nonnegative solution
(`Newton.LinearSystemSound`). With exact linear solves, all Newton states from all guesses between zero and one stay
between zero and one if and only if the elements are small for the reaction, h h k <= 12 (`NewtonRange.RunsExactly`);
the default parameters meet this. Together this gives an end-to-end statement about every run,
`NewtonRange.QuadraticConvergence`: a guess between zero and one, which the code's own guess is exactly up to length
one, leads to residuals that are exactly the quadratic remainders of the steps. With a tolerance for the linear solves
they differ from the remainders by at most that tolerance (`NewtonRange.InexactConvergence`).

A solution view is passed by the caller and has an identity: the cells `Sol(0)`, `Sol(1)` and so on. A graph solver
updates the view of the call that built its graph, and `Solver::solve` allocates a new one for every call.

Arithmetic is over the reals. Residual norms are returned and compared as squares, against the squared tolerance, so
that no square root is needed (`Krylov.SquaredTests`); a negative tolerance is never met, as in the source. A quotient
with a zero denominator is zero in the model; where a theorem is about values rather than about two solvers agreeing,
the denominators are proved to be nonzero (`Krylov.Denominators`) or assumed to be (`Jacobi.FixedPoint`).

## What came out

- The graph solvers and the queue solvers return the same solution, norm and iteration count exactly when the initial
  norm is below the tolerance, or is above it and at least one iteration is allowed. Otherwise, that is with a norm
  equal to the tolerance or with no iteration allowed, the graph is still submitted once
  (`Resubmission.GraphMatchesQueue`).
- `PCGGraph` captures the view of the solution in the graph that its first `apply` builds. A later `apply` on another
  view computes norm and count, but leaves the passed view unchanged: with work to do the result is right if and only
  if the graph is not built or was built for that view (`Graphs.PCGGraph.Apply`, `Resubmission.RightView`).
- `newton::Solver::solve` passes a new view on every call. From the call on after the one that built the graph of its
  `PCGGraph`, every linear solve is lost: the solution stays what it was, and all outer iterations are used up
  (`NewtonStates.DetachedLoop`). `NewtonExamples.SolveTwice` runs into this with one element: the first call makes one
  step to 11/14, the second one stays there with a residual of 121/784.
- The same graph keeps the number of sweeps that was set when it was built. A graph built with n sweeps serves a
  solver with m sweeps like a fresh one, for all systems and calls, if and only if the effective numbers are equal,
  where zero counts as one (`StaleSweeps.ServesExactly`). For any two different numbers there is a system that a fresh
  graph solves in two submissions and the stale one does not (`StaleSweeps.SweepsMatter`). The bound of n iterations
  is lost: on a system of two unknowns two submissions leave a residual (`StaleSweeps.SkewedResidual`). What survives
  for all sound preconditioners: the residual is the true one, the direction meets it in rho, and the energy decreases
  (`Resubmission.MixedConsistent`, `Resubmission.MixedEnergy`).
- With a reaction that is too strong for the element size a Newton state can leave the physical range. On every mesh
  the exact bound is h h k <= 12 (`NewtonRange.RangeExactly`); above it the first step from the state that is one at
  the boundary and zero elsewhere is negative at all other nodes. For one element `NewtonExamples.SingleElement` gives
  the condition at every single value; with length 1 and k = 100 the first step from the code's own guess leads to
  -22/53 (`NewtonExamples.StrongStep`), where the assembled matrix is not positive definite
  (`NewtonExamples.StrongIndefinite`).
- On an instantiated graph context, connecting a different chain adds no node: starting it runs the functors of the
  chain that the graph was built from (`GraphRuns.LaterChainIgnored`). A chain that is connected before the first
  start and dropped leaves its nodes behind: its functors run with every submission (`GraphRuns.DroppedChainsRun`),
  before or after those of the chain that is started (`GraphRuns.DroppedEitherWay`).
- When the construction of a node throws, the node after the next one aborts the program
  (`GraphState.State.Construct`). With at most one node behind it, starting the chain submits the graph without the
  missing nodes, and completes the chain twice, with the error and with a value; every start completes once if and
  only if no started chain was connected with an error (`GraphRuns.CompletesOnce`).
- `upsert_in_env` changes exactly the queries in `Env.Loses`: those that a dropped first component answered and the
  rest answers differently. On right-nested environments with single properties there are none (`Env.NestedUpdates`).
  Behind the first component of a pair an answer that is neither a property nor a pair makes the call ill-formed, so
  that `upsert_in_env_or_join` does not join either (`Env.JoinOutcome`).

## Model

| member | source | states |
|---|---|---|
| Krylov.CgConverges | algorithms/cg/Queue.hpp:83-122 | for a symmetric positive definite n x n matrix, tolerance >= 0 and at least n iterations allowed, the loop meets the tolerance after at most n iterations |
| Krylov.CgConjugacy | algorithms/cg/Queue.hpp:89-119 | as long as residuals are nonzero, all residuals are mutually orthogonal and all directions mutually conjugate |
| Krylov.Conjugacy | algorithms/pcg/Queue.hpp:117-155 | the same for the preconditioned loop, in the inner product of any symmetric definite preconditioner |
| Krylov.Converges | algorithms/pcg/Queue.hpp:111-162 | the preconditioned loop meets the tolerance after at most n iterations |
| Krylov.LoopExactly | algorithms/pcg/Queue.hpp:111-162 | the loop returns the solution and the norm of the first iteration whose norm does not exceed the tolerance, or of the last allowed one, and nothing else does; with a negative tolerance it makes all allowed iterations |
| Krylov.SquaredTests | algorithms/cg/Queue.hpp:62-107 | on squared norms, both tests of a solver compare the norm itself with the tolerance, negative ones included |
| Krylov.Denominators | algorithms/pcg/Queue.hpp:120-148 | while the residual is nonzero, the divisors of alpha and beta are positive, and the direction meets the residual in rho |
| Krylov.ResidualExact | algorithms/pcg/Queue.hpp:82-128 | at every loop head the updated residual equals rhs minus mat times sol |
| Krylov.EnergyDecreases | algorithms/cg/Queue.hpp:96-102 | each iteration with nonzero residual lowers the energy by half of alpha times rho, hence strictly |
| Krylov.CgMatches | algorithms/pcg/Queue.hpp:111-159 | with the identity preconditioner, PCG and CG have the same solution, residual, direction and rho at every iteration |
| Krylov.CgLoopMatches | algorithms/pcg/Queue.hpp:111-162 | both loops also stop at the same iteration with the same result |
| Resubmission.GraphMatchesQueue | algorithms/pcg/Graph.hpp:175-196 | graph and queue outcomes are equal if and only if the initial norm is below the tolerance, or above it with at least one iteration allowed |
| Resubmission.GraphDiffersFromQueue | algorithms/cg/Graph.hpp:179-199 | a system whose initial norm equals the tolerance, on which the outcomes differ |
| Resubmission.GraphConverges | algorithms/pcg/Graph.hpp:175-196 | for a sound system, at least n iterations allowed, and a tolerance or a nonzero first residual, the graph solver meets the tolerance after at most n iterations |
| Resubmission.SubmissionsExactly | algorithms/pcg/Graph.hpp:175-196 | with work to do, the graph solver returns the first submission whose norm does not exceed the tolerance, or the last allowed one, but at least one; with a negative tolerance it makes all allowed submissions |
| Resubmission.RunApart | algorithms/pcg/Graph.hpp:139-194 | norm and count do not depend on which view of the solution the graph updates |
| Resubmission.RightView | algorithms/pcg/Graph.hpp:121-139 | with work to do, the passed view gets the solution if and only if the graph was built for that view |
| Resubmission.MixedConsistent | algorithms/pcg/Graph.hpp:111-163 | whatever two sound preconditioners the start and the graph use, after any number of submissions the residual is the true one and the direction meets it in rho, which is positive unless the residual is zero |
| Resubmission.MixedEnergy | algorithms/pcg/Graph.hpp:139-140 | then every submission lowers the energy, strictly while the residual is nonzero |
| StaleSweeps.SameSweeps | algorithms/pcg/Graph.hpp:121-144 | a graph built with the same effective number of sweeps gives the outcome of a fresh one |
| StaleSweeps.SweepsMatter | algorithms/pcg/Graph.hpp:121-144 | for any two different effective numbers of sweeps, a 3 x 3 system that a fresh graph solves in two submissions and the stale one does not |
| StaleSweeps.CoupledSound | algorithms/pcg/Preconditioners.hpp:445-474 | that system is symmetric positive definite with a sound preconditioner for every number of sweeps |
| StaleSweeps.ServesExactly | algorithms/pcg/Graph.hpp:84-85 | a graph built with n sweeps serves a solver with m sweeps in all calls on all systems if and only if the effective numbers are equal |
| StaleSweeps.SkewedResidual | algorithms/pcg/Graph.hpp:111-163 | on a 2 x 2 system, three sweeps at the start and one in the graph leave the squared residual 169451577/642628292881 after two submissions |
| StaleSweeps.SkewedSound | algorithms/pcg/Preconditioners.hpp:445-474 | that system is symmetric positive definite with a sound preconditioner for every odd number of sweeps |
| StaleSweeps.SkewedSolved | algorithms/pcg/Queue.hpp:111-162 | on that system two iterations with either number of sweeps alone leave none |
| Krylov.PrecSymmetric | algorithms/pcg/Preconditioners.hpp:445-474 | the identity and any number of Jacobi sweeps satisfy the symmetry that the conjugacy proof needs |
| Krylov.SoundSystem | algorithms/pcg/Preconditioners.hpp:445-474 | a symmetric positive definite system meets all hypotheses if and only if the preconditioner is the identity, the number of sweeps is zero or odd, or the diagonal outweighs the rest |
| Krylov.LoopSolves | algorithms/pcg/Queue.hpp:111-162 | without tolerance and with n iterations allowed, the loop returns an exact solution |
| Jacobi.FirstPassKernel | algorithms/pcg/Preconditioners.hpp:394-411 | rows in any order: each row is divided by the first slot found on the diagonal, and a row without one is left alone |
| Jacobi.SweepKernel | algorithms/pcg/Preconditioners.hpp:413-443 | rows in any order: the new buffer holds one Jacobi sweep of the old one |
| Jacobi.FirstPassIsSweep | algorithms/pcg/Preconditioners.hpp:451-455 | the specialised first pass is the first sweep from zero, whatever the destination held |
| Jacobi.RowSolved | algorithms/pcg/Preconditioners.hpp:413-443 | an entry of the new buffer is the only value that solves its row with all other unknowns as in the old buffer |
| Jacobi.FixedPoint | algorithms/pcg/Preconditioners.hpp:413-443 | a vector is a fixed point of the sweep if and only if it solves the linear system |
| Jacobi.IterateLinear | algorithms/pcg/Preconditioners.hpp:450-474 | any number of sweeps is a linear operator of the source vector |
| Jacobi.IterateSymmetric | algorithms/pcg/Preconditioners.hpp:450-474 | for a symmetric matrix, any number of sweeps is a self-adjoint operator |
| Jacobi.OddDefinite | algorithms/pcg/Preconditioners.hpp:450-474 | for a symmetric positive definite matrix every odd number of sweeps is at least half as definite as the first pass |
| Jacobi.EvenDefinite | algorithms/pcg/Preconditioners.hpp:450-474 | every even number of sweeps is positive definite if the diagonal outweighs the rest |
| Jacobi.GapShrinks | algorithms/pcg/Preconditioners.hpp:413-443 | a sweep without right-hand side never increases the amount by which the diagonal outweighs the rest for a vector |
| Jacobi.EvenDefiniteExactly | algorithms/pcg/Preconditioners.hpp:450-474 | every even number of sweeps is positive definite if and only if the diagonal outweighs the rest |
| Preconditioners.PingPong | algorithms/pcg/Preconditioners.hpp:457-469 | after k passes the k-th iterate is in the destination if k is odd and in the private buffer if k is even |
| Preconditioners.PrecResult | algorithms/pcg/Preconditioners.hpp:450-474 | for every number of sweeps the destination ends up with the preconditioned source, and only it and the private buffer change |
| Preconditioners.Preconditioner.Apply | algorithms/pcg/Preconditioners.hpp:450-474 | the eager version has the effect of the kernels of one application, and leaves nothing else in flight |
| Preconditioners.Preconditioner.AddNodes | algorithms/pcg/Preconditioners.hpp:478-507 | the graph version appends the same kernels as a chain behind the given node |
| Schedule.EnabledIndependent | algorithms/pcg/Queue.hpp:83-162 | two items of race-free work that may run at the same time never touch the same data |
| Schedule.AnySchedule | algorithms/pcg/Queue.hpp:83-162 | every order of race-free work in which nothing runs before what it waits for leaves the same memory |
| Schedule.AnyTopologicalOrder | algorithms/cg/Graph.hpp:108-168 | every topological order of a graph whose conflicting nodes are ordered leaves the same memory |
| Queues.CGQueue.Apply | algorithms/cg/Queue.hpp:38-126 | under every interleaving of the two streams, solution, norm and count are those of the sequential CG loop, no solver work is left in flight, and the host waits for stream A, for A and B in every iteration, and for A |
| Queues.PCGQueue.Apply | algorithms/pcg/Queue.hpp:65-163 | the same for PCG, with the preconditioner running on the second stream beside the solution update; the host waits for A twice, for A, B and B in every iteration, without the last B if it meets the tolerance, and for A |
| Queues.WaitCounts | algorithms/pcg/Queue.hpp:120-159 | an iteration with preconditioner waits for the device three times, the one that meets the tolerance twice, an iteration without preconditioner twice |
| Graphs.CgOrdered | algorithms/cg/Graph.hpp:109-168 | any two conflicting nodes of the CG graph are ordered by a path |
| Graphs.PcgOrdered | algorithms/pcg/Graph.hpp:130-163 | any two conflicting nodes of the PCG graph are ordered, for any number of sweeps, with or without serialised reductions |
| Graphs.CgReach | algorithms/cg/Graph.hpp:109-168 | the nodes of the CG graph run one after the other, except that the solution update is awaited by the direction update alone |
| Graphs.PcgReach | algorithms/pcg/Graph.hpp:130-163 | the same for the PCG graph, where no node waits for the norm unless reductions are serialised, and then the second reduction and what follows it do |
| Functors.DivideAndSwapKernel | algorithms/cg/Functors.hpp:13-23 | the functor on arrays, with the exchange in its order, stores what `Tasks.Update` gives: the quotient in one view, the old dividend in the other |
| Functors.AlphaKernel | algorithms/pcg/Graph.hpp:20-33 | the functor on arrays, which negates the value just stored, stores what `Tasks.Update` gives |
| Functors.AxpbyKernel | algorithms/cg/Functors.hpp:118-143 | elements in any order, with the coefficients read from host values or views for every element, compute the combination that `Tasks.Update` gives |
| Graphs.ExecBeta | algorithms/cg/Functors.hpp:13-23 | divide and swap leaves the quotient in one view and the old dividend in the other |
| Graphs.ExecAlpha | algorithms/pcg/Graph.hpp:20-33 | alpha and its negation are computed from the views at run time |
| Graphs.CgSubmission | algorithms/cg/Graph.hpp:109-168 | one submission of the CG graph is one CG iteration, with the squared norm left where rho is kept |
| Graphs.PcgSubmission | algorithms/pcg/Graph.hpp:126-163 | one submission of the PCG graph is one PCG iteration, with the squared norm in a view of its own |
| Graphs.ManySubmissions | algorithms/pcg/Graph.hpp:175-194 | k submissions, each in any topological order, are k iterations |
| Graphs.CGGraph.Build | algorithms/cg/Graph.hpp:108-168 | the nodes and edges of the CG graph |
| Graphs.CGGraph.Apply | algorithms/cg/Graph.hpp:32-200 | the outcome is that of the resubmission loop of the plain iteration, for every order in which the graph runs; the host waits once for the first norm and once for every submission |
| Graphs.PCGGraph.Build | algorithms/pcg/Graph.hpp:120-165 | the nodes and edges of the PCG graph, including the chain of sweeps |
| Graphs.PCGGraph.Apply | algorithms/pcg/Graph.hpp:88-197 | for every pair of views and of preconditioners: the view that the graph was built for gets the outcome of the resubmission loop with the preconditioner that the graph was built with, the passed view is unchanged if it is another one, and the graph is built by the first call with work to do; the host waits once for the first norm and once for every submission |
| HeatMatrix.InitRowMap | apps/heat/NonLinear1DHeatTransfer.hpp:161-172 | every entry of the row map is written exactly once, and the row map is that of the tridiagonal pattern |
| HeatMatrix.InitEntries | apps/heat/NonLinear1DHeatTransfer.hpp:174-186 | every slot of the entries is written exactly once, with its column |
| HeatMatrix.PatternWellFormed | apps/heat/NonLinear1DHeatTransfer.hpp:161-186 | the pattern is a well-formed square CSR pattern for every number of elements |
| HeatMatrix.PatternSorted | apps/heat/NonLinear1DHeatTransfer.hpp:174-186 | columns ascend strictly within every row |
| HeatMatrix.PatternDiagonal | apps/heat/NonLinear1DHeatTransfer.hpp:174-186 | every row has exactly one diagonal slot, as the Jacobi preconditioner needs |
| HeatMatrix.CoefAt | apps/heat/NonLinear1DHeatTransfer.hpp:161-186 | the matrix is tridiagonal, with the entry at row i and column j in slot 2i + j |
| HeatMatrix.FillKernel | apps/heat/NonLinear1DHeatTransfer.hpp:17-47 | elements in any order: the stacked element matrices and residuals |
| HeatMatrix.ScatterKernel | apps/heat/NonLinear1DHeatTransfer.hpp:58-81 | every interleaving of the atomic additions and of element 0's plain stores leaves the sum of all contributions with the boundary imposed |
| HeatMatrix.AssembledMatrix | apps/heat/NonLinear1DHeatTransfer.hpp:58-81 | the assembled matrix is the sum of all 2x2 blocks with boundary row and column replaced by those of the identity |
| HeatMatrix.AssembledRhs | apps/heat/NonLinear1DHeatTransfer.hpp:70-76 | the assembled residual is the sum of all element residuals with a zero boundary entry |
| HeatMatrix.AssembledSymmetric | apps/heat/NonLinear1DHeatTransfer.hpp:41-46 | the assembled matrix is symmetric |
| HeatMatrix.GuessKernel | apps/heat/NonLinear1DHeatTransfer.hpp:138-151 | nodes in any order: the view is one at the boundary and falls by the step from each node to the next |
| Heat.GuessDescends | apps/heat/NonLinear1DHeatTransfer.hpp:147-150 | the guess is the one vector of its size that is one at the boundary and falls by the step from each node to the next |
| Galerkin.ResidualPaired | apps/heat/NonLinear1DHeatTransfer.hpp:84-97 | paired with any function that vanishes at the boundary, the assembled residual is the integral of the product of the slopes plus k times the squared solution times that function, for linear basis functions |
| Galerkin.ZeroExactly | apps/heat/NonLinear1DHeatTransfer.hpp:84-97 | the assembled residual is zero if and only if that integral is zero for all such functions |
| Galerkin.ReactionCubic | apps/heat/NonLinear1DHeatTransfer.hpp:34-39 | the integrand of the reaction is a cubic on every element |
| Galerkin.SimpsonExact | apps/heat/NonLinear1DHeatTransfer.hpp:34-39 | the quadrature that defines the integral is exact for cubics |
| NewtonSolver.AssemblyResult | apps/heat/NonLinear1DHeatTransfer.hpp:222-242 | one assembly leaves the matrix and the residual of the current solution, whatever the views held before |
| NewtonSolver.HeatProblem.constructor | apps/heat/NonLinear1DHeatTransfer.hpp:153-213 | the problem starts with the tridiagonal pattern, and its initial guess is launched: one at the boundary, and falling by the element size from each node to the next |
| NewtonSolver.HeatProblem.AssembleStreams | apps/heat/NonLinear1DHeatTransfer.hpp:215-243 | the three-stream assembly has the effect of the four kernels in order, under every interleaving, and waits for the second and the third stream once each |
| NewtonSolver.HeatProblem.AssembleGraph | apps/heat/NonLinear1DHeatTransfer.hpp:245-279 | the graph assembly has the same effect, and its graph is built once |
| NewtonSolver.AssemblyReach | apps/heat/NonLinear1DHeatTransfer.hpp:245-279 | in the graph assembly the scatter waits for the three other nodes, and nothing else waits |
| NewtonSolver.Solver.Solve | algorithms/newton/Solver.hpp:27-64 | on the first and on every later call, solution, norm, outer and inner counts, and the waits of the host, are those of the sequential Newton iteration, whatever the device does: with an attached linear solver until a call has built its graph, and with a detached one afterwards |
| NewtonSolver.NewtonWaitCount | algorithms/newton/Solver.hpp:40-60 | with a graph for the linear solver, a solve waits once for every linear solve and every inner iteration, and for every assembly once with a graph and three times with streams |
| NewtonStates.NewtonExactly | algorithms/newton/Solver.hpp:43-63 | a solve returns the first Newton state whose norm does not exceed the tolerance, or the last allowed one, with the sum of the iterations of all linear solves up to it; with a negative tolerance it is the last allowed one |
| NewtonStates.WarmStart | algorithms/newton/Solver.hpp:47-54 | every linear solve starts from the last step, and makes no iteration exactly if that step is good enough in the new system, or if the queue is allowed none; then the same step is taken again |
| NewtonStates.DetachedLoop | algorithms/newton/Solver.hpp:34-63 | with a detached linear solver the solve returns its guess, and unless the first norm meets the tolerance it makes all outer iterations, each with the same inner count |
| NewtonStates.RightStep | algorithms/newton/Solver.hpp:48-54 | an iteration with work to do makes the step of an attached solver if and only if the solver is attached |
| NewtonExamples.FirstCall | algorithms/newton/Solver.hpp:45-57 | with one element, length 1 and k = 1 the first exact iteration leads from the guess (1, 0) to (1, 11/14) |
| NewtonExamples.SecondCall | algorithms/newton/Solver.hpp:34-63 | a second call with the same graph solver stays there for every limit and every tolerance below 121/784, while an attached one would leave it |
| NewtonExamples.SolveTwice | algorithms/newton/Solver.hpp:27-64 | the two calls on a device, from the contract of the solver |
| NewtonStates.BoundaryKept | algorithms/newton/Solver.hpp:45-57 | in every Newton state the solution is one and the step is zero at the boundary |
| Newton.BoundarySweep | apps/heat/NonLinear1DHeatTransfer.hpp:74-79 | no Jacobi sweep changes the boundary entry |
| Newton.BoundaryNth | algorithms/pcg/Queue.hpp:111-159 | solution, residual and direction stay zero at the boundary through every PCG iteration |
| Newton.BoundaryResubmitted | algorithms/pcg/Graph.hpp:175-194 | the same for every submission of the graph solver |
| Newton.StepExpansion | apps/heat/NonLinear1DHeatTransfer.hpp:28-46 | the residual after a step is the residual before, minus the assembled matrix times the step, plus a remainder that is quadratic in the step |
| Newton.ExactStep | algorithms/newton/Solver.hpp:48-57 | after a step that solves the linear system exactly, the residual is exactly the assembled quadratic remainder |
| Newton.ExactStepBound | algorithms/newton/Solver.hpp:48-57 | then every entry of the residual is at most h times the absolute value of k times the squared largest entry of the step |
| Newton.AssembledSpd | apps/heat/NonLinear1DHeatTransfer.hpp:41-79 | for positive length, nonnegative k and a nonnegative solution the assembled matrix is symmetric positive definite |
| Newton.AssembledDominant | apps/heat/NonLinear1DHeatTransfer.hpp:41-79 | wherever it is positive definite, its diagonal also outweighs the rest, because it is tridiagonal |
| Newton.LinearSystemSound | algorithms/newton/Solver.hpp:48-50 | so the linear system at any solution meets the hypotheses of the convergence theorems, with any number of sweeps, if and only if its matrix is symmetric positive definite, and it does at every nonnegative solution |
| NewtonStates.SolveWithin | algorithms/newton/Solver.hpp:48-50 | wherever the linear system is sound, with n iterations allowed, the true residual of either linear solver's step is the returned norm and within the tolerance, for the graph solver if it is attached, has the same effective number of sweeps, and starts with a tolerance or a nonzero residual |
| NewtonStates.SolveExactly | algorithms/newton/Solver.hpp:48-50 | without tolerance the step then solves the assembled system exactly |
| NewtonStates.QuadraticStep | algorithms/newton/Solver.hpp:45-57 | then the residual of the next state is exactly the quadratic remainder of the step, each entry at most h k times the squared step |
| NewtonStates.InexactStep | algorithms/newton/Solver.hpp:45-57 | with a tolerance the residual of the next state differs from the quadratic remainder by exactly the residual of the linear solve, whose norm is within the tolerance |
| Newton.StepResidual | apps/heat/NonLinear1DHeatTransfer.hpp:28-46 | for every step the residual after it, minus the quadratic remainder, is the residual of the linear system |
| NewtonRange.RowTerms | apps/heat/NonLinear1DHeatTransfer.hpp:28-79 | after an exact step the element terms in old and new values cancel in every row behind the boundary |
| NewtonRange.ExactRange | algorithms/newton/Solver.hpp:48-54 | with h h k <= 12 an exact step leads from a state between zero and one, with one at the boundary, to such a state |
| NewtonRange.RangeExactly | algorithms/newton/Solver.hpp:48-54 | on every mesh with positive length and nonnegative k, all exact steps from such states lead to such states if and only if h h k <= 12 |
| NewtonRange.StatesInRange | algorithms/newton/Solver.hpp:45-57 | up to that bound all states of a run with exact linear solves stay between zero and one |
| NewtonRange.RunsExactly | algorithms/newton/Solver.hpp:45-57 | on every mesh, all states of all such runs stay between zero and one if and only if h h k <= 12 |
| NewtonRange.QueueRun | algorithms/pcg/Queue.hpp:111-162 | the linear solves of the queue solver are exact with zero tolerance and n iterations allowed |
| NewtonRange.ReachableSound | algorithms/newton/Solver.hpp:48-50 | the linear systems of all these states meet the hypotheses of the convergence theorems with any number of sweeps |
| NewtonRange.GuessInRange | apps/heat/NonLinear1DHeatTransfer.hpp:138-151 | the initial guess is between zero and one if and only if the length is at most one |
| NewtonRange.InexactConvergence | algorithms/newton/Solver.hpp:45-57 | with a tolerance t for the linear solves, at every state of a run whose linear system is sound: the next residual minus the quadratic remainder has norm at most t, so that no entry of the residual exceeds h k times the squared step plus t |
| NewtonExamples.SingleElement | apps/heat/NonLinear1DHeatTransfer.hpp:28-46 | with one element an exact step from a value in [0, 1] never exceeds one, and stays nonnegative if and only if h k (1/12 - a a/4) <= 1/h |
| NewtonExamples.StrongStep | apps/heat/NonLinear1DHeatTransfer.hpp:28-46 | with length 1 and k = 100 the exact step from the code's own guess leads to -22/53 |
| NewtonExamples.StrongIndefinite | apps/heat/NonLinear1DHeatTransfer.hpp:41-79 | the matrix assembled there is not positive definite |
| NewtonRange.QuadraticConvergence | algorithms/newton/Solver.hpp:45-57 | for every run with h h k <= 12, a guess between zero and one and exact linear solves: each residual but the first is exactly the quadratic remainder of the step before it, no step exceeds one, and no entry of the residual exceeds h k times the squared step |
| SenderGraph.Compiled | kokkos_ext/impl/graph/fork_join.hpp:110-123 | for every nested expression the node graph is acyclic, holds one node per work item, and one item reaches another if and only if it precedes it in series-parallel order |
| SenderGraph.ConnectOrders | kokkos_ext/impl/graph/Helpers.hpp:19-36 | the same for an expression connected anywhere in a larger graph, under any environment node |
| SenderGraph.ReachEntry | kokkos_ext/impl/graph/Helpers.hpp:14-36 | older nodes reach the nodes of an expression exactly through its entry |
| SenderGraph.ConnectSinks | kokkos_ext/impl/graph/when_all.hpp:54-79 | every node that an expression adds leads to the node its operation state answers |
| SenderGraph.NodesAdded | kokkos_ext/impl/graph/when_all.hpp:54-79 | connecting any expression adds one node for every work and one for every when_all and fork_join, and no other |
| SenderGraph.EdgesAdded | kokkos_ext/impl/graph/when_all.hpp:54-79 | where every join has children with work, it adds one edge into every work and one from every child into its join, and no other |
| SenderGraph.TransitionsAddNothing | kokkos_ext/impl/graph/continues_on.hpp:40-60 | an expression gives the same graph, and attaches the next work to the same node, with and without its continues_on |
| SenderGraph.Context.Construct | kokkos_ext/impl/graph/then.hpp:75-98 | constructing the operation states, innermost first, adds exactly the nodes of the compiled expression; a continues_on adds none |
| GraphState.State.Submit | kokkos_ext/impl/GraphContext.hpp:63-84 | instantiates on the first submission only, and submits only when not already submitted |
| GraphState.State.Execute | kokkos_ext/impl/GraphContext.hpp:80-81 | a submission runs every node of the graph once, in some order that its predecessors allow |
| GraphState.State.Wait | kokkos_ext/impl/GraphContext.hpp:86-97 | fences if and only if submitted, after which the submitted graph has run once |
| GraphState.State.Construct | kokkos_ext/impl/graph/then.hpp:88-104 | nodes are added behind one another while the graph is not instantiated, up to the first one whose construction throws; the program aborts if and only if there is a second one behind that |
| GraphState.State.StartChain | kokkos_ext/impl/graph/then.hpp:106-110 | starting a chain reports the errors of its construction, then submits once, through whichever work comes first, and ends with one wait and a value |
| GraphState.State.Complete | kokkos_ext/impl/graph/sync_wait.hpp:22-26 | the end of a chain is told of a value only when nothing is submitted any more |
| GraphState.SubmissionRuns | kokkos_ext/impl/GraphContext.hpp:80-81 | every order of a submission runs the work of all connected chains, each functor once |
| GraphState.ChainRuns | kokkos_ext/impl/graph/then.hpp:14-22 | with one chain the only order is that of the chain |
| GraphRuns.RunCalls | kokkos_ext/impl/graph/then.hpp:40-43 | graph, events, signals and executed functors of any sequence of connecting chains, dropping them and starting them |
| GraphRuns.DroppedChainsRun | kokkos_ext/impl/graph/then.hpp:88-98 | after any such sequence, every submission has run exactly the functors of all chains that were connected before the first one, started or dropped |
| GraphRuns.DroppedEitherWay | kokkos_ext/impl/graph/then.hpp:88-98 | with two chains of one functor, of which only the second is started, both run, in either order |
| GraphRuns.OneChain | kokkos_ext/impl/graph/then.hpp:88-98 | if one chain was connected before the first submission, every submission runs that chain in its order, whatever is connected later |
| GraphRuns.SameChain | kokkos_ext/impl/GraphContext.hpp:56-97 | k repetitions of one chain: one instantiation, k submissions each followed by a fence, every functor once per repetition in chain order |
| GraphRuns.LaterChainIgnored | kokkos_ext/impl/graph/then.hpp:88-98 | a different chain connected after instantiation never runs |
| GraphRuns.CompletesOnce | kokkos_ext/impl/graph/then.hpp:106-110 | every start completes exactly once if and only if no started chain was connected with an error |
| GraphRuns.ErrorAndValue | kokkos_ext/impl/graph/then.hpp:106-110 | a chain whose last node throws is submitted without that node, and completes with an error and with a value |
| Env.UpsertOutcome | kokkos_ext/impl/env.hpp:48-104 | for every environment: no overload is viable if and only if a foreign answer is in front, and the call is ill-formed if and only if it lies behind the first component of a pair |
| Env.UpsertUpdates | kokkos_ext/impl/env.hpp:48-104 | for every environment and every well-formed call: the new value is returned, and another query changes if and only if it is lost |
| Env.UpsertAgain | kokkos_ext/impl/env.hpp:48-104 | for every environment a second upsert gives the environment of the last upsert alone |
| Env.NestedUpdates | kokkos_ext/impl/env.hpp:48-104 | on right-nested environments with single properties nothing is lost, and the shape is kept when the property was there |
| Env.UpsertDropsNeighbours | kokkos_ext/impl/env.hpp:71-79 | a first component with two properties loses the other one |
| Env.JoinOutcome | kokkos_ext/impl/env.hpp:107-119 | upsert-or-join gives an environment if and only if no foreign answer lies behind a pair, and is ill-formed otherwise |
| Env.JoinUpdates | kokkos_ext/impl/env.hpp:107-119 | a well-formed upsert-or-join returns the new value, and another query changes if and only if it is lost |
| Env.BuriedAnswer | kokkos_ext/impl/env.hpp:81-91 | a foreign answer behind one property makes upsert-or-join ill-formed, while the answer alone is joined |
| Env.SettledJoin | kokkos_ext/impl/env.hpp:107-119 | where nothing foreign answers, forwarding and upsert-or-join keep it so, and all calls are well-formed |
| ExecChain.EnvNamesInstance | kokkos_ext/impl/execution_space/operation_state.hpp:108-112 | on a device the receiver environment names the instance of the work, unless nothing behind it knows one |
| ExecChain.EnvAnswersScheduler | kokkos_ext/impl/execution_space/sync_wait.hpp:40-49 | every receiver environment of a chain answers the scheduler query with the scheduler of the run loop |
| ExecChain.StepFences | kokkos_ext/impl/execution_space/schedule_from.hpp:20-39 | a step emits a fence if and only if it leaves an instance, and then fences that instance |
| ExecChain.LastStepFences | kokkos_ext/impl/execution_space/operation_state.hpp:51-68 | the last step before a receiver without instance is always fenced |
| ExecChain.FencesBetween | kokkos_ext/impl/execution_space/schedule_from.hpp:20-39 | between two points of a chain a fence is emitted if and only if some transition in between leaves an instance |
| ExecChain.SingleInstance | kokkos_ext/impl/execution_space/sync_wait.hpp:22-28 | a chain that stays on one instance emits a single fence, at the end |
| ExecChain.AllFences | kokkos_ext/impl/execution_space/schedule_from.hpp:20-39 | the fences of any chain over any instances that completes with a value, in order: one for every step that leaves an instance, on that instance, and one for the instance that is waited for at the end, or for the last step if nothing waits |
| ExecChain.EndEvents | kokkos_ext/impl/execution_space/sync_wait.hpp:22-26 | behind its steps a waited chain emits one fence of the instance it ends on, and none if it ends on the host |
| ExecChain.WorksInOrder | kokkos_ext/impl/execution_space/operation_state.hpp:43-70 | the work of a chain holds every work step, on a device or on the host, at the position given by the number of work steps before it |
| ExecChain.PlaceIsLast | kokkos_ext/impl/execution_space/schedule_from.hpp:50-51 | a step is where the last transition before it leads, or where the chain starts |
| ExecChain.RunsInOrder | kokkos_ext/impl/execution_space/operation_state.hpp:43-70 | the launches and host runs among the events are exactly these work steps, in that order, each at the place of its step |
| ExecChain.Operation.Start | kokkos_ext/impl/execution_space/operation_state.hpp:43-79 | a started chain has run or launched exactly the work of its new launch and host run events, in order, and on a value all of it is finished |
| ExecChain.Operation.SetValue | kokkos_ext/impl/execution_space/operation_state.hpp:43-79 | under every asynchronous execution works finish in chain order; exactly one signal completes the chain, the error of the first work that throws, or a value exactly if none does; on an error nothing later is launched, and all earlier work is finished when the error is on the instance that is waited for or on the host; the events are those of the steps taken and of the end |
| ExecChain.Operation.RunStep | kokkos_ext/impl/execution_space/operation_state.hpp:43-70 | after a step that does not throw, only the instance that comes next is busy, and the step emitted exactly its launches and fences |
| ExecChain.Operation.SetError | kokkos_ext/impl/execution_space/sync_wait.hpp:29-35 | an error passes through without launches, completes once, and adds the fence of the instance that is waited for at the end, if there is one, and no other event, whichever place the error came from |
| ExecChain.Operation.Complete | kokkos_ext/impl/execution_space/sync_wait.hpp:22-33 | the end of a chain is told after the fence of the instance that is waited for, and of a value only when nothing is in flight |

## Left out

- Kokkos, KokkosKernels and stdexec themselves, and the CUDA, HIP and SYCL specialisations: spmv, dot and norms are mathematical functions; launch, fence and graph submission are model primitives.
- Floating-point rounding, complex numbers, NaN and infinities, and the widths of the integer types (`int` ordinals, `unsigned short` sweeps).
- Abort on a pool that is too small, on a missing node or on an unsupported mode; regions, logging and the conditional compilation around them.
- DiagonalPreconditioner, and memory sets with another value than zero.
- Newton.AssembledSpd: definiteness of the assembled matrix at solutions with a negative entry; the linear solves are sound exactly where it holds.
- NewtonRange.StatesInRange: the range of the states when the linear solves have a positive tolerance.
- NewtonStates.SolveWithin: without tolerance, a warm start that solves the system already, after which the graph solver divides zero by zero.
- Queues.PCGQueue.Apply: on which stream a kernel runs, beyond what its waits and its conflicts with other kernels fix; a reduction into a host variable that waits twice on some back ends.
- HeatMatrix.InitRowMap: requires at least one element, like `InitEntries`, since the source divides the length by the number of elements and writes two entries of the last row.
- SenderGraph.Context.Construct: construction of a node that throws, and reconnecting a fork_join or when_all on an instantiated graph; both are modelled for chains, in `GraphState.State.Construct`.
- GraphState.State.Construct: chains with joins, and a `schedule_from` that is skipped because the same instance follows.
- GraphRuns.RunCalls: an operation state that is destroyed after it was started, and starting one twice; what a receiver does with a second completion.
- The wait of a graph `when_all` when it is started, and its error channel.
- ExecChain.Operation.SetError: when the error is on an instance that is not the one waited for, work may still be in flight there, and nowhere else.
- ExecChain.Operation.SetValue: `when_all`, `let_value`, `split` and stopped signals on execution space instances.
- Ambiguities between overloads of `upsert_in_env`, and the value categories of its arguments.
- The older graph context, the partial algorithms, the thread pool, benchmarks, plots and build scripts.
