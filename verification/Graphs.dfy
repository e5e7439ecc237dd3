/** The conjugate gradient solvers as task graphs, built once and resubmitted. */
module Graphs {
  import opened Vectors
  import opened Wrappers
  import opened Csr
  import opened Tasks
  import opened Schedule
  import opened Krylov
  import opened Resubmission
  import opened Kernels
  import opened Queues
  import Dev = Device
  import Preconditioners
  import Jacobi

  // ------------------------------------------------------------------------
  // The nodes.
  // ------------------------------------------------------------------------

  function ProductTask(p: Pattern): Task {
    Spmv(p, 1.0, Dir, 0.0, MatDir)
  }

  function SolTask(view: nat): Task {
    Combine(View(Alpha), Dir, Literal(1.0), Sol(view))
  }

  function ResTask(): Task {
    Combine(View(AlphaNeg), MatDir, Literal(1.0), Res)
  }

  /** From the product to the updates of solution and residual. */
  function Head(p: Pattern, view: nat): (g: Graph)
    ensures |g| == 5
  {
    [ Node(ProductTask(p), {}),
      Node(DotOf(Tmp, Dir, MatDir), {0}),
      Node(AlphaOf(RhoOld, Tmp), {1}),
      Node(SolTask(view), {2}),
      Node(ResTask(), {2}) ]
  }

  /** Beta and the direction, behind the node that computes the next rho. */
  function Tail(z: Cell, rho: nat): (g: Graph)
    ensures |g| == 2
  {
    [ Node(DivideAndSwap(Tmp, RhoOld), {rho}),
      Node(Combine(Literal(1.0), z, View(Tmp), Dir), {3, rho + 1}) ]
  }

  function CgNodes(p: Pattern, view: nat): (g: Graph) {
    Head(p, view) + [Node(DotOf(Tmp, Res, Res), {4})] + Tail(Res, 5)
  }

  /** Some back ends run one reduction at a time, which adds an edge between the two dot products. */
  function PcgNodes(p: Pattern, view: nat, prec: Prec, serial: bool): (g: Graph) {
    var chain := Preconditioners.Chain(Preconditioners.PrecTasks(p, prec, ResP, Res), 4, 6);
    var last := 5 + |chain|;
    Head(p, view) + [Node(DotOf(ResDot, Res, Res), {4})] + chain
    + [Node(DotOf(Tmp, ResP, Res), if serial then {last, 5} else {last})] + Tail(ResP, last + 1)
  }

  // ------------------------------------------------------------------------
  // Conflicting nodes are ordered.
  // ------------------------------------------------------------------------

  /** The predecessor along the spine, from which the nodes of side branch off. */
  function Previous(side: set<nat>, v: nat): nat
    requires v > 0
  {
    if v - 1 in side && v > 1 then v - 2 else v - 1
  }

  ghost predicate Spine(g: Graph, side: set<nat>) {
    forall v | 0 < v < |g| && v !in side :: Previous(side, v) in g[v].preds && Previous(side, v) !in side
  }

  lemma {:induction false} SpineReach(g: Graph, side: set<nat>, u: nat, v: nat)
    requires Spine(g, side) && u < v < |g| && u !in side && v !in side
    ensures Reach(g, u, v)
    decreases v
  {
    var w := Previous(side, v);
    if u != w {
      SpineReach(g, side, u, w);
    }
    ReachVia(g, u, w, v);
  }

  /** Only pairs with a node off the spine have to be looked at. */
  lemma SpineOrdered(g: Graph, side: set<nat>)
    requires Spine(g, side)
    requires forall u, v | 0 <= u < v < |g| && (u in side || v in side) ::
               Independent(g[u].task, g[v].task) || Reach(g, u, v)
    ensures ConflictOrdered(g)
  {
    hide Independent, Reach, Spine;
    forall u, v | 0 <= u < v < |g| ensures Independent(g[u].task, g[v].task) || Reach(g, u, v) {
      if u !in side && v !in side {
        SpineReach(g, side, u, v);
      }
    }
  }

  /** The update of the solution conflicts with nothing after it but the update of the direction. */
  lemma SolBeside(view: nat, z: Cell)
    requires z in {Res, ResP}
    ensures Independent(SolTask(view), ResTask()) && Independent(SolTask(view), DotOf(Tmp, z, Res))
    ensures Independent(SolTask(view), DotOf(ResDot, Res, Res))
    ensures Independent(SolTask(view), DivideAndSwap(Tmp, RhoOld))
  {}

  lemma CgOrdered(p: Pattern, view: nat)
    ensures WellFormed(CgNodes(p, view)) && ConflictOrdered(CgNodes(p, view))
  {
    hide Independent, Reach;
    var g := CgNodes(p, view);
    SolBeside(view, Res);
    forall u: nat | u < 3 ensures Reach(g, u, 3) {
      if u < 2 {
        SpineReach(g, {3}, u, 2);
      }
      ReachVia(g, u, 2, 3);
    }
    ReachVia(g, 3, 3, 7);
    SpineOrdered(g, {3});
  }

  lemma PcgShape(p: Pattern, view: nat, prec: Prec, serial: bool)
    ensures var g, ts := PcgNodes(p, view, prec, serial), Preconditioners.PrecTasks(p, prec, ResP, Res);
            var n := |ts|;
            && |g| == n + 9 && n >= 1
            && (forall v: nat | v < 5 :: g[v] == Head(p, view)[v])
            && g[5] == Node(DotOf(ResDot, Res, Res), {4})
            && (forall v | 6 <= v < n + 6 :: g[v] == Node(ts[v - 6], {if v == 6 then 4 else v - 1}))
            && g[n + 6] == Node(DotOf(Tmp, ResP, Res), if serial then {n + 5, 5} else {n + 5})
            && g[n + 7] == Node(DivideAndSwap(Tmp, RhoOld), {n + 6})
            && g[n + 8] == Node(Combine(Literal(1.0), ResP, View(Tmp), Dir), {3, n + 7})
  {}

  lemma PcgSpine(p: Pattern, view: nat, prec: Prec, serial: bool)
    ensures WellFormed(PcgNodes(p, view, prec, serial)) && Spine(PcgNodes(p, view, prec, serial), {3, 5})
  {
    hide Head, PcgNodes, Preconditioners.PrecTasks;
    var g := PcgNodes(p, view, prec, serial);
    PcgShape(p, view, prec, serial);
    HeadShape(p, view);
    forall v | 0 <= v < |g|
      ensures (forall u | u in g[v].preds :: u < v)
      ensures v > 0 && v !in {3, 5} ==> Previous({3, 5}, v) in g[v].preds && Previous({3, 5}, v) !in {3, 5}
    {
      if v < 5 {
        assert g[v] == Head(p, view)[v];
      }
    }
  }

  lemma HeadShape(p: Pattern, view: nat)
    ensures var h := Head(p, view);
            && h[0].preds == {} && h[1].preds == {0} && h[2].preds == {1} && h[3].preds == h[4].preds == {2}
            && h[3].task == SolTask(view) && h[4].task == ResTask()
  {}

  /** The norm conflicts with no later node, and neither does the solution except for the last one. */
  lemma PcgBeside(p: Pattern, view: nat, prec: Prec, serial: bool, v: nat)
    requires 3 < v < |PcgNodes(p, view, prec, serial)| - 1
    ensures Independent(SolTask(view), PcgNodes(p, view, prec, serial)[v].task)
    ensures v > 5 ==> Independent(DotOf(ResDot, Res, Res), PcgNodes(p, view, prec, serial)[v].task)
  {
    hide PcgNodes, Preconditioners.PrecTasks;
    PcgShape(p, view, prec, serial);
    HeadShape(p, view);
    SolBeside(view, ResP);
    var g := PcgNodes(p, view, prec, serial);
    if 6 <= v < |g| - 3 {
      assert g[v].task in Preconditioners.PrecTasks(p, prec, ResP, Res);
    }
  }

  /** For any number of sweeps, and with or without serialised reductions, conflicting nodes are ordered. */
  lemma PcgOrdered(p: Pattern, view: nat, prec: Prec, serial: bool)
    ensures WellFormed(PcgNodes(p, view, prec, serial)) && ConflictOrdered(PcgNodes(p, view, prec, serial))
  {
    hide Independent, Reach, PcgNodes, Spine;
    var g, side := PcgNodes(p, view, prec, serial), {3, 5};
    PcgShape(p, view, prec, serial);
    HeadShape(p, view);
    PcgSpine(p, view, prec, serial);
    forall u, v | 0 <= u < v < |g| && (u in side || v in side)
      ensures Independent(g[u].task, g[v].task) || Reach(g, u, v)
    {
      if u == 3 && v == |g| - 1 {
        ReachVia(g, 3, 3, v);
      } else if u == 5 && v == |g| - 1 {
        LastBeside();
      } else if u in side {
        PcgBeside(p, view, prec, serial, v);
      } else if v == 3 {
        SpineToHead(g, u, 2);
        ReachVia(g, u, 2, 3);
      } else {
        SpineToHead(g, u, 4);
        ReachVia(g, u, 4, 5);
      }
    }
    SpineOrdered(g, side);
  }

  lemma SpineToHead(g: Graph, u: nat, v: nat)
    requires Spine(g, {3, 5}) && u <= v < |g| && u !in {3, 5} && v !in {3, 5}
    ensures u == v || Reach(g, u, v)
  {
    hide Reach, Spine;
    if u < v {
      SpineReach(g, {3, 5}, u, v);
    }
  }

  lemma LastBeside()
    ensures Independent(DotOf(ResDot, Res, Res), Combine(Literal(1.0), ResP, View(Tmp), Dir))
  {}

  // ------------------------------------------------------------------------
  // Exactly which nodes are ordered.
  // ------------------------------------------------------------------------

  /** A path starts with an edge. */
  lemma {:induction false} FirstEdge(g: Graph, u: nat, v: nat) returns (x: nat)
    requires Reach(g, u, v)
    ensures u < v < |g| && x <= v && u in g[x].preds
    decreases v
  {
    ReachBefore(g, u, v);
    var w :| w in g[v].preds && w < v && (w == u || Reach(g, u, w));
    if w == u {
      x := v;
    } else {
      x := FirstEdge(g, u, w);
    }
  }

  lemma CgShape(p: Pattern, view: nat)
    ensures var g := CgNodes(p, view);
            && |g| == 8 && g[0].preds == {} && g[1].preds == {0} && g[2].preds == {1} && g[3].preds == {2}
            && g[4].preds == {2} && g[5].preds == {4} && g[6].preds == {5} && g[7].preds == {3, 6}
  {}

  /** The nodes of the CG graph run one after the other, but the solution update is awaited by the last one only. */
  lemma CgReach(p: Pattern, view: nat, u: nat, v: nat)
    ensures Reach(CgNodes(p, view), u, v) <==> u < v < 8 && (u == 3 ==> v == 7)
  {
    var g := CgNodes(p, view);
    CgShape(p, view);
    hide CgNodes, Reach;
    if Reach(g, u, v) {
      var x := FirstEdge(g, u, v);
    }
    if u < v < 8 && (u == 3 ==> v == 7) {
      if u == 3 {
        ReachVia(g, 3, 3, 7);
      } else if v == 3 {
        if u < 2 {
          SpineReach(g, {3}, u, 2);
        }
        ReachVia(g, u, 2, 3);
      } else {
        SpineReach(g, {3}, u, v);
      }
    }
  }

  /**
   * So do those of the PCG graph, where the norm is awaited by no later node, or by the second reduction if
   * reductions are serialised.
   */
  lemma PcgReach(p: Pattern, view: nat, prec: Prec, serial: bool, u: nat, v: nat)
    ensures var g := PcgNodes(p, view, prec, serial);
            Reach(g, u, v)
            <==> u < v < |g| && (u == 3 ==> v == |g| - 1) && (u == 5 ==> serial && v >= |g| - 3)
  {
    hide Reach, PcgNodes, Head, Spine, Preconditioners.PrecTasks;
    var g := PcgNodes(p, view, prec, serial);
    PcgShape(p, view, prec, serial);
    HeadShape(p, view);
    PcgSpine(p, view, prec, serial);
    if Reach(g, u, v) {
      var x := FirstEdge(g, u, v);
      PcgInto(p, view, prec, serial, u, x);
    }
    if u < v < |g| && (u == 3 ==> v == |g| - 1) && (u == 5 ==> serial && v >= |g| - 3) {
      if u == 3 {
        ReachVia(g, 3, 3, v);
      } else if u == 5 {
        ReachVia(g, 5, 5, |g| - 3);
        if v > |g| - 3 {
          SpineReach(g, {3, 5}, |g| - 3, v);
          ReachThrough(g, 5, |g| - 3, v);
        }
      } else if v == 3 {
        SpineToHead(g, u, 2);
        ReachVia(g, u, 2, 3);
      } else if v == 5 {
        SpineToHead(g, u, 4);
        ReachVia(g, u, 4, 5);
      } else {
        SpineReach(g, {3, 5}, u, v);
      }
    }
  }

  /** What the two side nodes are predecessors of. */
  lemma PcgInto(p: Pattern, view: nat, prec: Prec, serial: bool, u: nat, x: nat)
    requires var g := PcgNodes(p, view, prec, serial); x < |g| && u in g[x].preds
    ensures var g := PcgNodes(p, view, prec, serial);
            (u == 3 ==> x == |g| - 1) && (u == 5 ==> serial && x == |g| - 3)
  {
    hide PcgNodes, Head, Preconditioners.PrecTasks;
    var g := PcgNodes(p, view, prec, serial);
    PcgShape(p, view, prec, serial);
    HeadShape(p, view);
    if x < 5 {
      assert g[x] == Head(p, view)[x];
    }
  }

  lemma {:induction false} ReachThrough(g: Graph, u: nat, v: nat, w: nat)
    requires Reach(g, u, v) && Reach(g, v, w)
    ensures Reach(g, u, w)
    decreases w
  {
    ReachBefore(g, v, w);
    var x :| x in g[w].preds && x < w && (x == v || Reach(g, v, x));
    if x != v {
      ReachThrough(g, u, v, x);
    }
    ReachVia(g, u, x, w);
  }

  // ------------------------------------------------------------------------
  // One submission is one iteration, because alpha and beta are read from views.
  // ------------------------------------------------------------------------

  lemma ExecAlpha(m: Memory)
    ensures var m' := Exec(AlphaOf(RhoOld, Tmp), m);
            && Scalar(m', Alpha) == Div(Scalar(m, RhoOld), Scalar(m, Tmp))
            && Scalar(m', AlphaNeg) == -Div(Scalar(m, RhoOld), Scalar(m, Tmp))
            && Same(m, m', {Alpha, AlphaNeg})
  {
    hide Div, Get, Same;
    ExecGet(AlphaOf(RhoOld, Tmp), m, Alpha);
    ExecGet(AlphaOf(RhoOld, Tmp), m, AlphaNeg);
    ExecSame(AlphaOf(RhoOld, Tmp), m);
  }

  lemma ExecBeta(m: Memory)
    ensures var m' := Exec(DivideAndSwap(Tmp, RhoOld), m);
            && Scalar(m', Tmp) == Div(Scalar(m, Tmp), Scalar(m, RhoOld)) && Scalar(m', RhoOld) == Scalar(m, Tmp)
            && Same(m, m', {Tmp, RhoOld})
  {
    hide Div, Get, Same;
    ExecGet(DivideAndSwap(Tmp, RhoOld), m, Tmp);
    ExecGet(DivideAndSwap(Tmp, RhoOld), m, RhoOld);
    ExecSame(DivideAndSwap(Tmp, RhoOld), m);
  }

  /** The head of the graph, and the norm. */
  function AfterHead(m: Memory, p: Pattern, view: nat, out: Cell): Memory {
    var a := Exec(AlphaOf(RhoOld, Tmp), Exec(DotOf(Tmp, Dir, MatDir), Exec(ProductTask(p), m)));
    Exec(DotOf(out, Res, Res), Exec(ResTask(), Exec(SolTask(view), a)))
  }

  lemma HeadResult(m: Memory, view: nat, s: System, st: State, out: Cell)
    requires Holds(m, view, s, st, true) && Scalar(m, RhoOld) == st.rho && out in {Tmp, ResDot}
    ensures var w := AfterHead(m, s.p, view, out);
            && Holds(w, view, s, State(NextSol(s, st), NextRes(s, st), st.dir, 0.0), true)
            && Scalar(w, out) == Dot(NextRes(s, st), NextRes(s, st)) && Scalar(w, RhoOld) == st.rho
            && Same(m, w, {MatDir, Tmp, Alpha, AlphaNeg, Sol(view), Res, out})
  {
    hide Exec, Get, Same, Dot, MatVec, Scalar, NextSol, NextRes, StepSize, Div;
    var q := Exec(DotOf(Tmp, Dir, MatDir), Exec(ProductTask(s.p), m));
    Kernels.Quadratic(m, view, s, st, Tmp);
    ScalarSame(m, q, {MatDir, Tmp}, RhoOld);
    var a := Exec(AlphaOf(RhoOld, Tmp), q);
    ExecAlpha(q);
    StepSizeIs(s, st);
    HoldsSame(q, a, {Alpha, AlphaNeg}, view, s, st, true);
    SameAt(q, a, {Alpha, AlphaNeg}, MatDir);
    ScalarSame(q, a, {Alpha, AlphaNeg}, RhoOld);
    UpdateViews(a, view, s, st, View(Alpha), View(AlphaNeg), out);
    var w := AfterHead(m, s.p, view, out);
    SameAt(a, w, {Sol(view), Res, out}, MatValues);
    SameAt(a, w, {Sol(view), Res, out}, Rhs);
    ScalarSame(a, w, {Sol(view), Res, out}, RhoOld);
    SameTrans(m, q, a, {MatDir, Tmp}, {Alpha, AlphaNeg}, {MatDir, Tmp, Alpha, AlphaNeg});
    SameTrans(m, a, w, {MatDir, Tmp, Alpha, AlphaNeg}, {Sol(view), Res, out},
      {MatDir, Tmp, Alpha, AlphaNeg, Sol(view), Res, out});
  }

  lemma StepSizeIs(s: System, st: State)
    ensures StepSize(s, st) == Div(st.rho, Dot(st.dir, s.A(st.dir)))
  {}

  lemma ScalarSame(m: Memory, m': Memory, except: set<Cell>, c: Cell)
    requires Same(m, m', except) && c !in except
    ensures Scalar(m, c) == Scalar(m', c)
  {
    hide Get;
  }

  /** The tail of the graph. */
  function AfterTail(w: Memory, z: Cell): Memory {
    Exec(Combine(Literal(1.0), z, View(Tmp), Dir), Exec(DivideAndSwap(Tmp, RhoOld), w))
  }

  lemma TailResult(w: Memory, view: nat, s: System, st: State, z: Cell)
    requires Holds(w, view, s, State(NextSol(s, st), NextRes(s, st), st.dir, 0.0), true)
    requires z in {Res, ResP} && Get(w, z) == s.M(NextRes(s, st))
    requires Scalar(w, Tmp) == Advance(s, st).rho && Scalar(w, RhoOld) == st.rho
    ensures var e := AfterTail(w, z);
            && Holds(e, view, s, Advance(s, st), true) && Scalar(e, RhoOld) == Advance(s, st).rho
            && Same(w, e, {Tmp, RhoOld, Dir})
  {
    hide Exec, Get, Same, Dot, Scalar, NextSol, NextRes, System.M, Axpby, Div;
    var b, e := Exec(DivideAndSwap(Tmp, RhoOld), w), AfterTail(w, z);
    ExecBeta(w);
    HoldsSame(w, b, {Tmp, RhoOld}, view, s, State(NextSol(s, st), NextRes(s, st), st.dir, 0.0), true);
    SameAt(w, b, {Tmp, RhoOld}, z);
    ExecCombine(b, Literal(1.0), z, View(Tmp), Dir);
    HoldsSame(b, e, {Dir}, view, s, State(NextSol(s, st), NextRes(s, st), st.dir, 0.0), false);
    ScalarSame(b, e, {Dir}, RhoOld);
    SameTrans(w, b, e, {Tmp, RhoOld}, {Dir}, {Tmp, RhoOld, Dir});
  }

  /** What the views hold between submissions: a state, with rho in a view of its own. */
  ghost predicate Carries(m: Memory, view: nat, s: System, st: State) {
    Holds(m, view, s, st, true) && Scalar(m, RhoOld) == st.rho
  }

  lemma PcgTasks(m: Memory, p: Pattern, view: nat, prec: Prec, serial: bool)
    ensures Run(m, Created(PcgNodes(p, view, prec, serial)))
         == AfterTail(Exec(DotOf(Tmp, ResP, Res),
                        Run(AfterHead(m, p, view, ResDot), Preconditioners.PrecTasks(p, prec, ResP, Res))), ResP)
  {
    hide Exec, Run, PcgNodes, Preconditioners.PrecTasks;
    var ts := Preconditioners.PrecTasks(p, prec, ResP, Res);
    var hd := [ProductTask(p), DotOf(Tmp, Dir, MatDir), AlphaOf(RhoOld, Tmp), SolTask(view), ResTask(),
        DotOf(ResDot, Res, Res)];
    PcgShape(p, view, prec, serial);
    var all := Created(PcgNodes(p, view, prec, serial));
    assert all == hd + ts + [DotOf(Tmp, ResP, Res), DivideAndSwap(Tmp, RhoOld),
        Combine(Literal(1.0), ResP, View(Tmp), Dir)];
    RunConcat(m, hd + ts, [DotOf(Tmp, ResP, Res), DivideAndSwap(Tmp, RhoOld),
        Combine(Literal(1.0), ResP, View(Tmp), Dir)]);
    RunConcat(m, hd, ts);
    RunSix(m, hd[0], hd[1], hd[2], hd[3], hd[4], hd[5]);
    RunThree(Run(m, hd + ts), DotOf(Tmp, ResP, Res), DivideAndSwap(Tmp, RhoOld),
        Combine(Literal(1.0), ResP, View(Tmp), Dir));
  }

  lemma RunTwo(m: Memory, a: Task, b: Task)
    ensures Run(m, [a]) == Exec(a, m) && Run(m, [a, b]) == Exec(b, Exec(a, m))
  {
    hide Exec, Run;
    Preconditioners.Push(m, [], a);
    RunAppend(m, [a], b);
    assert [] + [a] == [a] && [a] + [b] == [a, b];
  }

  lemma RunThree(m: Memory, a: Task, b: Task, c: Task)
    ensures Run(m, [a, b, c]) == Exec(c, Exec(b, Exec(a, m)))
  {
    hide Exec, Run;
    RunTwo(m, a, b);
    RunAppend(m, [a, b], c);
    assert [a, b] + [c] == [a, b, c];
  }

  lemma RunSix(m: Memory, a: Task, b: Task, c: Task, d: Task, e: Task, f: Task)
    ensures Run(m, [a, b, c, d, e, f]) == Exec(f, Exec(e, Exec(d, Exec(c, Exec(b, Exec(a, m))))))
  {
    hide Exec, Run;
    RunThree(m, a, b, c);
    RunThree(Run(m, [a, b, c]), d, e, f);
    RunConcat(m, [a, b, c], [d, e, f]);
    assert [a, b, c, d, e, f] == [a, b, c] + [d, e, f];
  }

  /** A submission of the preconditioned graph is one iteration. */
  lemma PcgSubmission(m: Memory, view: nat, s: System, st: State, serial: bool)
    requires Carries(m, view, s, st) && (s.prec.Jacobi? ==> Jacobi.DiagonalStored(s.p))
    ensures var e := Run(m, Created(PcgNodes(s.p, view, s.prec, serial)));
            && Carries(e, view, s, Advance(s, st)) && Same(m, e, Owned(view))
            && Scalar(e, ResDot) == Dot(Advance(s, st).res, Advance(s, st).res)
  {
    hide Exec, Run, Get, Same, Dot, Scalar, NextSol, NextRes, Scratch, System.M, Axpby, Div, PcgNodes,
         Preconditioners.PrecTasks, AfterHead, AfterTail, Jacobi.DiagonalStored;
    PcgTasks(m, s.p, view, s.prec, serial);
    HeadResult(m, view, s, st, ResDot);
    var w := AfterHead(m, s.p, view, ResDot);
    Kernels.Preconditioned(w, s, Tmp);
    var z := Exec(DotOf(Tmp, ResP, Res), Run(w, Preconditioners.PrecTasks(s.p, s.prec, ResP, Res)));
    HoldsSame(w, z, {ResP, SweepTmp, Tmp}, view, s, State(NextSol(s, st), NextRes(s, st), st.dir, 0.0), true);
    ScalarSame(w, z, {ResP, SweepTmp, Tmp}, RhoOld);
    ScalarSame(w, z, {ResP, SweepTmp, Tmp}, ResDot);
    TailResult(z, view, s, st, ResP);
    ScalarSame(z, AfterTail(z, ResP), {Tmp, RhoOld, Dir}, ResDot);
    OwnedHas(view);
    SameTrans(m, w, z, {MatDir, Tmp, Alpha, AlphaNeg, Sol(view), Res, ResDot}, {ResP, SweepTmp, Tmp}, Owned(view));
    SameTrans(m, z, AfterTail(z, ResP), Owned(view), {Tmp, RhoOld, Dir}, Owned(view));
  }

  lemma CgTasks(m: Memory, p: Pattern, view: nat)
    ensures Run(m, Created(CgNodes(p, view))) == AfterTail(AfterHead(m, p, view, Tmp), Res)
  {
    hide Exec, Run;
    var hd := [ProductTask(p), DotOf(Tmp, Dir, MatDir), AlphaOf(RhoOld, Tmp), SolTask(view), ResTask(),
        DotOf(Tmp, Res, Res)];
    var tl := [DivideAndSwap(Tmp, RhoOld), Combine(Literal(1.0), Res, View(Tmp), Dir)];
    assert Created(CgNodes(p, view)) == hd + tl;
    RunConcat(m, hd, tl);
    RunSix(m, hd[0], hd[1], hd[2], hd[3], hd[4], hd[5]);
    RunTwo(Run(m, hd), tl[0], tl[1]);
  }

  /** A submission of the plain graph is one iteration, and leaves the squared norm where rho is kept. */
  lemma CgSubmission(m: Memory, view: nat, s: System, st: State)
    requires Carries(m, view, s, st) && s.prec.Identity?
    ensures var e := Run(m, Created(CgNodes(s.p, view)));
            && Carries(e, view, s, Advance(s, st)) && Same(m, e, Owned(view))
            && Scalar(e, RhoOld) == Dot(Advance(s, st).res, Advance(s, st).res)
  {
    hide Exec, Run, Get, Same, Dot, Scalar, NextSol, NextRes, Scratch, Axpby, Div, CgNodes, AfterHead, AfterTail;
    CgTasks(m, s.p, view);
    HeadResult(m, view, s, st, Tmp);
    var w := AfterHead(m, s.p, view, Tmp);
    TailResult(w, view, s, st, Res);
    OwnedHas(view);
    SameTrans(m, w, AfterTail(w, Res), {MatDir, Tmp, Alpha, AlphaNeg, Sol(view), Res, Tmp}, {Tmp, RhoOld, Dir},
      Owned(view));
  }

  /** The memory after k submissions, each run in the order given for it. */
  ghost function Resubmissions(m: Memory, g: Graph, orders: seq<seq<nat>>): Memory
    requires forall o | o in orders :: Topological(g, o)
  {
    if orders == [] then m
    else
      var last := orders[|orders| - 1];
      assert Topological(g, last) by { assert last in orders; }
      Run(Resubmissions(m, g, orders[..|orders| - 1]), TasksAt(g, last))
  }

  /** Submissions in any topological orders are as many iterations. */
  lemma {:induction false} ManySubmissions(m: Memory, view: nat, t: System, st: State, serial: bool,
      orders: seq<seq<nat>>)
    requires Carries(m, view, t, st) && (t.prec.Jacobi? ==> Jacobi.DiagonalStored(t.p))
    requires forall o | o in orders :: Topological(PcgNodes(t.p, view, t.prec, serial), o)
    ensures Carries(Resubmissions(m, PcgNodes(t.p, view, t.prec, serial), orders), view, t,
              Resubmitted(t, st, |orders|))
  {
    hide Run, Carries, Advance, PcgNodes, ConflictOrdered, WellFormed, Jacobi.DiagonalStored, TasksAt, Created;
    if orders != [] {
      var init, last, g := orders[..|orders| - 1], orders[|orders| - 1], PcgNodes(t.p, view, t.prec, serial);
      assert last in orders;
      ManySubmissions(m, view, t, st, serial, init);
      PcgOrdered(t.p, view, t.prec, serial);
      AnyTopologicalOrder(Resubmissions(m, g, init), g, last);
      PcgSubmission(Resubmissions(m, g, init), view, t, Resubmitted(t, st, |init|), serial);
    }
  }

  // ------------------------------------------------------------------------
  // The solvers.
  // ------------------------------------------------------------------------

  lemma CgWithin(p: Pattern, view: nat)
    ensures forall t | t in Created(CgNodes(p, view)) :: Within(t)
  {}

  lemma PcgWithin(p: Pattern, view: nat, prec: Prec, serial: bool)
    ensures forall t | t in Created(PcgNodes(p, view, prec, serial)) :: Within(t)
  {
    hide PcgNodes, Preconditioners.PrecTasks;
    var g := PcgNodes(p, view, prec, serial);
    PcgShape(p, view, prec, serial);
    forall v | 0 <= v < |g| ensures Within(Created(g)[v]) {
      if v < 5 {
        assert g[v] == Head(p, view)[v];
      } else if 6 <= v < |g| - 3 {
        assert g[v].task in Preconditioners.PrecTasks(p, prec, ResP, Res);
      }
    }
  }

  lemma IdleUntouched(pending: seq<Item>, rest: seq<Item>, c: Cell)
    requires Idle(pending, rest) && Used(c)
    ensures forall x | x in pending :: c !in Reads(x.task) && c !in Writes(x.task)
  {
    hide Reads, Writes;
  }

  /** Submit, fence, and read the norm. */
  method SubmitAndRead(dev: Dev.Device, g: Graph, norm: Cell, ghost rest: seq<Item>) returns (norm2: real)
    requires dev.Valid() && Around(dev.pending, rest, A, B, {})
    requires WellFormed(g) && ConflictOrdered(g) && (forall t | t in Created(g) :: Within(t)) && Used(norm)
    modifies dev`memory, dev`pending, dev`next, dev`waits
    ensures dev.Valid() && dev.Flushed() == Run(old(dev.Flushed()), Created(g))
    ensures norm2 == Scalar(dev.Flushed(), norm)
    ensures Idle(dev.pending, rest) && Around(dev.pending, rest, A, B, {})
    ensures dev.waits == Waited(old(dev.waits), A)
  {
    hide *;
    AroundClear(dev.pending, rest, A, B, {}, Created(g));
    dev.Submit(A, g);
    AroundGrown(old(dev.pending), dev.pending, rest, A, B, {}, Created(g));
    Await(dev, A, rest, B, {});
    IdleUntouched(dev.pending, rest, norm);
    norm2 := dev.Read(norm);
  }

  /** What the host waits for in a solve: stream A, for the first norm and for every submission. */
  function GraphWaits(first: real, tol: real, iters: nat): seq<nat> {
    if Beneath(first, tol) then [A] else Repeated([A], 1 + iters)
  }

  /** What it has waited for after k submissions. */
  function GraphWaited(before: seq<nat>, k: nat): seq<nat> {
    before + Repeated([A], 1 + k)
  }

  lemma GraphWaitedStep(before: seq<nat>, k: nat)
    ensures Waited(before, A) == GraphWaited(before, 0)
    ensures Waited(GraphWaited(before, k), A) == GraphWaited(before, k + 1)
  {
    RepeatedStep([A], 0);
    RepeatedStep([A], k + 1);
  }

  lemma GraphWaitedEnd(before: seq<nat>, first: real, tol: real, iters: nat)
    ensures before + GraphWaits(first, tol, iters)
         == if Beneath(first, tol) then Waited(before, A) else GraphWaited(before, iters)
  {}

  /** Add a node behind the given ones. */
  method AddNode(g: Graph, preds: set<nat>, task: Task) returns (g': Graph, node: nat)
    ensures g' == g + [Node(task, preds)] && node == |g|
  {
    g', node := g + [Node(task, preds)], |g|;
  }

  /** The nodes that both solvers have in common. */
  method AddHead(p: Pattern, view: nat) returns (g: Graph, updateSol: nat, updateRes: nat)
    ensures g == Head(p, view) && updateSol == 3 && updateRes == 4
  {
    var alphaSpmv, alphaDot, alphaDiv;
    g, alphaSpmv := AddNode([], {}, Spmv(p, 1.0, Dir, 0.0, MatDir));
    g, alphaDot := AddNode(g, {alphaSpmv}, DotOf(Tmp, Dir, MatDir));
    g, alphaDiv := AddNode(g, {alphaDot}, AlphaOf(RhoOld, Tmp));
    g, updateSol := AddNode(g, {alphaDiv}, Combine(View(Alpha), Dir, Literal(1.0), Sol(view)));
    g, updateRes := AddNode(g, {alphaDiv}, Combine(View(AlphaNeg), MatDir, Literal(1.0), Res));
  }

  lemma CarriesParts(m: Memory, view: nat, s: System, st: State)
    ensures Carries(m, view, s, st) ==> Get(m, Sol(view)) == st.sol
    ensures Holds(m, view, s, st, true) && Scalar(m, RhoOld) == st.rho ==> Carries(m, view, s, st)
  {}

  class CGGraph {
    const p: Pattern

    constructor (p: Pattern)
      ensures this.p == p
    {
      this.p := p;
    }

    method Build(view: nat) returns (g: Graph)
      ensures g == CgNodes(p, view)
    {
      var updateSol, updateRes, resDot, betaDiv, updateDir;
      g, updateSol, updateRes := AddHead(p, view);
      g, resDot := AddNode(g, {updateRes}, DotOf(Tmp, Res, Res));
      g, betaDiv := AddNode(g, {resDot}, DivideAndSwap(Tmp, RhoOld));
      g, updateDir := AddNode(g, {updateSol, betaDiv}, Combine(Literal(1.0), Res, View(Tmp), Dir));
    }

    /** Solve by resubmission. The graph runs in any order that its edges allow. */
    method Apply(dev: Dev.Device, view: nat, tol: real, maxIters: nat) returns (norm2: real, iters: nat)
      requires dev.Valid()
      requires Around(dev.pending, dev.pending, A, B, {})
      requires Fits(SystemIn(dev.Flushed(), p, Identity), Get(dev.Flushed(), Sol(view)))
      modifies dev`memory, dev`pending, dev`next, dev`waits
      ensures dev.Valid() && Idle(dev.pending, old(dev.pending))
      ensures Outcome(Get(dev.Flushed(), Sol(view)), norm2, iters)
           == GraphOutcome(SystemIn(old(dev.Flushed()), p, Identity), SystemIn(old(dev.Flushed()), p, Identity),
                           Get(old(dev.Flushed()), Sol(view)), tol, maxIters)
      ensures Same(old(dev.Flushed()), dev.Flushed(), Owned(view))
      ensures dev.waits
           == old(dev.waits)
            + GraphWaits(Norm2(SystemIn(old(dev.Flushed()), p, Identity), Get(old(dev.Flushed()), Sol(view)), 0), tol,
                iters)
    {
      hide *;
      ghost var rest, m0, w0 := dev.pending, dev.Flushed(), dev.waits;
      ghost var s, x0 := SystemIn(m0, p, Identity), Get(m0, Sol(view));
      StartFootprints(p, view);
      OwnedHas(view);
      FitsParts(m0, p, Identity);
      FirstResidual(m0, view, s, x0);
      OutcomeCases(s, s, x0, tol, maxIters);
      Resubmission.StartSol(s, x0);
      ResubmitCases(s, Start(s, x0), tol, maxIters, 0);
      Enqueue(dev, A, Copy(Res, Rhs), rest, B, {});
      Enqueue(dev, A, Spmv(p, -1.0, Sol(view), 1.0, Res), rest, B, {});
      norm2 := Reduce(dev, A, Res, Res, rest, B);
      ghost var n := dev.Flushed();
      CgFirstCarries(n, view, s, x0, norm2);
      UsedScalars();
      IdleUntouched(dev.pending, rest, RhoOld);
      dev.Write(RhoOld, norm2);
      if Beneath(norm2, tol) {
        iters := 0;
        GraphWaitedEnd(w0, norm2, tol, iters);
        WriteSame(n, RhoOld, norm2);
        SameTrans(m0, n, dev.Flushed(), Scratch(), Scratch(), Owned(view));
        return;
      }
      Enqueue(dev, A, Copy(Dir, Res), rest, B, {});
      SameTrans(m0, n, dev.Flushed(), Scratch(), Scratch(), Owned(view));
      var graph := Build(view);
      CgOrdered(p, view);
      CgWithin(p, view);
      ghost var m := dev.Flushed();
      CgSubmission(m, view, s, Start(s, x0));
      GraphWaitedStep(w0, 0);
      norm2 := SubmitAndRead(dev, graph, RhoOld, rest);
      SameTrans(m0, m, dev.Flushed(), Owned(view), Owned(view), Owned(view));
      iters := 1;
      while Exceeds(norm2, tol) && iters < maxIters
        invariant dev.Valid() && Idle(dev.pending, rest) && Around(dev.pending, rest, A, B, {}) && iters >= 1
        invariant dev.waits == GraphWaited(w0, iters)
        invariant Carries(dev.Flushed(), view, s, Resubmitted(s, Start(s, x0), iters))
        invariant norm2 == Dot(Resubmitted(s, Start(s, x0), iters).res, Resubmitted(s, Start(s, x0), iters).res)
        invariant Same(m0, dev.Flushed(), Owned(view))
        invariant ResubmitLoop(s, Start(s, x0), tol, maxIters, 1) == ResubmitLoop(s, Start(s, x0), tol, maxIters, iters)
      {
        m := dev.Flushed();
        CgSubmission(m, view, s, Resubmitted(s, Start(s, x0), iters));
        ResubmitCases(s, Start(s, x0), tol, maxIters, iters);
        GraphWaitedStep(w0, iters);
        norm2 := SubmitAndRead(dev, graph, RhoOld, rest);
        SameTrans(m0, m, dev.Flushed(), Owned(view), Owned(view), Owned(view));
        iters := iters + 1;
      }
      ResubmitCases(s, Start(s, x0), tol, maxIters, iters);
      CarriesParts(dev.Flushed(), view, s, Resubmitted(s, Start(s, x0), iters));
      GraphWaitedEnd(w0, Norm2(s, x0, 0), tol, iters);
    }
  }

  lemma UsedScalars()
    ensures RhoOld in Scratch() && Used(RhoOld) && Used(ResDot)
  {}

  lemma WriteSame(m: Memory, c: Cell, v: real)
    requires c in Scratch()
    ensures Same(m, m[c := [v]], Scratch())
  {}

  lemma CgFirstCarries(n: Memory, view: nat, s: System, x0: Vec, norm2: real)
    requires Holds(n, view, s, Nth(s, x0, 0), false) && norm2 == Norm2(s, x0, 0) && s.prec.Identity?
    ensures var d := Exec(Copy(Dir, Res), n[RhoOld := [norm2]]);
            && Carries(d, view, s, Start(s, x0)) && Same(n, d, Scratch())
            && Get(n[RhoOld := [norm2]], Sol(view)) == Get(n, Sol(view))
  {
    hide Exec, Dot, Scratch, System.Residual;
    var w := n[RhoOld := [norm2]];
    var d := Exec(Copy(Dir, Res), w);
    ExecSame(Copy(Dir, Res), w);
    assert Same(n, w, {RhoOld});
    HoldsSame(n, w, {RhoOld}, view, s, Nth(s, x0, 0), false);
    HoldsSame(w, d, {Dir}, view, s, Nth(s, x0, 0), false);
    Preconditioners.ExecCopy(w, Dir, Res);
    ScalarSame(w, d, {Dir}, RhoOld);
    OwnedHas(view);
    SameTrans(n, w, d, {RhoOld}, {Dir}, Scratch());
  }

  lemma PcgFirstCarries(n: Memory, view: nat, s: System, x0: Vec)
    requires Holds(n, view, s, Nth(s, x0, 0), false) && (s.prec.Jacobi? ==> Jacobi.DiagonalStored(s.p))
    ensures var z := Run(n, Preconditioners.PrecTasks(s.p, s.prec, ResP, Res));
            var d := Exec(Copy(Dir, ResP), Exec(DotOf(RhoOld, ResP, Res), z));
            Carries(d, view, s, Start(s, x0)) && Same(n, d, Scratch())
  {
    hide Exec, Run, Get, Same, Dot, Scalar, Scratch, System.M, System.Residual, Preconditioners.PrecTasks,
         Jacobi.DiagonalStored;
    var z := Run(n, Preconditioners.PrecTasks(s.p, s.prec, ResP, Res));
    var h := Exec(DotOf(RhoOld, ResP, Res), z);
    var d := Exec(Copy(Dir, ResP), h);
    Kernels.Preconditioned(n, s, RhoOld);
    HoldsSame(n, h, {ResP, SweepTmp, RhoOld}, view, s, Nth(s, x0, 0), false);
    ExecSame(Copy(Dir, ResP), h);
    HoldsSame(h, d, {Dir}, view, s, Nth(s, x0, 0), false);
    Preconditioners.ExecCopy(h, Dir, ResP);
    ScalarSame(h, d, {Dir}, RhoOld);
    OwnedHas(view);
    SameTrans(n, h, d, {ResP, SweepTmp, RhoOld}, {Dir}, Scratch());
  }

  /** Neither the preconditioner nor the view of the solution is part of what the submissions start from. */
  lemma CarriesOther(m: Memory, view: nat, s: System, captured: nat, t: System, st: State)
    requires Carries(m, view, s, st) && t.vals == s.vals && t.rhs == s.rhs
    ensures Carries(m, captured, t, st.(sol := Get(m, Sol(captured))))
  {}

  /** Residual and norm of the initial guess. */
  method Residual(dev: Dev.Device, view: nat, p: Pattern, ghost prec: Prec, ghost rest: seq<Item>)
    returns (norm2: real)
    requires dev.Valid() && Around(dev.pending, rest, A, B, {})
    modifies dev`memory, dev`pending, dev`next, dev`waits
    ensures dev.Valid() && Idle(dev.pending, rest) && Around(dev.pending, rest, A, B, {})
    ensures dev.waits == Waited(old(dev.waits), A)
    ensures var s, x0 := SystemIn(old(dev.Flushed()), p, prec), Get(old(dev.Flushed()), Sol(view));
            && norm2 == Norm2(s, x0, 0) && Holds(dev.Flushed(), view, s, Nth(s, x0, 0), false)
    ensures Same(old(dev.Flushed()), dev.Flushed(), Scratch())
  {
    hide *;
    ghost var m0 := dev.Flushed();
    StartFootprints(p, view);
    FitsParts(m0, p, prec);
    FirstResidual(m0, view, SystemIn(m0, p, prec), Get(m0, Sol(view)));
    Enqueue(dev, A, Copy(Res, Rhs), rest, B, {});
    Enqueue(dev, A, Spmv(p, -1.0, Sol(view), 1.0, Res), rest, B, {});
    norm2 := Reduce(dev, A, Res, Res, rest, B);
  }

  /** First direction and first rho. */
  method Direction(dev: Dev.Device, preconditioner: Preconditioners.Preconditioner,
                   ghost view: nat, ghost s: System, ghost x0: Vec, ghost rest: seq<Item>)
    requires dev.Valid() && Around(dev.pending, rest, A, B, {})
    requires Holds(dev.Flushed(), view, s, Nth(s, x0, 0), false)
    requires s.p == preconditioner.p && s.prec == preconditioner.prec
    requires s.prec.Jacobi? ==> Jacobi.DiagonalStored(s.p)
    modifies dev`memory, dev`pending, dev`next
    ensures dev.Valid() && Around(dev.pending, rest, A, B, {})
    ensures Carries(dev.Flushed(), view, s, Start(s, x0)) && Same(old(dev.Flushed()), dev.Flushed(), Scratch())
  {
    hide *;
    PcgFirstCarries(dev.Flushed(), view, s, x0);
    StartFootprints(s.p, view);
    Precondition(dev, preconditioner, A, rest, B, {});
    Enqueue(dev, A, DotOf(RhoOld, ResP, Res), rest, B, {});
    Enqueue(dev, A, Copy(Dir, ResP), rest, B, {});
  }

  /** The loop of submissions. */
  method Resubmit(dev: Dev.Device, graph: Graph, serial: bool, ghost view: nat, ghost t: System, ghost st: State,
                  tol: real, maxIters: nat, ghost rest: seq<Item>, ghost waited: seq<nat>)
    returns (norm2: real, iters: nat)
    requires dev.Valid() && Around(dev.pending, rest, A, B, {})
    requires Carries(dev.Flushed(), view, t, st) && graph == PcgNodes(t.p, view, t.prec, serial)
    requires t.prec.Jacobi? ==> Jacobi.DiagonalStored(t.p)
    requires dev.waits == GraphWaited(waited, 0)
    modifies dev`memory, dev`pending, dev`next, dev`waits
    ensures dev.Valid() && Idle(dev.pending, rest)
    ensures Outcome(Get(dev.Flushed(), Sol(view)), norm2, iters) == ResubmitLoop(t, st, tol, maxIters, 1)
    ensures Same(old(dev.Flushed()), dev.Flushed(), Owned(view))
    ensures dev.waits == GraphWaited(waited, iters)
  {
    hide *;
    ghost var m0 := dev.Flushed();
    PcgOrdered(t.p, view, t.prec, serial);
    PcgWithin(t.p, view, t.prec, serial);
    UsedScalars();
    PcgSubmission(m0, view, t, st, serial);
    ResubmitCases(t, st, tol, maxIters, 0);
    GraphWaitedStep(waited, 0);
    norm2 := SubmitAndRead(dev, graph, ResDot, rest);
    iters := 1;
    while Exceeds(norm2, tol) && iters < maxIters
      invariant dev.Valid() && Idle(dev.pending, rest) && Around(dev.pending, rest, A, B, {}) && iters >= 1
      invariant dev.waits == GraphWaited(waited, iters)
      invariant Carries(dev.Flushed(), view, t, Resubmitted(t, st, iters))
      invariant norm2 == Dot(Resubmitted(t, st, iters).res, Resubmitted(t, st, iters).res)
      invariant Same(m0, dev.Flushed(), Owned(view))
      invariant ResubmitLoop(t, st, tol, maxIters, 1) == ResubmitLoop(t, st, tol, maxIters, iters)
    {
      ghost var m := dev.Flushed();
      PcgSubmission(m, view, t, Resubmitted(t, st, iters), serial);
      ResubmitCases(t, st, tol, maxIters, iters);
      GraphWaitedStep(waited, iters);
      norm2 := SubmitAndRead(dev, graph, ResDot, rest);
      SameTrans(m0, m, dev.Flushed(), Owned(view), Owned(view), Owned(view));
      iters := iters + 1;
    }
    ResubmitCases(t, st, tol, maxIters, iters);
    CarriesParts(dev.Flushed(), view, t, Resubmitted(t, st, iters));
  }

  /** The run, in terms of what the graph solver knows when it starts to submit. */
  lemma RunCases(s: System, t: System, x0: Vec, y0: Vec, tol: real, maxIters: nat)
    ensures GraphRun(s, t, x0, y0, tol, maxIters)
         == if Beneath(Norm2(s, x0, 0), tol) then Outcome(y0, Norm2(s, x0, 0), 0)
            else ResubmitLoop(t, Start(s, x0).(sol := y0), tol, maxIters, 1)
    ensures Passed(s, t, x0, tol, maxIters, true) == GraphOutcome(s, t, x0, tol, maxIters)
    ensures var o := GraphOutcome(s, t, x0, tol, maxIters);
            Passed(s, t, x0, tol, maxIters, false) == Outcome(x0, o.norm2, o.iters)
    ensures GraphRun(s, t, x0, x0, tol, maxIters) == GraphOutcome(s, t, x0, tol, maxIters)
  {
    hide Norm2, Beneath, ResubmitLoop, Start;
  }

  lemma ViewApart(view: nat, captured: nat)
    requires view != captured
    ensures Sol(view) !in Owned(captured)
  {}

  /** What a solve that updates the view w leaves in the passed view. */
  lemma Seen(m: Memory, m': Memory, view: nat, w: nat, s: System, t: System, tol: real, maxIters: nat,
      norm2: real, iters: nat)
    requires Same(m, m', Owned(w))
    requires Outcome(Get(m', Sol(w)), norm2, iters)
          == GraphRun(s, t, Get(m, Sol(view)), Get(m, Sol(w)), tol, maxIters)
    ensures Outcome(Get(m', Sol(view)), norm2, iters) == Passed(s, t, Get(m, Sol(view)), tol, maxIters, w == view)
  {
    hide *;
    var x0, y0 := Get(m, Sol(view)), Get(m, Sol(w));
    RunCases(s, t, x0, y0, tol, maxIters);
    if w != view {
      RunApart(s, t, x0, y0, tol, maxIters);
      ViewApart(view, w);
      SameAt(m, m', Owned(w), Sol(view));
    }
  }

  class PCGGraph {
    const preconditioner: Preconditioners.Preconditioner
    /** Whether reductions have to be serialised. */
    const serial: bool
    /** Built on first use. */
    var graph: Option<Graph>
    /** The preconditioner that the graph was built with. */
    ghost var built: Prec
    /** The view of the solution that the graph was built with. */
    ghost var captured: nat

    ghost predicate Valid()
      reads this, preconditioner
    {
      graph.Some? ==>
        && graph.value == PcgNodes(preconditioner.p, captured, built, serial)
        && (built.Jacobi? <==> preconditioner.prec.Jacobi?)
    }

    /** The preconditioner of the submissions. */
    ghost function InGraph(): Prec
      reads this, preconditioner
    {
      if graph.None? then preconditioner.prec else built
    }

    /** The view that the submissions of a solve into the given view update. */
    ghost function Target(view: nat): nat
      reads this
    {
      if graph.None? then view else captured
    }

    constructor (p: Pattern, prec: Prec, serial: bool)
      ensures Valid() && fresh(preconditioner) && preconditioner.p == p && preconditioner.prec == prec
      ensures this.serial == serial && graph.None?
    {
      this.preconditioner := new Preconditioners.Preconditioner(p, prec);
      this.serial := serial;
      this.graph := None;
    }

    method Build(view: nat) returns (g: Graph)
      ensures g == PcgNodes(preconditioner.p, view, preconditioner.prec, serial)
    {
      hide Preconditioners.PrecTasks, Head;
      var updateSol, updateRes, dotResRes, precApply, resPResDot, betaDiv, updateDir;
      g, updateSol, updateRes := AddHead(preconditioner.p, view);
      g, dotResRes := AddNode(g, {updateRes}, DotOf(ResDot, Res, Res));
      g, precApply := preconditioner.AddNodes(g, updateRes, ResP, Res);
      g, resPResDot := AddNode(g, if serial then {precApply, dotResRes} else {precApply}, DotOf(Tmp, ResP, Res));
      g, betaDiv := AddNode(g, {resPResDot}, DivideAndSwap(Tmp, RhoOld));
      g, updateDir := AddNode(g, {updateSol, betaDiv}, Combine(Literal(1.0), ResP, View(Tmp), Dir));
    }

    /**
     * Solve by resubmission. Residual and initial direction come from the passed view and from the preconditioner
     * as it is now. The submissions use the preconditioner and update the view of the solve that built the graph:
     * if that is another view than the passed one, the passed one does not change.
     */
    method Apply(dev: Dev.Device, view: nat, tol: real, maxIters: nat) returns (norm2: real, iters: nat)
      requires Valid() && dev.Valid()
      requires Around(dev.pending, dev.pending, A, B, {})
      requires Fits(SystemIn(dev.Flushed(), preconditioner.p, preconditioner.prec), Get(dev.Flushed(), Sol(view)))
      modifies dev`memory, dev`pending, dev`next, dev`waits, this`graph, this`built, this`captured
      ensures Valid() && InGraph() == old(InGraph()) && Target(view) == old(Target(view))
      ensures graph.None? <==>
                old(graph.None?) && Beneath(Norm2(SystemIn(old(dev.Flushed()), preconditioner.p, preconditioner.prec),
                                              Get(old(dev.Flushed()), Sol(view)), 0), tol)
      ensures dev.Valid() && Idle(dev.pending, old(dev.pending))
      ensures var s := SystemIn(old(dev.Flushed()), preconditioner.p, preconditioner.prec);
              var t := SystemIn(old(dev.Flushed()), preconditioner.p, old(InGraph()));
              var x0, w := Get(old(dev.Flushed()), Sol(view)), old(Target(view));
              && Outcome(Get(dev.Flushed(), Sol(w)), norm2, iters)
                 == GraphRun(s, t, x0, Get(old(dev.Flushed()), Sol(w)), tol, maxIters)
              && Outcome(Get(dev.Flushed(), Sol(view)), norm2, iters) == Passed(s, t, x0, tol, maxIters, w == view)
      ensures Same(old(dev.Flushed()), dev.Flushed(), Owned(old(Target(view))))
      ensures dev.waits
           == old(dev.waits)
            + GraphWaits(Norm2(SystemIn(old(dev.Flushed()), preconditioner.p, preconditioner.prec),
                           Get(old(dev.Flushed()), Sol(view)), 0), tol, iters)
    {
      ghost var rest, m0, prec, w, waited := dev.pending, dev.Flushed(), InGraph(), Target(view), dev.waits;
      ghost var s, t := SystemIn(m0, preconditioner.p, preconditioner.prec), SystemIn(m0, preconditioner.p, prec);
      ghost var x0, y0 := Get(m0, Sol(view)), Get(m0, Sol(w));
      SamePrec(m0, x0);
      hide *;
      RunCases(s, t, x0, y0, tol, maxIters);
      OwnedHas(w);
      norm2 := Residual(dev, view, preconditioner.p, preconditioner.prec, rest);
      ghost var n := dev.Flushed();
      SameWiden(m0, n, Scratch(), Owned(w));
      SameAt(m0, n, Scratch(), Sol(w));
      if Beneath(norm2, tol) {
        iters := 0;
        GraphWaitedEnd(waited, norm2, tol, iters);
        Seen(m0, n, view, w, s, t, tol, maxIters, norm2, iters);
        return;
      }
      FitsParts(m0, preconditioner.p, preconditioner.prec);
      Direction(dev, preconditioner, view, s, x0, rest);
      SameTrans(m0, n, dev.Flushed(), Scratch(), Scratch(), Scratch());
      SameWiden(m0, dev.Flushed(), Scratch(), Owned(w));
      SameAt(m0, dev.Flushed(), Scratch(), Sol(w));
      Prepare(view);
      GraphWaitedStep(waited, 0);
      FitsParts(m0, preconditioner.p, prec);
      CarriesOther(dev.Flushed(), view, s, w, t, Start(s, x0));
      n := dev.Flushed();
      norm2, iters :=
        Resubmit(dev, graph.value, serial, w, t, Start(s, x0).(sol := y0), tol, maxIters, rest, waited);
      GraphWaitedEnd(waited, Norm2(s, x0, 0), tol, iters);
      SameTrans(m0, n, dev.Flushed(), Owned(w), Owned(w), Owned(w));
      Seen(m0, dev.Flushed(), view, w, s, t, tol, maxIters, norm2, iters);
    }

    /** Build the graph for the given view if this is the first use. */
    method Prepare(view: nat)
      requires Valid()
      modifies this`graph, this`built, this`captured
      ensures Valid() && InGraph() == old(InGraph()) && Target(view) == old(Target(view))
      ensures graph.Some? && graph.value == PcgNodes(preconditioner.p, Target(view), InGraph(), serial)
    {
      if graph.None? {
        var g := Build(view);
        built := preconditioner.prec;
        captured := view;
        graph := Some(g);
      }
    }

    lemma SamePrec(m: Memory, x0: Vec)
      requires Valid() && Fits(SystemIn(m, preconditioner.p, preconditioner.prec), x0)
      ensures var t := SystemIn(m, preconditioner.p, InGraph());
              Fits(t, x0) && (t.prec.Jacobi? ==> Jacobi.DiagonalStored(t.p))
    {
      hide Get, Jacobi.DiagonalStored;
    }
  }
}
