/** The preconditioners as launched kernels and as graph nodes. */
module Preconditioners {
  import opened Vectors
  import opened Csr
  import opened Tasks
  import opened Schedule
  import Dev = Device
  import Jacobi
  import Krylov

  /** Sweep number k reads one of the two buffers and writes the other one. */
  function SweepTask(p: Pattern, dst: Cell, src: Cell, k: nat): Task {
    if k % 2 == 1 then Sweep(p, dst, src, SweepTmp) else Sweep(p, SweepTmp, src, dst)
  }

  /** The first pass and the sweeps below k. */
  function Passes(p: Pattern, dst: Cell, src: Cell, k: nat): (ts: seq<Task>)
    ensures forall t | t in ts :: Reads(t) <= {MatValues, dst, src, SweepTmp} && Writes(t) <= {dst, SweepTmp}
  {
    if k <= 1 then [FirstPass(p, dst, src)] else Passes(p, dst, src, k - 1) + [SweepTask(p, dst, src, k - 1)]
  }

  /** After an even number of sweeps the result has to be copied back. */
  function CopyBack(dst: Cell, m: nat): seq<Task> {
    if m > 1 && m % 2 == 0 then [Copy(dst, SweepTmp)] else []
  }

  /** The kernels of one application. */
  function PrecTasks(p: Pattern, prec: Krylov.Prec, dst: Cell, src: Cell): (ts: seq<Task>)
    ensures ts != []
    ensures forall t | t in ts :: Reads(t) <= {MatValues, dst, src, SweepTmp} && Writes(t) <= {dst, SweepTmp}
  {
    match prec
    case Identity => [Copy(dst, src)]
    case Jacobi(m) => Passes(p, dst, src, m) + CopyBack(dst, m)
  }

  /** Distinct views, none of them the matrix or the private buffer. */
  predicate Separate(dst: Cell, src: Cell) {
    dst != src && dst !in {MatValues, SweepTmp} && src !in {MatValues, SweepTmp}
  }

  lemma ExecFirstPass(m: Memory, p: Pattern, dst: Cell, src: Cell)
    ensures Get(Exec(FirstPass(p, dst, src), m), dst)
         == Jacobi.FirstPass(p, Get(m, MatValues), Get(m, dst), Get(m, src))
  {
    hide Jacobi.FirstPass, Get;
    ExecGet(FirstPass(p, dst, src), m, dst);
  }

  lemma ExecSweep(m: Memory, p: Pattern, x: Cell, src: Cell, next: Cell)
    ensures Get(Exec(Sweep(p, x, src, next), m), next)
         == Jacobi.Sweep(p, Get(m, MatValues), Get(m, src), Get(m, x))
  {
    hide Jacobi.Sweep, Get;
    ExecGet(Sweep(p, x, src, next), m, next);
  }

  lemma SweepTaskIs(p: Pattern, dst: Cell, src: Cell, k: nat)
    ensures SweepTask(p, dst, src, k)
         == if k % 2 == 1 then Sweep(p, dst, src, SweepTmp) else Sweep(p, SweepTmp, src, dst)
  {}

  lemma ExecCopy(m: Memory, dst: Cell, src: Cell)
    ensures Get(Exec(Copy(dst, src), m), dst) == Get(m, src)
  {}

  lemma IterateStep(p: Pattern, vals: Vec, src: Vec, k: nat)
    requires k >= 1
    ensures Jacobi.Sweep(p, vals, src, Jacobi.Iterate(p, vals, src, k - 1)) == Jacobi.Iterate(p, vals, src, k)
  {}

  lemma PassesStep(p: Pattern, dst: Cell, src: Cell, k: nat)
    ensures k > 1 ==> Passes(p, dst, src, k) == Passes(p, dst, src, k - 1) + [SweepTask(p, dst, src, k - 1)]
    ensures k <= 1 ==> Passes(p, dst, src, k) == [] + [FirstPass(p, dst, src)]
    ensures forall t | t in Passes(p, dst, src, k) :: Writes(t) <= {dst, SweepTmp}
  {}

  /** Where the k-th iterate is: the two buffers alternate. */
  lemma {:induction false} PingPong(m: Memory, p: Pattern, dst: Cell, src: Cell, k: nat)
    requires Separate(dst, src) && k >= 1 && Jacobi.DiagonalStored(p)
    ensures var r := Run(m, Passes(p, dst, src, k));
            && Get(r, if k % 2 == 1 then dst else SweepTmp) == Jacobi.Iterate(p, Get(m, MatValues), Get(m, src), k)
            && Get(r, src) == Get(m, src) && Get(r, MatValues) == Get(m, MatValues)
  {
    hide *;
    SeparateFacts(dst, src);
    PassesStep(p, dst, src, k);
    RunFrame(m, Passes(p, dst, src, k), src);
    RunFrame(m, Passes(p, dst, src, k), MatValues);
    if k == 1 {
      Push(m, [], FirstPass(p, dst, src));
      ExecFirstPass(m, p, dst, src);
      Jacobi.FirstPassIsSweep(p, Get(m, MatValues), Get(m, dst), Get(m, src));
    } else {
      PingPong(m, p, dst, src, k - 1);
      Push(m, Passes(p, dst, src, k - 1), SweepTask(p, dst, src, k - 1));
      var (x, next) := if k % 2 == 0 then (dst, SweepTmp) else (SweepTmp, dst);
      SweepTaskIs(p, dst, src, k - 1);
      ExecSweep(Run(m, Passes(p, dst, src, k - 1)), p, x, src, next);
      IterateStep(p, Get(m, MatValues), Get(m, src), k);
    }
  }

  lemma SeparateFacts(dst: Cell, src: Cell)
    requires Separate(dst, src)
    ensures dst != src && dst !in {MatValues, SweepTmp} && src !in {dst, SweepTmp} && MatValues !in {dst, SweepTmp}
  {}

  lemma PrecCases(p: Pattern, prec: Krylov.Prec, dst: Cell, src: Cell)
    ensures prec.Identity? ==> PrecTasks(p, prec, dst, src) == [] + [Copy(dst, src)]
    ensures prec.Jacobi? ==>
              var k := if prec.sweeps == 0 then 1 else prec.sweeps;
              PrecTasks(p, prec, dst, src) == Passes(p, dst, src, k) + if k % 2 == 0 then [Copy(dst, SweepTmp)] else []
    ensures forall t | t in PrecTasks(p, prec, dst, src) :: Writes(t) <= {dst, SweepTmp}
  {
    if prec.Jacobi? {
      PassesOne(p, dst, src, prec.sweeps);
    }
  }

  lemma PrecMeans(p: Pattern, vals: Vec, prec: Krylov.Prec, x: Vec)
    ensures prec.Identity? ==> Krylov.System(p, vals, [], prec).M(x) == x
    ensures prec.Jacobi? ==>
      Krylov.System(p, vals, [], prec).M(x) == Jacobi.Iterate(p, vals, x, if prec.sweeps == 0 then 1 else prec.sweeps)
  {}

  /**
   * For any number of sweeps, odd or even, dst ends up holding the preconditioned src,
   * and nothing but dst and the private buffer changes.
   */
  lemma PrecResult(m: Memory, p: Pattern, prec: Krylov.Prec, dst: Cell, src: Cell)
    requires Separate(dst, src)
    requires prec.Jacobi? ==> Jacobi.DiagonalStored(p)
    ensures var r := Run(m, PrecTasks(p, prec, dst, src));
            && Get(r, dst) == Krylov.System(p, Get(m, MatValues), [], prec).M(Get(m, src))
            && forall c | c !in {dst, SweepTmp} :: Get(r, c) == Get(m, c)
  {
    hide *;
    var ts := PrecTasks(p, prec, dst, src);
    PrecCases(p, prec, dst, src);
    PrecMeans(p, Get(m, MatValues), prec, Get(m, src));
    forall c | c !in {dst, SweepTmp} ensures Get(Run(m, ts), c) == Get(m, c) {
      RunFrame(m, ts, c);
    }
    match prec
    case Identity =>
      Push(m, [], Copy(dst, src));
      ExecCopy(m, dst, src);
    case Jacobi(n) =>
      var k := if n == 0 then 1 else n;
      PingPong(m, p, dst, src, k);
      var sweeps := Passes(p, dst, src, k);
      if k % 2 == 0 {
        Push(m, sweeps, Copy(dst, SweepTmp));
        ExecCopy(Run(m, sweeps), dst, SweepTmp);
      } else {
        assert ts == sweeps;
      }
  }

  lemma PassesOne(p: Pattern, dst: Cell, src: Cell, k: nat)
    ensures Passes(p, dst, src, k) == Passes(p, dst, src, if k == 0 then 1 else k)
  {}

  /** A chain of nodes behind the node pred, created from index base on. */
  function Chain(ts: seq<Task>, pred: nat, base: nat): (g: Graph)
    ensures |g| == |ts|
  {
    seq(|ts|, i requires 0 <= i < |ts| => Node(ts[i], {if i == 0 then pred else base + i - 1}))
  }

  lemma ChainGrows(g: Graph, ts: seq<Task>, t: Task, pred: nat)
    ensures g + Chain(ts + [t], pred, |g|)
         == g + Chain(ts, pred, |g|) + [Node(t, {if ts == [] then pred else |g| + |ts| - 1})]
    ensures |g + Chain(ts, pred, |g|)| == |g| + |ts| && g + Chain([], pred, |g|) == g
  {}

  lemma GrownNone(pending: seq<Item>, stream: nat, ts: seq<Task>)
    ensures Grown(pending, pending, stream, ts)
  {}

  /** Launch one task of a list whose first part is already launched. */
  method LaunchNext(dev: Dev.Device, stream: nat, t: Task,
                    ghost before: Memory, ghost start: seq<Item>, ghost done: seq<Task>, ghost all: seq<Task>)
    requires dev.Valid() && Clear(dev.pending, stream, all)
    requires done + [t] <= all && dev.Flushed() == Run(before, done) && Grown(start, dev.pending, stream, all)
    modifies dev`memory, dev`pending, dev`next
    ensures dev.Valid() && dev.Flushed() == Run(before, done + [t])
    ensures Grown(start, dev.pending, stream, all) && Clear(dev.pending, stream, all)
  {
    hide *;
    assert t in all by {
      assert all[|done|] == (done + [t])[|done|] == t;
    }
    Narrow(dev.pending, stream, t, all);
    Push(before, done, t);
    dev.Launch(stream, t);
    Widen(start, old(dev.pending), dev.pending, stream, t, all);
  }

  lemma Narrow(pending: seq<Item>, stream: nat, t: Task, all: seq<Task>)
    requires Clear(pending, stream, all) && t in all
    ensures Clear(pending, stream, [t])
  {
    hide Independent;
  }

  lemma Widen(start: seq<Item>, before: seq<Item>, after: seq<Item>, stream: nat, t: Task, all: seq<Task>)
    requires Clear(before, stream, all) && Grown(start, before, stream, all)
    requires Grown(before, after, stream, [t]) && t in all
    ensures Grown(start, after, stream, all) && Clear(after, stream, all)
  {
    hide Independent;
    StillClear(before, after, stream, all);
  }

  class Preconditioner {
    const p: Pattern
    var prec: Krylov.Prec

    constructor (p: Pattern, prec: Krylov.Prec)
      ensures this.p == p && this.prec == prec
    {
      this.p := p;
      this.prec := prec;
    }

    /** Launch the kernels on a stream. */
    method Apply(dev: Dev.Device, stream: nat, dst: Cell, src: Cell)
      requires dev.Valid() && Clear(dev.pending, stream, PrecTasks(p, prec, dst, src))
      modifies dev`memory, dev`pending, dev`next
      ensures dev.Valid() && dev.Flushed() == Run(old(dev.Flushed()), PrecTasks(p, prec, dst, src))
      ensures Grown(old(dev.pending), dev.pending, stream, PrecTasks(p, prec, dst, src))
    {
      hide *;
      ghost var before, start := dev.Flushed(), dev.pending;
      ghost var all := PrecTasks(p, prec, dst, src);
      PrecCases(p, prec, dst, src);
      GrownNone(dev.pending, stream, all);
      Push(before, [], Copy(dst, src));
      match prec
      case Identity =>
        LaunchNext(dev, stream, Copy(dst, src), before, start, [], all);
      case Jacobi(m) =>
        PassesStep(p, dst, src, 1);
        Prefix(p, dst, src, m, 1);
        LaunchNext(dev, stream, FirstPass(p, dst, src), before, start, [], all);
        var k := 1;
        while k < m
          invariant 1 <= k && (k <= m || k == 1)
          invariant dev.Valid() && dev.Flushed() == Run(before, Passes(p, dst, src, k))
          invariant Grown(start, dev.pending, stream, all) && Clear(dev.pending, stream, all)
        {
          PassesStep(p, dst, src, k + 1);
          Prefix(p, dst, src, m, k + 1);
          SweepTaskIs(p, dst, src, k);
          if k % 2 == 1 {
            LaunchNext(dev, stream, Sweep(p, dst, src, SweepTmp), before, start, Passes(p, dst, src, k), all);
          } else {
            LaunchNext(dev, stream, Sweep(p, SweepTmp, src, dst), before, start, Passes(p, dst, src, k), all);
          }
          k := k + 1;
        }
        if m > 1 && m % 2 == 0 {
          LaunchNext(dev, stream, Copy(dst, SweepTmp), before, start, Passes(p, dst, src, k), all);
        } else {
          assert all == Passes(p, dst, src, k);
        }
    }

    /** Add the kernels to a graph as a chain behind the node pred. */
    method AddNodes(g: Graph, pred: nat, dst: Cell, src: Cell) returns (g': Graph, last: nat)
      ensures g' == g + Chain(PrecTasks(p, prec, dst, src), pred, |g|)
      ensures last == |g'| - 1
    {
      hide *;
      PrecCases(p, prec, dst, src);
      match prec
      case Identity =>
        ChainGrows(g, [], Copy(dst, src), pred);
        g', last := g + [Node(Copy(dst, src), {pred})], |g|;
      case Jacobi(m) =>
        PassesStep(p, dst, src, 1);
        ChainGrows(g, [], FirstPass(p, dst, src), pred);
        g', last := g + [Node(FirstPass(p, dst, src), {pred})], |g|;
        var k := 1;
        while k < m
          invariant 1 <= k && (k <= m || k == 1)
          invariant Passes(p, dst, src, k) != []
          invariant g' == g + Chain(Passes(p, dst, src, k), pred, |g|) && last == |g'| - 1
        {
          PassesStep(p, dst, src, k + 1);
          SweepTaskIs(p, dst, src, k);
          ChainGrows(g, Passes(p, dst, src, k), SweepTask(p, dst, src, k), pred);
          var sweep := if k % 2 == 1 then Sweep(p, dst, src, SweepTmp) else Sweep(p, SweepTmp, src, dst);
          g' := g' + [Node(sweep, {last})];
          last := last + 1;
          k := k + 1;
        }
        if m > 1 && m % 2 == 0 {
          ChainGrows(g, Passes(p, dst, src, k), Copy(dst, SweepTmp), pred);
          g' := g' + [Node(Copy(dst, SweepTmp), {last})];
          last := last + 1;
        } else {
          assert PrecTasks(p, prec, dst, src) == Passes(p, dst, src, k);
        }
    }
  }

  /** One more task at the end, and what is then in the sequence. */
  lemma Push(m: Memory, ts: seq<Task>, t: Task)
    ensures Run(m, ts + [t]) == Exec(t, Run(m, ts))
    ensures Run(m, []) == m && t in ts + [t]
  {
    hide Exec, Run;
    RunAppend(m, ts, t);
    assert Run(m, []) == m by { EmptyRun(m); }
    assert (ts + [t])[|ts|] == t;
  }

  lemma EmptyRun(m: Memory)
    ensures Run(m, []) == m
  {}

  /** The first k passes come first. */
  lemma {:induction false} Prefix(p: Pattern, dst: Cell, src: Cell, m: nat, k: nat)
    requires 1 <= k && (k <= m || k == 1)
    ensures Passes(p, dst, src, k) <= Passes(p, dst, src, if m == 0 then 1 else m)
    decreases m - k
  {
    PassesOne(p, dst, src, m);
    var ts := Passes(p, dst, src, k);
    if k < m {
      Prefix(p, dst, src, m, k + 1);
      assert ts <= Passes(p, dst, src, k + 1);
    }
  }
}
