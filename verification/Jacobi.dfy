/** The Jacobi sweeps used as a preconditioner: kernels, iterates, linearity and symmetry. */
module Jacobi {
  import opened Vectors
  import opened Csr

  /** The first slot at or after lo that holds column i, or hi. */
  function FirstSlot(p: Pattern, lo: nat, hi: nat, i: nat): (k: nat)
    ensures lo <= hi ==> lo <= k <= hi
    ensures lo <= k < hi ==> p.Col(k) == i
    ensures forall j | lo <= j < k && j < hi :: p.Col(j) != i
    decreases hi - lo
  {
    if hi <= lo then hi
    else if p.Col(lo) == i then lo
    else FirstSlot(p, lo + 1, hi, i)
  }

  function DiagSlot(p: Pattern, i: nat): nat {
    FirstSlot(p, p.Begin(i), p.End(i), i)
  }

  /** Every row has exactly one slot on the diagonal. */
  ghost predicate DiagonalStored(p: Pattern) {
    forall i | 0 <= i < p.Rows() ::
      && p.Begin(i) <= DiagSlot(p, i) < p.End(i)
      && forall k | DiagSlot(p, i) < k < p.End(i) :: p.Col(k) != i
  }

  /** What a sweep accumulates over the slots in [lo, hi) of row i. */
  function OffSum(p: Pattern, vals: Vec, lo: nat, hi: nat, i: nat, x: Vec): real {
    if hi <= lo then 0.0
    else if p.Col(hi - 1) == i then OffSum(p, vals, lo, hi - 1, i, x)
    else OffSum(p, vals, lo, hi - 1, i, x) + Mul(At(vals, hi - 1), At(x, p.Col(hi - 1)))
  }

  /** The diagonal value a sweep remembers: the last one met. */
  function LastDiag(p: Pattern, vals: Vec, lo: nat, hi: nat, i: nat): real {
    if hi <= lo then 0.0
    else if p.Col(hi - 1) == i then At(vals, hi - 1)
    else LastDiag(p, vals, lo, hi - 1, i)
  }

  function Off(p: Pattern, vals: Vec, i: nat, x: Vec): real {
    OffSum(p, vals, p.Begin(i), p.End(i), i, x)
  }

  function Diag(p: Pattern, vals: Vec, i: nat): real {
    LastDiag(p, vals, p.Begin(i), p.End(i), i)
  }

  function FirstPass(p: Pattern, vals: Vec, dst: Vec, src: Vec): (r: Vec)
    ensures |r| == p.Rows()
  {
    seq(p.Rows(), i requires 0 <= i =>
      if DiagSlot(p, i) < p.End(i) then Div(At(src, i), At(vals, DiagSlot(p, i))) else At(dst, i))
  }

  function Sweep(p: Pattern, vals: Vec, src: Vec, x: Vec): (r: Vec)
    ensures |r| == p.Rows()
  {
    seq(p.Rows(), i requires 0 <= i => Div(At(src, i) - Off(p, vals, i, x), Diag(p, vals, i)))
  }

  /** The m-th Jacobi iterate for the right-hand side src, started from zero. */
  function Iterate(p: Pattern, vals: Vec, src: Vec, m: nat): (r: Vec)
    ensures |r| == p.Rows()
  {
    if m == 0 then Zeros(p.Rows()) else Sweep(p, vals, src, Iterate(p, vals, src, m - 1))
  }

  // ------------------------------------------------------------------------
  // Kernels. The rows of a parallel_for run in any order.
  // ------------------------------------------------------------------------

  /** ApplyFirstPass over all rows. */
  method FirstPassKernel(p: Pattern, vals: array<real>, dst: array<real>, src: array<real>)
    requires dst.Length == src.Length == p.Rows() && vals.Length == |p.cols|
    requires p.WellFormed() && dst != src && dst != vals
    modifies dst
    ensures dst[..] == FirstPass(p, vals[..], old(dst[..]), src[..])
  {
    var rows := Range(p.Rows());
    while rows != {}
      invariant rows <= Range(p.Rows())
      invariant forall i | 0 <= i < p.Rows() ::
                  dst[i] == if i in rows then old(dst[i]) else FirstPass(p, vals[..], old(dst[..]), src[..])[i]
      decreases |rows|
    {
      var irow :| irow in rows;
      rows := rows - {irow};
      BeginBound(p, irow + 1);
      var ival := p.rowMap[irow];
      while ival < p.rowMap[irow + 1]
        invariant p.Begin(irow) <= ival <= p.End(irow)
        invariant FirstSlot(p, ival, p.End(irow), irow) == DiagSlot(p, irow)
        invariant dst[irow] == old(dst[irow])
        invariant forall i | 0 <= i < p.Rows() && i != irow ::
                    dst[i] == if i in rows then old(dst[i]) else FirstPass(p, vals[..], old(dst[..]), src[..])[i]
      {
        if p.cols[ival] == irow {
          dst[irow] := Div(src[irow], vals[ival]);
          break;
        }
        ival := ival + 1;
      }
    }
  }

  /** Apply over all rows: one sweep from x into next. */
  method SweepKernel(p: Pattern, vals: array<real>, x: array<real>, src: array<real>, next: array<real>)
    requires x.Length == next.Length == src.Length == p.Rows() && vals.Length == |p.cols|
    requires p.WellFormed() && next != x && next != src && next != vals
    modifies next
    ensures next[..] == Sweep(p, vals[..], src[..], x[..])
  {
    var rows := Range(p.Rows());
    while rows != {}
      invariant rows <= Range(p.Rows())
      invariant forall i | 0 <= i < p.Rows() && i !in rows :: next[i] == Sweep(p, vals[..], src[..], x[..])[i]
      decreases |rows|
    {
      var irow :| irow in rows;
      rows := rows - {irow};
      BeginBound(p, irow + 1);
      var accu, diag := 0.0, 0.0;
      var ival := p.rowMap[irow];
      while ival < p.rowMap[irow + 1]
        invariant p.Begin(irow) <= ival <= p.End(irow)
        invariant accu == OffSum(p, vals[..], p.Begin(irow), ival, irow, x[..])
        invariant diag == LastDiag(p, vals[..], p.Begin(irow), ival, irow)
      {
        var icol := p.cols[ival];
        if icol == irow {
          diag := vals[ival];
        } else {
          accu := accu + Mul(vals[ival], x[icol]);
        }
        ival := ival + 1;
      }
      next[irow] := Div(src[irow] - accu, diag);
    }
  }

  // ------------------------------------------------------------------------
  // The splitting of the matrix into its diagonal and the rest.
  // ------------------------------------------------------------------------

  lemma {:induction false} LastDiagUnique(p: Pattern, vals: Vec, lo: nat, hi: nat, i: nat, k: nat)
    requires lo <= k < hi && p.Col(k) == i
    requires forall j | k < j < hi :: p.Col(j) != i
    ensures LastDiag(p, vals, lo, hi, i) == At(vals, k)
  {
    if k < hi - 1 {
      LastDiagUnique(p, vals, lo, hi - 1, i, k);
    }
  }

  /** Both kernels read the same diagonal value. */
  lemma DiagAgrees(p: Pattern, vals: Vec, i: nat)
    requires DiagonalStored(p) && i < p.Rows()
    ensures Diag(p, vals, i) == At(vals, DiagSlot(p, i))
  {
    LastDiagUnique(p, vals, p.Begin(i), p.End(i), i, DiagSlot(p, i));
  }

  lemma {:induction false} OffNone(p: Pattern, vals: Vec, lo: nat, hi: nat, i: nat, x: Vec)
    requires forall k | lo <= k < hi :: p.Col(k) != i
    ensures SlotSum(p, vals, lo, hi, x) == OffSum(p, vals, lo, hi, i, x)
  {
    if lo < hi {
      OffNone(p, vals, lo, hi - 1, i, x);
    }
  }

  lemma {:induction false} OffSplit(p: Pattern, vals: Vec, lo: nat, hi: nat, i: nat, k: nat, x: Vec)
    requires lo <= k < hi && p.Col(k) == i
    requires forall j | lo <= j < hi && j != k :: p.Col(j) != i
    ensures SlotSum(p, vals, lo, hi, x) == OffSum(p, vals, lo, hi, i, x) + Mul(At(vals, k), At(x, i))
  {
    if k < hi - 1 {
      OffSplit(p, vals, lo, hi - 1, i, k, x);
    } else {
      OffNone(p, vals, lo, hi - 1, i, x);
    }
  }

  /** A row product is the accumulated part plus the diagonal part. */
  lemma RowSplit(p: Pattern, vals: Vec, i: nat, x: Vec)
    requires DiagonalStored(p) && i < p.Rows()
    ensures RowDot(p, vals, i, x) == Off(p, vals, i, x) + Mul(Diag(p, vals, i), At(x, i))
  {
    DiagAgrees(p, vals, i);
    OffSplit(p, vals, p.Begin(i), p.End(i), i, DiagSlot(p, i), x);
  }

  lemma {:induction false} OffSumZero(p: Pattern, vals: Vec, lo: nat, hi: nat, i: nat, n: nat)
    ensures OffSum(p, vals, lo, hi, i, Zeros(n)) == 0.0
  {
    if lo < hi {
      OffSumZero(p, vals, lo, hi - 1, i, n);
    }
  }

  lemma SweepAt(p: Pattern, vals: Vec, src: Vec, x: Vec, i: nat)
    requires i < p.Rows()
    ensures Sweep(p, vals, src, x)[i] == Div(At(src, i) - Off(p, vals, i, x), Diag(p, vals, i))
  {
    hide Div, Off, Diag;
  }

  lemma FirstPassAt(p: Pattern, vals: Vec, dst: Vec, src: Vec, i: nat)
    requires i < p.Rows() && DiagSlot(p, i) < p.End(i)
    ensures FirstPass(p, vals, dst, src)[i] == Div(At(src, i), At(vals, DiagSlot(p, i)))
  {
    hide Div, DiagSlot;
  }

  lemma OffZero(p: Pattern, vals: Vec, i: nat)
    ensures Off(p, vals, i, Zeros(p.Rows())) == 0.0
  {
    OffSumZero(p, vals, p.Begin(i), p.End(i), i, p.Rows());
  }

  lemma IterateOne(p: Pattern, vals: Vec, src: Vec)
    ensures Iterate(p, vals, src, 1) == Sweep(p, vals, src, Zeros(p.Rows()))
  {
    hide Sweep;
  }

  lemma DiagonalIn(p: Pattern, i: nat)
    requires DiagonalStored(p) && i < p.Rows()
    ensures DiagSlot(p, i) < p.End(i)
  {}

  /** The specialised first pass is the first sweep from zero, whatever dst held. */
  lemma FirstPassIsSweep(p: Pattern, vals: Vec, dst: Vec, src: Vec)
    requires DiagonalStored(p)
    ensures FirstPass(p, vals, dst, src) == Iterate(p, vals, src, 1)
  {
    hide *;
    IterateOne(p, vals, src);
    forall i | 0 <= i < p.Rows()
      ensures FirstPass(p, vals, dst, src)[i] == Sweep(p, vals, src, Zeros(p.Rows()))[i]
    {
      DiagAgrees(p, vals, i);
      DiagonalIn(p, i);
      FirstPassAt(p, vals, dst, src, i);
      SweepAt(p, vals, src, Zeros(p.Rows()), i);
      OffZero(p, vals, i);
    }
  }

  /** The accumulated part of a row does not depend on the unknown of the row. */
  lemma {:induction false} OffSumApart(p: Pattern, vals: Vec, lo: nat, hi: nat, i: nat, x: Vec, y: real)
    requires i < |x|
    ensures OffSum(p, vals, lo, hi, i, x[i := y]) == OffSum(p, vals, lo, hi, i, x)
  {
    if lo < hi {
      OffSumApart(p, vals, lo, hi - 1, i, x, y);
    }
  }

  /** A sweep solves each row for its own unknown, with all others as they were before the sweep. */
  lemma RowSolved(p: Pattern, vals: Vec, src: Vec, x: Vec, i: nat, y: real)
    requires DiagonalStored(p) && |x| == |src| == p.Rows() && i < p.Rows()
    requires At(vals, DiagSlot(p, i)) != 0.0
    ensures y == Sweep(p, vals, src, x)[i] <==> RowDot(p, vals, i, x[i := y]) == src[i]
  {
    hide *;
    SweepAt(p, vals, src, x, i);
    DiagAgrees(p, vals, i);
    RowSplit(p, vals, i, x[i := y]);
    OffApart(p, vals, i, x, y);
    var d, o := Diag(p, vals, i), Off(p, vals, i, x);
    AtIs(src, i);
    AtIs(x[i := y], i);
    DivMul(src[i] - o, d);
    MulComm(d, y);
    if Mul(y, d) == src[i] - o {
      DivUnique(src[i] - o, d, y);
    }
  }

  lemma OffApart(p: Pattern, vals: Vec, i: nat, x: Vec, y: real)
    requires i < |x|
    ensures Off(p, vals, i, x[i := y]) == Off(p, vals, i, x)
  {
    OffSumApart(p, vals, p.Begin(i), p.End(i), i, x, y);
  }

  /** A fixed point of the sweep solves the system, and every solution is a fixed point. */
  lemma FixedPoint(p: Pattern, vals: Vec, src: Vec, x: Vec)
    requires DiagonalStored(p) && |x| == |src| == p.Rows()
    requires forall i | 0 <= i < p.Rows() :: At(vals, DiagSlot(p, i)) != 0.0
    ensures Sweep(p, vals, src, x) == x <==> MatVec(p, vals, x) == src
  {
    forall i | 0 <= i < p.Rows()
      ensures Sweep(p, vals, src, x)[i] == x[i] <==> MatVec(p, vals, x)[i] == src[i]
    {
      hide Mul, Div, Off, Diag, RowDot;
      RowSplit(p, vals, i, x);
      DiagAgrees(p, vals, i);
      var d, o := Diag(p, vals, i), Off(p, vals, i, x);
      DivMul(src[i] - o, d);
      MulComm(d, x[i]);
      if Mul(x[i], d) == src[i] - o {
        DivUnique(src[i] - o, d, x[i]);
      }
    }
    if Sweep(p, vals, src, x) == x {
      assert forall i | 0 <= i < p.Rows() :: Sweep(p, vals, src, x)[i] == x[i];
    }
    if MatVec(p, vals, x) == src {
      assert forall i | 0 <= i < p.Rows() :: MatVec(p, vals, x)[i] == src[i];
    }
  }

  // ------------------------------------------------------------------------
  // The preconditioner as a linear, symmetric operator.
  // ------------------------------------------------------------------------

  function OffVec(p: Pattern, vals: Vec, x: Vec): (r: Vec)
    ensures |r| == p.Rows()
  {
    seq(p.Rows(), i requires 0 <= i => Off(p, vals, i, x))
  }

  /** Division by the diagonal. */
  function Scale(p: Pattern, vals: Vec, x: Vec): (r: Vec)
    ensures |r| == p.Rows()
  {
    seq(p.Rows(), i requires 0 <= i => Div(At(x, i), Diag(p, vals, i)))
  }

  lemma {:induction false} OffSumLinear(p: Pattern, vals: Vec, lo: nat, hi: nat, i: nat, a: real, x: Vec, b: real,
      y: Vec)
    requires |x| == |y|
    ensures OffSum(p, vals, lo, hi, i, Axpby(a, x, b, y))
         == Mul(a, OffSum(p, vals, lo, hi, i, x)) + Mul(b, OffSum(p, vals, lo, hi, i, y))
  {
    hide Mul;
    if hi <= lo {
      MulUnits(a);
      MulUnits(b);
    } else {
      OffSumLinear(p, vals, lo, hi - 1, i, a, x, b, y);
      var c, v := p.Col(hi - 1), At(vals, hi - 1);
      AtAxpby(a, x, b, y, c);
      MulLinear(v, a, At(x, c), b, At(y, c));
      MulAdd(a, OffSum(p, vals, lo, hi - 1, i, x), Mul(v, At(x, c)));
      MulAdd(b, OffSum(p, vals, lo, hi - 1, i, y), Mul(v, At(y, c)));
    }
  }

  lemma OffVecLinear(p: Pattern, vals: Vec, a: real, x: Vec, b: real, y: Vec)
    requires |x| == |y|
    ensures OffVec(p, vals, Axpby(a, x, b, y)) == Axpby(a, OffVec(p, vals, x), b, OffVec(p, vals, y))
  {
    forall i | 0 <= i < p.Rows()
      ensures OffVec(p, vals, Axpby(a, x, b, y))[i] == Axpby(a, OffVec(p, vals, x), b, OffVec(p, vals, y))[i]
    {
      hide Mul;
      OffSumLinear(p, vals, p.Begin(i), p.End(i), i, a, x, b, y);
    }
  }

  lemma ScaleLinear(p: Pattern, vals: Vec, a: real, x: Vec, b: real, y: Vec)
    requires |x| == |y|
    ensures Scale(p, vals, Axpby(a, x, b, y)) == Axpby(a, Scale(p, vals, x), b, Scale(p, vals, y))
  {
    forall i | 0 <= i < p.Rows()
      ensures Scale(p, vals, Axpby(a, x, b, y))[i] == Axpby(a, Scale(p, vals, x), b, Scale(p, vals, y))[i]
    {
      hide Mul, Div, Diag;
      AtAxpby(a, x, b, y, i);
      DivLinear(a, At(x, i), b, At(y, i), Diag(p, vals, i));
    }
  }

  /** One sweep in operator form. */
  lemma SweepSplit(p: Pattern, vals: Vec, src: Vec, x: Vec)
    requires |src| == p.Rows()
    ensures Sweep(p, vals, src, x) == Axpby(-1.0, Scale(p, vals, OffVec(p, vals, x)), 1.0, Scale(p, vals, src))
  {
    forall i | 0 <= i < p.Rows()
      ensures Sweep(p, vals, src, x)[i]
           == Axpby(-1.0, Scale(p, vals, OffVec(p, vals, x)), 1.0, Scale(p, vals, src))[i]
    {
      hide Mul, Div, Diag, Off;
      var o, d := Off(p, vals, i, x), Diag(p, vals, i);
      DivLinear(-1.0, o, 1.0, At(src, i), d);
      MulUnits(o);
      MulUnits(At(src, i));
    }
  }

  lemma SweepLinear(p: Pattern, vals: Vec, a: real, u: Vec, x: Vec, b: real, v: Vec, y: Vec)
    requires |u| == |v| && |x| == |y|
    ensures Sweep(p, vals, Axpby(a, u, b, v), Axpby(a, x, b, y))
         == Axpby(a, Sweep(p, vals, u, x), b, Sweep(p, vals, v, y))
  {
    forall i | 0 <= i < p.Rows()
      ensures Sweep(p, vals, Axpby(a, u, b, v), Axpby(a, x, b, y))[i]
           == Axpby(a, Sweep(p, vals, u, x), b, Sweep(p, vals, v, y))[i]
    {
      hide Mul, Div, Diag;
      OffSumLinear(p, vals, p.Begin(i), p.End(i), i, a, x, b, y);
      AtAxpby(a, u, b, v, i);
      MulAdd(a, At(u, i), Off(p, vals, i, x));
      MulAdd(b, At(v, i), Off(p, vals, i, y));
      DivLinear(a, At(u, i) - Off(p, vals, i, x), b, At(v, i) - Off(p, vals, i, y), Diag(p, vals, i));
    }
  }

  /** Linearity: any number of sweeps of a combination is the combination of the sweeps. */
  lemma {:induction false} IterateLinear(p: Pattern, vals: Vec, a: real, u: Vec, b: real, v: Vec, m: nat)
    requires |u| == |v| == p.Rows()
    ensures Iterate(p, vals, Axpby(a, u, b, v), m) == Axpby(a, Iterate(p, vals, u, m), b, Iterate(p, vals, v, m))
  {
    hide Mul, Div, Axpby, Sweep, Zeros;
    if m == 0 {
      ZerosCombine(a, b, p.Rows());
    } else {
      IterateLinear(p, vals, a, u, b, v, m - 1);
      SweepLinear(p, vals, a, u, Iterate(p, vals, u, m - 1), b, v, Iterate(p, vals, v, m - 1));
    }
  }

  lemma ZerosCombine(a: real, b: real, n: nat)
    ensures Axpby(a, Zeros(n), b, Zeros(n)) == Zeros(n)
  {
    hide Mul;
    MulUnits(a);
    MulUnits(b);
  }

  lemma {:induction false} DotToScale(p: Pattern, vals: Vec, u: Vec, v: Vec, k: nat)
    requires |u| == |v| == p.Rows() && k <= p.Rows()
    ensures DotTo(Scale(p, vals, u), v, k) == DotTo(u, Scale(p, vals, v), k)
  {
    hide Mul, Div, Diag;
    if k > 0 {
      DotToScale(p, vals, u, v, k - 1);
      DivMove(u[k - 1], v[k - 1], Diag(p, vals, k - 1));
    }
  }

  lemma DivMove(s: real, t: real, d: real)
    ensures Mul(Div(s, d), t) == Mul(s, Div(t, d))
  {
    if d != 0.0 {
      hide Mul, Div;
      DivMul(s, d);
      DivMul(t, d);
      MulSwap(Div(s, d), d, Div(t, d));
      MulSwap(d, Div(s, d), Div(t, d));
    }
  }

  /** Division by the diagonal is self-adjoint. */
  lemma ScaleSymmetric(p: Pattern, vals: Vec, u: Vec, v: Vec)
    requires |u| == |v| == p.Rows()
    ensures Dot(Scale(p, vals, u), v) == Dot(u, Scale(p, vals, v))
  {
    DotToScale(p, vals, u, v, p.Rows());
  }

  lemma {:induction false} DotToOff(p: Pattern, vals: Vec, u: Vec, v: Vec, k: nat)
    requires DiagonalStored(p) && |u| == |v| == p.Rows() && k <= p.Rows()
    ensures DotTo(u, MatVec(p, vals, v), k) - DotTo(u, OffVec(p, vals, v), k)
         == DotTo(v, MatVec(p, vals, u), k) - DotTo(v, OffVec(p, vals, u), k)
  {
    hide Mul, Diag, Off, RowDot, DiagonalStored;
    if k > 0 {
      var i := k - 1;
      DotToOff(p, vals, u, v, i);
      RowSplit(p, vals, i, u);
      RowSplit(p, vals, i, v);
      var d := Diag(p, vals, i);
      MulAdd(u[i], Off(p, vals, i, v), Mul(d, v[i]));
      MulAdd(v[i], Off(p, vals, i, u), Mul(d, u[i]));
      MulSwap(u[i], d, v[i]);
      MulSwap(v[i], d, u[i]);
      MulComm(u[i], v[i]);
    }
  }

  /** The off-diagonal part of a symmetric matrix is self-adjoint. */
  lemma OffSymmetric(p: Pattern, vals: Vec, u: Vec, v: Vec)
    requires p.WellFormed() && Symmetric(p, vals) && DiagonalStored(p) && |u| == |v| == p.Rows()
    ensures Dot(u, OffVec(p, vals, v)) == Dot(OffVec(p, vals, u), v)
  {
    DotToOff(p, vals, u, v, p.Rows());
    SelfAdjoint(p, vals, u, v);
    DotComm(MatVec(p, vals, u), v);
    DotComm(OffVec(p, vals, u), v);
  }

  lemma {:induction false} IterateZero(p: Pattern, vals: Vec, m: nat)
    ensures Iterate(p, vals, Zeros(p.Rows()), m) == Zeros(p.Rows())
  {
    if m > 0 {
      IterateZero(p, vals, m - 1);
      var z := Zeros(p.Rows());
      forall i | 0 <= i < p.Rows() ensures Sweep(p, vals, z, z)[i] == 0.0 {
        OffSumZero(p, vals, p.Begin(i), p.End(i), i, p.Rows());
        assert At(z, i) == 0.0;
      }
    }
  }

  /** The first sweep is diagonal scaling. */
  lemma FirstSweep(p: Pattern, vals: Vec, x: Vec)
    ensures Iterate(p, vals, x, 1) == Scale(p, vals, x)
  {
    var z := Zeros(p.Rows());
    forall i | 0 <= i < p.Rows() ensures Sweep(p, vals, x, z)[i] == Scale(p, vals, x)[i] {
      OffSumZero(p, vals, p.Begin(i), p.End(i), i, p.Rows());
    }
    assert Iterate(p, vals, x, 1) == Sweep(p, vals, x, z);
  }

  /** Sweeping once more on the inside is the same as sweeping once more on the outside. */
  lemma {:induction false} IterateInside(p: Pattern, vals: Vec, u: Vec, m: nat)
    requires |u| == p.Rows()
    ensures Iterate(p, vals, u, m + 1)
         == Axpby(-1.0, Iterate(p, vals, OffVec(p, vals, Scale(p, vals, u)), m), 1.0, Scale(p, vals, u))
  {
    var s := Scale(p, vals, u);
    var w := OffVec(p, vals, s);
    SweepSplit(p, vals, u, Iterate(p, vals, u, m));
    if m == 0 {
      FirstSweep(p, vals, u);
      assert Iterate(p, vals, u, 1) == Axpby(-1.0, Zeros(p.Rows()), 1.0, s);
    } else {
      IterateInside(p, vals, u, m - 1);
      var x := Iterate(p, vals, w, m - 1);
      OffVecLinear(p, vals, -1.0, x, 1.0, s);
      ScaleLinear(p, vals, -1.0, OffVec(p, vals, x), 1.0, w);
      SweepSplit(p, vals, w, x);
      assert Iterate(p, vals, w, m) == Axpby(-1.0, Scale(p, vals, OffVec(p, vals, x)), 1.0, Scale(p, vals, w));
    }
  }

  lemma IterateOutside(p: Pattern, vals: Vec, u: Vec, v: Vec, x: Vec)
    requires p.WellFormed() && Symmetric(p, vals) && DiagonalStored(p) && |u| == |v| == |x| == p.Rows()
    ensures Dot(Sweep(p, vals, u, x), v)
         == -Dot(x, OffVec(p, vals, Scale(p, vals, v))) + Dot(u, Scale(p, vals, v))
  {
    hide *;
    SweepSplit(p, vals, u, x);
    DotAxpby(-1.0, Scale(p, vals, OffVec(p, vals, x)), 1.0, Scale(p, vals, u), v);
    MulUnits(Dot(Scale(p, vals, OffVec(p, vals, x)), v));
    MulUnits(Dot(Scale(p, vals, u), v));
    ScaleSymmetric(p, vals, u, v);
    ScaleSymmetric(p, vals, OffVec(p, vals, x), v);
    OffSymmetric(p, vals, x, Scale(p, vals, v));
  }

  /** Symmetry: for a symmetric matrix, m sweeps form a self-adjoint operator. */
  lemma {:induction false} IterateSymmetric(p: Pattern, vals: Vec, u: Vec, v: Vec, m: nat)
    requires p.WellFormed() && Symmetric(p, vals) && DiagonalStored(p) && |u| == |v| == p.Rows()
    ensures Dot(Iterate(p, vals, u, m), v) == Dot(u, Iterate(p, vals, v, m))
    decreases m
  {
    hide Mul, DotTo, Scale, OffVec, Sweep, Axpby, DiagonalStored, Symmetric;
    var n := p.Rows();
    if m == 0 {
      DotToZero(Zeros(n), v, n);
      DotToZero(Zeros(n), u, n);
    } else {
      var s := Scale(p, vals, v);
      var w := OffVec(p, vals, s);
      IterateOutside(p, vals, u, v, Iterate(p, vals, u, m - 1));
      IterateSymmetric(p, vals, u, w, m - 1);
      IterateInside(p, vals, v, m - 1);
      DotAxpbyRight(u, -1.0, Iterate(p, vals, w, m - 1), 1.0, s);
      MulUnits(Dot(u, Iterate(p, vals, w, m - 1)));
      MulUnits(Dot(u, s));
    }
  }

  lemma DiagPositive(p: Pattern, vals: Vec, i: nat)
    requires Spd(p, vals) && DiagonalStored(p) && i < p.Rows()
    ensures Diag(p, vals, i) > 0.0
  {
    hide Mul, Diag, SlotSum;
    MulUnits(Diag(p, vals, i));
    var n, e := p.Rows(), Unit(p.Rows(), i);
    assert e[i] != 0.0;
    DotToUnit(n, i, MatVec(p, vals, e), n);
    RowSplit(p, vals, i, e);
    OffUnit(p, vals, p.Begin(i), p.End(i), i);
  }

  lemma {:induction false} OffUnit(p: Pattern, vals: Vec, lo: nat, hi: nat, i: nat)
    ensures OffSum(p, vals, lo, hi, i, Unit(p.Rows(), i)) == 0.0
  {
    if lo < hi {
      OffUnit(p, vals, lo, hi - 1, i);
    }
  }

  lemma {:induction false} ScaleSign(p: Pattern, vals: Vec, x: Vec, k: nat, i: nat)
    requires Spd(p, vals) && DiagonalStored(p) && |x| == p.Rows() && k <= p.Rows()
    ensures DotTo(Scale(p, vals, x), x, k) >= 0.0
    ensures i < k && At(x, i) != 0.0 ==> DotTo(Scale(p, vals, x), x, k) > 0.0
  {
    hide *;
    if k == 0 {
      DotToStep(Scale(p, vals, x), x, 0);
    } else {
      ScaleSign(p, vals, x, k - 1, i);
      DotToStep(Scale(p, vals, x), x, k - 1);
      ScaleAt(p, vals, x, k - 1);
      DiagPositive(p, vals, k - 1);
      QuotientSign(At(x, k - 1), Diag(p, vals, k - 1));
    }
  }

  lemma ScaleAt(p: Pattern, vals: Vec, x: Vec, i: nat)
    requires i < p.Rows()
    ensures At(Scale(p, vals, x), i) == Div(At(x, i), Diag(p, vals, i))
  {}

  lemma QuotientSign(a: real, d: real)
    requires d > 0.0
    ensures Mul(Div(a, d), a) >= 0.0
    ensures a != 0.0 ==> Mul(Div(a, d), a) > 0.0
  {
    hide Mul, Div;
    var q := Div(a, d);
    DivMul(a, d);
    MulSign(q, a);
    MulSign(q, d);
    MulNeg(q, d);
    MulSign(-q, d);
  }

  // ------------------------------------------------------------------------
  // When the preconditioner is positive definite.
  // ------------------------------------------------------------------------

  /** Two more sweeps, seen through the quadratic form. */
  lemma FormStep(p: Pattern, vals: Vec, u: Vec, m: nat)
    requires p.WellFormed() && Symmetric(p, vals) && DiagonalStored(p) && |u| == p.Rows()
    ensures var s := Scale(p, vals, u);
            var w := OffVec(p, vals, s);
            Dot(Iterate(p, vals, u, m + 2), u) == Dot(s, u) - Dot(w, s) + Dot(Iterate(p, vals, w, m), w)
  {
    hide *;
    var s := Scale(p, vals, u);
    var w := OffVec(p, vals, s);
    var x := Iterate(p, vals, w, m);
    IterateInside(p, vals, u, m + 1);
    DotAxpby(-1.0, Iterate(p, vals, w, m + 1), 1.0, s, u);
    MulUnits(Dot(Iterate(p, vals, w, m + 1), u));
    MulUnits(Dot(s, u));
    IterateIsSweep(p, vals, w, m);
    IterateOutside(p, vals, w, u, x);
  }

  lemma IterateIsSweep(p: Pattern, vals: Vec, src: Vec, m: nat)
    ensures Iterate(p, vals, src, m + 1) == Sweep(p, vals, src, Iterate(p, vals, src, m))
  {}

  /** Division by a positive diagonal is positive definite. */
  lemma ScaleDefinite(p: Pattern, vals: Vec, x: Vec)
    requires Spd(p, vals) && DiagonalStored(p) && |x| == p.Rows()
    ensures Dot(Scale(p, vals, x), x) >= 0.0
    ensures !IsZero(x) ==> Dot(Scale(p, vals, x), x) > 0.0
  {
    hide Spd, Scale, DotTo;
    ScaleSign(p, vals, x, p.Rows(), 0);
    if !IsZero(x) {
      var i :| 0 <= i < |x| && x[i] != 0.0;
      ScaleSign(p, vals, x, p.Rows(), i);
    }
  }

  /** The square of a difference in the scaled inner product. */
  lemma ScaleDifference(p: Pattern, vals: Vec, u: Vec, w: Vec)
    requires Spd(p, vals) && DiagonalStored(p) && |u| == |w| == p.Rows()
    ensures Dot(Scale(p, vals, u), u) - 2.0 * Dot(w, Scale(p, vals, u)) + Dot(Scale(p, vals, w), w) >= 0.0
  {
    hide Mul, Spd, Scale, Dot, DiagonalStored, Axpby;
    var z := Axpby(-1.0, w, 1.0, u);
    ScaleDefinite(p, vals, z);
    ScaleLinear(p, vals, -1.0, w, 1.0, u);
    var su, sw := Scale(p, vals, u), Scale(p, vals, w);
    DotAxpby(-1.0, sw, 1.0, su, z);
    DotAxpbyRight(sw, -1.0, w, 1.0, u);
    DotAxpbyRight(su, -1.0, w, 1.0, u);
    MulUnits(Dot(sw, z));
    MulUnits(Dot(su, z));
    MulUnits(Dot(sw, w));
    MulUnits(Dot(sw, u));
    MulUnits(Dot(su, w));
    MulUnits(Dot(su, u));
    ScaleSymmetric(p, vals, w, u);
    DotComm(w, su);
  }

  lemma SpdSymmetric(p: Pattern, vals: Vec)
    requires Spd(p, vals)
    ensures p.WellFormed() && Symmetric(p, vals)
  {}

  /** Every odd number of sweeps is at least half as definite as one sweep. */
  lemma {:induction false} OddDefinite(p: Pattern, vals: Vec, u: Vec, m: nat)
    requires Spd(p, vals) && DiagonalStored(p) && |u| == p.Rows() && m % 2 == 1
    ensures 2.0 * Dot(Iterate(p, vals, u, m), u) >= Dot(Scale(p, vals, u), u)
    decreases m
  {
    hide *;
    ScaleDefinite(p, vals, u);
    if m == 1 {
      FirstSweep(p, vals, u);
    } else {
      SpdSymmetric(p, vals);
      var s := Scale(p, vals, u);
      var w := OffVec(p, vals, s);
      FormStep(p, vals, u, m - 2);
      OddDefinite(p, vals, w, m - 2);
      ScaleDifference(p, vals, u, w);
    }
  }

  /** The diagonal outweighs the rest of the matrix. */
  ghost predicate Dominant(p: Pattern, vals: Vec) {
    forall x: Vec | |x| == p.Rows() && !IsZero(x) :: Dot(x, MatVec(p, vals, x)) > 2.0 * Dot(x, OffVec(p, vals, x))
  }

  lemma DominantAt(p: Pattern, vals: Vec, x: Vec)
    requires Dominant(p, vals) && |x| == p.Rows() && !IsZero(x)
    ensures Dot(x, MatVec(p, vals, x)) > 2.0 * Dot(x, OffVec(p, vals, x))
  {}

  lemma MatVecAt(p: Pattern, vals: Vec, x: Vec, i: nat)
    requires i < p.Rows()
    ensures MatVec(p, vals, x)[i] == RowDot(p, vals, i, x) && OffVec(p, vals, x)[i] == Off(p, vals, i, x)
  {
    hide Mul, SlotSum, Off;
  }

  lemma ScaleBackAt(p: Pattern, vals: Vec, u: Vec, i: nat)
    requires Spd(p, vals) && DiagonalStored(p) && |u| == p.Rows() && i < p.Rows()
    ensures MatVec(p, vals, Scale(p, vals, u))[i] == OffVec(p, vals, Scale(p, vals, u))[i] + u[i]
    ensures Scale(p, vals, u)[i] == 0.0 ==> u[i] == 0.0
  {
    hide *;
    var s, d := Scale(p, vals, u), Diag(p, vals, i);
    MatVecAt(p, vals, s, i);
    RowSplit(p, vals, i, s);
    ScaleAt(p, vals, u, i);
    AtIs(s, i);
    AtIs(u, i);
    DiagPositive(p, vals, i);
    DivMul(u[i], d);
    MulUnits(d);
  }

  lemma AtIs(x: Vec, i: nat)
    requires i < |x|
    ensures At(x, i) == x[i]
  {}

  /** Multiplying by the diagonal undoes the division. */
  lemma ScaleBackVec(p: Pattern, vals: Vec, u: Vec)
    requires Spd(p, vals) && DiagonalStored(p) && |u| == p.Rows()
    ensures var s := Scale(p, vals, u);
            && MatVec(p, vals, s) == Axpby(1.0, OffVec(p, vals, s), 1.0, u)
            && (!IsZero(u) ==> !IsZero(s))
  {
    hide Mul, MatVec, OffVec, Scale, Spd, DiagonalStored;
    var s := Scale(p, vals, u);
    var off := OffVec(p, vals, s);
    forall i: nat | i < p.Rows()
      ensures MatVec(p, vals, s)[i] == Axpby(1.0, off, 1.0, u)[i] && (s[i] == 0.0 ==> u[i] == 0.0)
    {
      ScaleBackAt(p, vals, u, i);
      MulUnits(off[i]);
      MulUnits(u[i]);
    }
  }

  /** The same under an inner product. */
  lemma ScaleBackDot(p: Pattern, vals: Vec, z: Vec, u: Vec)
    requires Spd(p, vals) && DiagonalStored(p) && |z| == |u| == p.Rows()
    ensures var s := Scale(p, vals, u);
            Dot(z, MatVec(p, vals, s)) == Dot(z, OffVec(p, vals, s)) + Dot(z, u)
  {
    hide *;
    var off := OffVec(p, vals, Scale(p, vals, u));
    ScaleBackVec(p, vals, u);
    DotAxpbyRight(z, 1.0, off, 1.0, u);
    MulUnits(Dot(z, off));
    MulUnits(Dot(z, u));
  }

  lemma ScaleBack(p: Pattern, vals: Vec, u: Vec)
    requires Spd(p, vals) && DiagonalStored(p) && |u| == p.Rows()
    ensures var s := Scale(p, vals, u);
            && Dot(s, u) == Dot(s, MatVec(p, vals, s)) - Dot(s, OffVec(p, vals, s))
            && (!IsZero(u) ==> !IsZero(s))
  {
    hide *;
    ScaleBackVec(p, vals, u);
    ScaleBackDot(p, vals, Scale(p, vals, u), u);
  }

  /** Every even number of sweeps, if the diagonal is dominant. */
  lemma {:induction false} EvenDefinite(p: Pattern, vals: Vec, u: Vec, m: nat)
    requires Spd(p, vals) && DiagonalStored(p) && Dominant(p, vals) && |u| == p.Rows() && m % 2 == 0 && m > 0
    ensures Dot(Iterate(p, vals, u, m), u) >= 0.0
    ensures !IsZero(u) ==> Dot(Iterate(p, vals, u, m), u) > 0.0
    decreases m
  {
    hide *;
    if IsZero(u) {
      DotZero(Iterate(p, vals, u, m), u);
    } else {
      SpdSymmetric(p, vals);
      var s := Scale(p, vals, u);
      var w := OffVec(p, vals, s);
      FormStep(p, vals, u, m - 2);
      ScaleBack(p, vals, u);
      DominantAt(p, vals, s);
      DotComm(w, s);
      if m == 2 {
        IterateNone(p, vals, w);
        DotZero(w, Iterate(p, vals, w, 0));
        DotComm(w, Iterate(p, vals, w, 0));
      } else {
        EvenDefinite(p, vals, w, m - 2);
      }
    }
  }

  lemma IterateNone(p: Pattern, vals: Vec, w: Vec)
    ensures IsZero(Iterate(p, vals, w, 0)) && |Iterate(p, vals, w, 0)| == p.Rows()
  {}

  lemma DotZero(x: Vec, u: Vec)
    requires IsZero(u) && |x| == |u|
    ensures Dot(x, u) == 0.0
  {
    DotToZero(u, x, |u|);
  }

  /** How far the diagonal outweighs the rest for x. */
  function Gap(p: Pattern, vals: Vec, x: Vec): real {
    Dot(x, MatVec(p, vals, x)) - 2.0 * Dot(x, OffVec(p, vals, x))
  }

  lemma GapIs(p: Pattern, vals: Vec, x: Vec)
    ensures Gap(p, vals, x) == Dot(x, MatVec(p, vals, x)) - 2.0 * Dot(x, OffVec(p, vals, x))
  {}

  /** The quadratic form of a difference. */
  lemma DifferenceForm(p: Pattern, vals: Vec, x: Vec, y: Vec)
    requires p.WellFormed() && Symmetric(p, vals) && |x| == |y| == p.Rows()
    ensures var z := Axpby(-1.0, y, 1.0, x);
            Dot(z, MatVec(p, vals, z))
            == Dot(x, MatVec(p, vals, x)) - 2.0 * Dot(x, MatVec(p, vals, y)) + Dot(y, MatVec(p, vals, y))
  {
    hide *;
    var z, ax, ay := Axpby(-1.0, y, 1.0, x), MatVec(p, vals, x), MatVec(p, vals, y);
    MatVecLinear(p, vals, -1.0, y, 1.0, x);
    DotAxpby(-1.0, y, 1.0, x, MatVec(p, vals, z));
    DotAxpbyRight(x, -1.0, ay, 1.0, ax);
    DotAxpbyRight(y, -1.0, ay, 1.0, ax);
    MulUnits(Dot(x, MatVec(p, vals, z)));
    MulUnits(Dot(y, MatVec(p, vals, z)));
    MulUnits(Dot(x, ax));
    MulUnits(Dot(x, ay));
    MulUnits(Dot(y, ax));
    MulUnits(Dot(y, ay));
    SelfAdjoint(p, vals, y, x);
    DotComm(MatVec(p, vals, y), x);
  }

  /** A Jacobi step without right-hand side does not widen the gap. */
  lemma GapShrinks(p: Pattern, vals: Vec, x: Vec)
    requires Spd(p, vals) && DiagonalStored(p) && |x| == p.Rows()
    ensures Gap(p, vals, Scale(p, vals, OffVec(p, vals, x))) <= Gap(p, vals, x)
  {
    hide *;
    SpdSymmetric(p, vals);
    var w := OffVec(p, vals, x);
    var y := Scale(p, vals, w);
    GapIs(p, vals, x);
    GapIs(p, vals, y);
    ScaleBackDot(p, vals, x, w);
    ScaleBackDot(p, vals, y, w);
    OffSymmetric(p, vals, x, y);
    DotComm(w, y);
    DifferenceForm(p, vals, x, y);
    SpdNonneg(p, vals, Axpby(-1.0, y, 1.0, x));
  }

  lemma SpdNonneg(p: Pattern, vals: Vec, x: Vec)
    requires Spd(p, vals) && |x| == p.Rows()
    ensures Dot(x, MatVec(p, vals, x)) >= 0.0
  {
    hide MatVec, DotTo, Symmetric;
    if IsZero(x) {
      DotToZero(x, MatVec(p, vals, x), |x|);
    }
  }

  /** Without a gap no even number of sweeps is definite. */
  lemma {:induction false} EvenIndefinite(p: Pattern, vals: Vec, u: Vec, m: nat)
    requires Spd(p, vals) && DiagonalStored(p) && |u| == p.Rows() && m % 2 == 0 && m > 0
    requires Gap(p, vals, Scale(p, vals, u)) <= 0.0
    ensures Dot(Iterate(p, vals, u, m), u) <= 0.0
    decreases m
  {
    hide *;
    SpdSymmetric(p, vals);
    var s := Scale(p, vals, u);
    var w := OffVec(p, vals, s);
    FormStep(p, vals, u, m - 2);
    ScaleBack(p, vals, u);
    GapIs(p, vals, s);
    DotComm(w, s);
    if m == 2 {
      IterateNone(p, vals, w);
      DotZero(w, Iterate(p, vals, w, 0));
      DotComm(w, Iterate(p, vals, w, 0));
    } else {
      GapShrinks(p, vals, s);
      EvenIndefinite(p, vals, w, m - 2);
    }
  }

  /** For every even number of sweeps dominance is also necessary: it holds if and only if they are definite. */
  lemma EvenDefiniteExactly(p: Pattern, vals: Vec, m: nat)
    requires Spd(p, vals) && DiagonalStored(p) && m % 2 == 0 && m > 0
    ensures Dominant(p, vals) <==> forall u: Vec | |u| == p.Rows() && !IsZero(u) :: Dot(Iterate(p, vals, u, m), u) > 0.0
  {
    hide Mul, Dot, MatVec, OffVec, Spd, DiagonalStored, Scale, Iterate, Gap;
    if Dominant(p, vals) {
      forall u: Vec | |u| == p.Rows() && !IsZero(u) ensures Dot(Iterate(p, vals, u, m), u) > 0.0 {
        EvenDefinite(p, vals, u, m);
      }
    }
    if forall u: Vec | |u| == p.Rows() && !IsZero(u) :: Dot(Iterate(p, vals, u, m), u) > 0.0 {
      forall x: Vec | |x| == p.Rows() && !IsZero(x)
        ensures Dot(x, MatVec(p, vals, x)) > 2.0 * Dot(x, OffVec(p, vals, x))
      {
        GapIs(p, vals, x);
        UnscaledInverse(p, vals, x);
        if Gap(p, vals, x) <= 0.0 {
          EvenIndefinite(p, vals, Unscaled(p, vals, x), m);
        }
      }
    }
  }

  /** Multiplication by the diagonal. */
  function Unscaled(p: Pattern, vals: Vec, x: Vec): (u: Vec)
    ensures |u| == p.Rows()
  {
    seq(p.Rows(), i requires 0 <= i => Mul(Diag(p, vals, i), At(x, i)))
  }

  lemma UnscaledInverse(p: Pattern, vals: Vec, x: Vec)
    requires Spd(p, vals) && DiagonalStored(p) && |x| == p.Rows()
    ensures Scale(p, vals, Unscaled(p, vals, x)) == x
    ensures !IsZero(x) ==> !IsZero(Unscaled(p, vals, x))
  {
    var u := Unscaled(p, vals, x);
    forall i: nat | i < p.Rows() ensures Scale(p, vals, u)[i] == x[i] && (u[i] == 0.0 ==> x[i] == 0.0) {
      hide Mul, Div, Diag, Spd;
      DiagPositive(p, vals, i);
      MulComm(Diag(p, vals, i), x[i]);
      DivUnique(u[i], Diag(p, vals, i), x[i]);
      MulSign(Diag(p, vals, i), x[i]);
    }
  }
}
