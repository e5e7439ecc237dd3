/** The functors of the solver graphs as kernels on arrays, proved against `Tasks.Update`. */
module Functors {
  import opened Vectors
  import opened Tasks

  /** The memory holds the contents of the array in the view. */
  ghost predicate Stored(m: Memory, c: Cell, a: array<real>)
    reads a
  {
    Get(m, c) == a[..]
  }

  /** DivideAndSwap: the quotient goes into a before the exchanged old value of a goes into b. */
  method DivideAndSwapKernel(a: array<real>, b: array<real>, ghost m: Memory, ghost ca: Cell, ghost cb: Cell)
    requires a.Length == b.Length == 1 && a != b
    requires ca != cb && Stored(m, ca, a) && Stored(m, cb, b)
    modifies a, b
    ensures a[..] == Update(DivideAndSwap(ca, cb), m)[ca] && b[..] == Update(DivideAndSwap(ca, cb), m)[cb]
    ensures a[0] == Div(old(a[0]), old(b[0])) && b[0] == old(a[0])
  {
    ghost var x, y := a[0], b[0];
    assert Scalar(m, ca) == x && Scalar(m, cb) == y;
    b[0] := Exchange(a, Div(a[0], b[0]));
    assert a[..] == [Div(x, y)] && b[..] == [x];
  }

  /** Store a new value and return the old one. */
  method Exchange(a: array<real>, value: real) returns (was: real)
    requires a.Length == 1
    modifies a
    ensures a[0] == value && was == old(a[0])
  {
    was := a[0];
    a[0] := value;
  }

  /** Alpha: the negative is taken of the value just stored. */
  method AlphaKernel(num: array<real>, den: array<real>, alpha: array<real>, alphaNeg: array<real>, ghost m: Memory,
      ghost cnum: Cell, ghost cden: Cell)
    requires num.Length == den.Length == alpha.Length == alphaNeg.Length == 1 && alpha != alphaNeg
    requires Stored(m, cnum, num) && Stored(m, cden, den)
    modifies alpha, alphaNeg
    ensures alpha[..] == Update(AlphaOf(cnum, cden), m)[Alpha]
    ensures alphaNeg[..] == Update(AlphaOf(cnum, cden), m)[AlphaNeg]
    ensures alpha[0] == Div(old(num[0]), old(den[0])) && alphaNeg[0] == -alpha[0]
  {
    ghost var x, y := num[0], den[0];
    assert Scalar(m, cnum) == x && Scalar(m, cden) == y;
    alpha[0] := Div(num[0], den[0]);
    alphaNeg[0] := -alpha[0];
    assert alpha[..] == [Div(x, y)] && alphaNeg[..] == [-Div(x, y)];
  }

  /** A coefficient of axpby as the functor stores it: a value, or a view of rank zero. */
  datatype HostOrView = Value(value: real) | Held(view: array<real>)

  /** The value of a coefficient, read when an element is computed. */
  function GetValue(c: HostOrView): real
    requires c.Held? ==> c.view.Length == 1
    reads if c.Held? then {c.view} else {}
  {
    match c
    case Value(v) => v
    case Held(view) => view[0]
  }

  /** A coefficient of a launched combination that stands for the one in the functor. */
  ghost predicate Matches(m: Memory, launched: Coefficient, c: HostOrView)
    reads if c.Held? then {c.view} else {}
  {
    match c
    case Value(v) => launched == Literal(v)
    case Held(view) => launched.View? && view.Length == 1 && Stored(m, launched.cell, view)
  }

  /** Axpby over all elements, in any order. The coefficients are read again for every element. */
  method AxpbyKernel(alpha: HostOrView, x: array<real>, beta: HostOrView, y: array<real>, ghost m: Memory,
      ghost ca: Coefficient, ghost cx: Cell, ghost cb: Coefficient, ghost cy: Cell)
    requires x.Length == y.Length && x != y && alpha != Held(y) && beta != Held(y)
    requires Matches(m, ca, alpha) && Matches(m, cb, beta) && Stored(m, cx, x) && Stored(m, cy, y)
    modifies y
    ensures y[..] == Update(Combine(ca, cx, cb, cy), m)[cy]
  {
    CombineIs(m, ca, cx, cb, cy);
    hide Mul, Update, Axpby;
    ghost var before := y[..];
    ghost var a, b := ca.Value(m), cb.Value(m);
    var rest := Range(x.Length);
    while rest != {}
      invariant rest <= Range(x.Length)
      invariant GetValue(alpha) == a && GetValue(beta) == b
      invariant forall i | 0 <= i < y.Length ::
                  y[i] == if i in rest then before[i] else Mul(a, x[i]) + Mul(b, before[i])
      decreases |rest|
    {
      var index :| index in rest;
      rest := rest - {index};
      y[index] := Mul(GetValue(alpha), x[index]) + Mul(GetValue(beta), y[index]);
    }
    Combined(a, x[..], b, before, y[..]);
  }

  lemma CombineIs(m: Memory, ca: Coefficient, cx: Cell, cb: Coefficient, cy: Cell)
    ensures Update(Combine(ca, cx, cb, cy), m)[cy] == Axpby(ca.Value(m), Get(m, cx), cb.Value(m), Get(m, cy))
  {}

  lemma Combined(a: real, x: Vec, b: real, y: Vec, z: Vec)
    requires |x| == |y| == |z| && forall i | 0 <= i < |y| :: z[i] == Mul(a, x[i]) + Mul(b, y[i])
    ensures z == Axpby(a, x, b, y)
  {
    hide Mul;
  }
}
