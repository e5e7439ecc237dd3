/** The residual of the heat problem as the Galerkin discretisation of its equation, with linear basis functions. */
module Galerkin {
  import opened Vectors
  import opened Heat
  import opened HeatMatrix

  /** The function with the values l and r at the ends of an element, x between zero and one along it. */
  function Linear(l: real, r: real, x: real): real {
    l * (1.0 - x) + r * x
  }

  /** Simpson's rule for the integral from zero to one. */
  function Simpson(f: real -> real): real {
    (f(0.0) + 4.0 * f(0.5) + f(1.0)) / 6.0
  }

  ghost predicate Cubic(f: real -> real, a: real, b: real, c: real, d: real) {
    forall x :: f(x) == a + b * x + c * x * x + d * x * x * x
  }

  /** The rule is exact for cubics. */
  lemma SimpsonExact(f: real -> real, a: real, b: real, c: real, d: real)
    requires Cubic(f, a, b, c, d)
    ensures Simpson(f) == a + b / 2.0 + c / 3.0 + d / 4.0
  {}

  /** The square of one linear function times another one. */
  function Reaction(l: real, r: real, a: real, b: real): real -> real {
    x => Linear(l, r, x) * Linear(l, r, x) * Linear(a, b, x)
  }

  /** The reaction is a cubic, so that the rule gives its integral. */
  lemma ReactionCubic(l: real, r: real, a: real, b: real)
    ensures Cubic(Reaction(l, r, a, b), l * l * a, 2.0 * l * (r - l) * a + l * l * (b - a),
              (r - l) * (r - l) * a + 2.0 * l * (r - l) * (b - a), (r - l) * (r - l) * (b - a))
  {
    hide Reaction;
    forall x
      ensures Reaction(l, r, a, b)(x)
           == l * l * a + (2.0 * l * (r - l) * a + l * l * (b - a)) * x
            + ((r - l) * (r - l) * a + 2.0 * l * (r - l) * (b - a)) * x * x + (r - l) * (r - l) * (b - a) * x * x * x
    {
      ReactionIs(l, r, a, b, x);
      CubicExpansion(l, r - l, a, b - a, x);
    }
  }

  lemma ReactionIs(l: real, r: real, a: real, b: real, x: real)
    ensures Reaction(l, r, a, b)(x) == (l + (r - l) * x) * (l + (r - l) * x) * (a + (b - a) * x)
  {
    LinearIs(l, r, x);
    LinearIs(a, b, x);
  }

  lemma LinearIs(l: real, r: real, x: real)
    ensures Linear(l, r, x) == l + (r - l) * x
  {}

  lemma CubicExpansion(l: real, p: real, a: real, q: real, x: real)
    ensures (l + p * x) * (l + p * x) * (a + q * x)
         == l * l * a + (2.0 * l * p * a + l * l * q) * x + (p * p * a + 2.0 * l * p * q) * x * x
          + p * p * q * x * x * x
  {
    var s, y := p * x, q * x;
    assert (l + s) * (l + s) == l * l + 2.0 * (l * s) + s * s;
    assert (l + s) * (l + s) * (a + y) == (l * l + 2.0 * (l * s) + s * s) * a + (l * l + 2.0 * (l * s) + s * s) * y;
  }

  /** The integral over an element of the product of the slopes of u and v, plus k times the square of u times v. */
  function ElementForm(hp: Params, l: real, r: real, a: real, b: real): real {
    Div(Mul(r - l, b - a), hp.H()) + Mul(hp.HK(), Simpson(Reaction(l, r, a, b)))
  }

  /** The integral over the first n elements. */
  function FormTo(hp: Params, u: Vec, v: Vec, n: nat): real {
    if n == 0 then 0.0 else FormTo(hp, u, v, n - 1) + ElementForm(hp, At(u, n - 1), At(u, n), At(v, n - 1), At(v, n))
  }

  lemma ReactionAt(l: real, r: real, a: real, b: real)
    ensures Reaction(l, r, a, b)(0.0) == l * l * a && Reaction(l, r, a, b)(1.0) == r * r * b
    ensures Reaction(l, r, a, b)(0.5) == (l + r) / 2.0 * ((l + r) / 2.0) * ((a + b) / 2.0)
  {
    assert Linear(l, r, 0.0) == l && Linear(l, r, 0.5) == (l + r) / 2.0 && Linear(l, r, 1.0) == r;
    assert Linear(a, b, 0.0) == a && Linear(a, b, 0.5) == (a + b) / 2.0 && Linear(a, b, 1.0) == b;
  }

  lemma MiddleSquared(l: real, r: real)
    ensures (l + r) / 2.0 * ((l + r) / 2.0) == (l * l + 2.0 * (l * r) + r * r) / 4.0
  {}

  lemma Weights(ll: real, lr: real, rr: real, a: real, b: real)
    ensures (ll * a + 4.0 * ((ll + 2.0 * lr + rr) / 4.0 * ((a + b) / 2.0)) + rr * b) / 6.0
         == Mul(ll / 4.0 + lr / 6.0 + rr / 12.0, a) + Mul(rr / 4.0 + lr / 6.0 + ll / 12.0, b)
  {}

  lemma SimpsonReaction(l: real, r: real, a: real, b: real)
    ensures Simpson(Reaction(l, r, a, b)) == Mul(Quadratic(l, r), a) + Mul(Quadratic(r, l), b)
  {
    hide Mul, Reaction;
    ReactionAt(l, r, a, b);
    MiddleSquared(l, r);
    MulCommuted(l, r);
    Weights(l * l, l * r, r * r, a, b);
  }

  lemma MulCommuted(l: real, r: real)
    ensures l * r == r * l
  {}

  /** The two residual entries of an element, paired with two values. */
  lemma ElementPaired(hp: Params, l: real, r: real, a: real, b: real)
    ensures ElementForm(hp, l, r, a, b) == Mul(ElemRhs(hp, l, r, 0), a) + Mul(ElemRhs(hp, l, r, 1), b)
  {
    hide *;
    ElementValues(hp, l, r);
    SimpsonReaction(l, r, a, b);
    FormIs(hp, l, r, a, b);
    var d, q0, q1, k := Div(l - r, hp.H()), Quadratic(l, r), Quadratic(r, l), hp.HK();
    SlopesPaired(hp, l, r, a, b);
    MulComm(d + Mul(k, q0), a);
    MulComm(-d + Mul(k, q1), b);
    MulAdd(a, d, Mul(k, q0));
    MulAdd(b, -d, Mul(k, q1));
    MulAdd(k, Mul(q0, a), Mul(q1, b));
    MulSwap(a, k, q0);
    MulSwap(b, k, q1);
    MulComm(a, q0);
    MulComm(b, q1);
    MulComm(a, d);
    MulComm(b, -d);
  }

  lemma FormIs(hp: Params, l: real, r: real, a: real, b: real)
    ensures ElementForm(hp, l, r, a, b) == Div(Mul(r - l, b - a), hp.H()) + Mul(hp.HK(), Simpson(Reaction(l, r, a, b)))
  {}

  lemma SlopesPaired(hp: Params, l: real, r: real, a: real, b: real)
    ensures Div(Mul(r - l, b - a), hp.H()) == Mul(Div(l - r, hp.H()), a) + Mul(-Div(l - r, hp.H()), b)
  {
    QuotientOf(r - l, b - a, hp.H());
    QuotientNeg(l - r, hp.H());
    hide *;
    MulAdd(Div(r - l, hp.H()), b, a);
    MulNeg(Div(l - r, hp.H()), b);
    MulNeg(Div(l - r, hp.H()), a);
  }

  lemma QuotientOf(p: real, q: real, h: real)
    ensures Div(Mul(p, q), h) == Mul(Div(p, h), q)
  {}

  lemma QuotientNeg(p: real, h: real)
    ensures Div(-p, h) == -Div(p, h)
  {}

  /** Pairing the residual entries before node n leaves out what the last element gives to that node. */
  lemma {:induction false} PairedTo(hp: Params, u: Vec, v: Vec, n: nat)
    requires n <= hp.numElems && |u| == |v| == hp.NumDofs() && v[0] == 0.0
    ensures FormTo(hp, u, v, n)
         == DotTo(Rhs(hp, u), v, n) + (if n == 0 then 0.0 else Mul(ElemRhs(hp, u[n - 1], u[n], 1), v[n]))
  {
    hide Mul, ElemRhs, ElementForm, Rhs, BlockRhsSum;
    if n > 0 {
      PairedTo(hp, u, v, n - 1);
      ElementPaired(hp, u[n - 1], u[n], v[n - 1], v[n]);
      DotToStep(Rhs(hp, u), v, n - 1);
      AssembledRhs(hp, u, n - 1);
      BlockRhsSumAt(hp, u, n - 1, hp.numElems);
      MulUnits(ElemRhs(hp, u[n - 1], u[n], 0));
      MulUnits(Rhs(hp, u)[n - 1]);
      if n > 1 {
        MulComm(Rhs(hp, u)[n - 1], v[n - 1]);
        MulComm(ElemRhs(hp, u[n - 2], u[n - 1], 1), v[n - 1]);
        MulComm(ElemRhs(hp, u[n - 1], u[n], 0), v[n - 1]);
        MulAdd(v[n - 1], ElemRhs(hp, u[n - 2], u[n - 1], 1), ElemRhs(hp, u[n - 1], u[n], 0));
      }
    }
  }

  /**
   * Paired with any function that vanishes at the boundary, the assembled residual is the integral over the rod of
   * the product of both slopes plus k times the square of the solution times that function.
   */
  lemma ResidualPaired(hp: Params, u: Vec, v: Vec)
    requires hp.numElems >= 1 && |u| == |v| == hp.NumDofs() && v[0] == 0.0
    ensures Dot(Rhs(hp, u), v) == FormTo(hp, u, v, hp.numElems)
  {
    hide Mul, ElemRhs, FormTo, Rhs, BlockRhsSum;
    var n := hp.numElems;
    PairedTo(hp, u, v, n);
    DotToStep(Rhs(hp, u), v, n);
    AssembledRhs(hp, u, n);
    BlockRhsSumAt(hp, u, n, n);
  }

  /** The residual is zero exactly at the solutions of the discretised equation. */
  lemma ZeroExactly(hp: Params, u: Vec)
    requires hp.numElems >= 1 && |u| == hp.NumDofs()
    ensures IsZero(Rhs(hp, u))
       <==> forall v: Vec | |v| == hp.NumDofs() && v[0] == 0.0 :: FormTo(hp, u, v, hp.numElems) == 0.0
  {
    hide Mul, FormTo, Rhs, DotTo;
    var f := Rhs(hp, u);
    if IsZero(f) {
      forall v: Vec | |v| == hp.NumDofs() && v[0] == 0.0 ensures FormTo(hp, u, v, hp.numElems) == 0.0 {
        ResidualPaired(hp, u, v);
        DotToZero(f, v, |f|);
      }
    }
    AssembledRhs(hp, u, 0);
    ResidualPaired(hp, u, f);
    DotSelf(f);
  }
}
