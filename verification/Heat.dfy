/** The nonlinear 1D heat transfer problem: element blocks and their assembly into a sparse system. */
module Heat {
  import opened Vectors
  import opened Csr

  datatype Params = Params(numElems: nat, length: real, k: real) {

    function NumDofs(): nat {
      numElems + 1
    }

    function NumEntries(): nat {
      3 * numElems + 1
    }

    /** The size of an element. */
    function H(): real {
      Div(length, numElems as real)
    }

    /** The weight of the quadratic term in an element. */
    function HK(): real {
      Mul(H(), k)
    }
  }

  /** One quarter, one sixth and one twelfth of the three products of two nodal values. */
  function Quadratic(a: real, b: real): real {
    a * a / 4.0 + a * b / 6.0 + b * b / 12.0
  }

  /** The element residual at its left (a == 0) or right (a == 1) node. */
  function ElemRhs(hp: Params, l: real, r: real, a: nat): real {
    if a == 0 then Div(l - r, hp.H()) + Mul(hp.HK(), Quadratic(l, r))
    else -Div(l - r, hp.H()) + Mul(hp.HK(), Quadratic(r, l))
  }

  /** The element Jacobian. */
  function ElemMat(hp: Params, l: real, r: real, a: nat, b: nat): real {
    if a == 0 && b == 0 then Div(1.0, hp.H()) + Mul(hp.HK(), l / 2.0 + r / 6.0)
    else if a == 1 && b == 1 then Div(1.0, hp.H()) + Mul(hp.HK(), l / 6.0 + r / 2.0)
    else -Div(1.0, hp.H()) + Mul(hp.HK(), l / 6.0 + r / 6.0)
  }

  /** The stacked 2 x 2 element matrices, four values an element. */
  function FillMats(hp: Params, u: Vec): (m: Vec)
    ensures |m| == 4 * hp.numElems
  {
    seq(4 * hp.numElems, i requires 0 <= i => ElemMat(hp, At(u, i / 4), At(u, i / 4 + 1), i % 4 / 2, i % 4 % 2))
  }

  /** The stacked element residuals, two values an element. */
  function FillRhss(hp: Params, u: Vec): (f: Vec)
    ensures |f| == 2 * hp.numElems
  {
    seq(2 * hp.numElems, i requires 0 <= i => ElemRhs(hp, At(u, i / 2), At(u, i / 2 + 1), i % 2))
  }

  /** What the elements add to a slot of the matrix values. */
  function SlotAdds(hp: Params, mats: Vec, s: nat): real {
    var e := s / 3;
    if s % 3 == 0 then (if e > 0 then At(mats, 4 * e - 1) else 0.0) + (if e < hp.numElems then At(mats, 4 * e) else 0.0)
    else At(mats, 4 * e + s % 3)
  }

  /** What the elements add to an entry of the right-hand side. */
  function DofAdds(hp: Params, rhss: Vec, i: nat): real {
    (if i > 0 then At(rhss, 2 * i - 1) else 0.0) + (if i < hp.numElems then At(rhss, 2 * i) else 0.0)
  }

  /** The matrix values after scattering all elements, with the boundary row and column imposed. */
  function ScatterValues(hp: Params, mats: Vec, vals: Vec): (v: Vec)
    ensures |v| == hp.NumEntries()
  {
    seq(hp.NumEntries(), s requires 0 <= s =>
      if s == 0 then 1.0 else if s < 3 then 0.0 else At(vals, s) + SlotAdds(hp, mats, s))
  }

  /** The right-hand side after scattering all elements, with the boundary entry imposed. */
  function ScatterRhs(hp: Params, rhss: Vec, rhs: Vec): (f: Vec)
    ensures |f| == hp.NumDofs()
  {
    seq(hp.NumDofs(), i requires 0 <= i => if i == 0 then 0.0 else At(rhs, i) + DofAdds(hp, rhss, i))
  }

  /** The assembled matrix values at u. */
  function Values(hp: Params, u: Vec): (v: Vec)
    ensures |v| == hp.NumEntries()
  {
    ScatterValues(hp, FillMats(hp, u), Zeros(hp.NumEntries()))
  }

  /** The assembled residual at u. */
  function Rhs(hp: Params, u: Vec): (f: Vec)
    ensures |f| == hp.NumDofs()
  {
    ScatterRhs(hp, FillRhss(hp, u), Zeros(hp.NumDofs()))
  }

  /** The initial guess descends from the boundary value one. */
  function Guess(size: nat, step: real): (u: Vec)
    ensures |u| == size && (size > 0 ==> u[0] == 1.0)
  {
    seq(size, i => 1.0 - i as real * step)
  }

  /** One at the boundary, and falling by the step from each node to the next. */
  ghost predicate Descends(u: Vec, step: real) {
    (|u| > 0 ==> u[0] == 1.0) && forall i: nat | i + 1 < |u| :: u[i + 1] == u[i] - step
  }

  /** The guess is the one vector of its size that descends by the step. */
  lemma GuessDescends(u: Vec, step: real)
    ensures u == Guess(|u|, step) <==> Descends(u, step)
  {
    GuessSteps(|u|, step);
    if Descends(u, step) {
      forall i: nat | i < |u| ensures u[i] == Guess(|u|, step)[i] {
        DescendedTo(u, step, i);
      }
    }
  }

  lemma GuessSteps(size: nat, step: real)
    ensures Descends(Guess(size, step), step)
  {
    forall i: nat | i + 1 < size ensures Guess(size, step)[i + 1] == Guess(size, step)[i] - step {
      OneLess(i, step);
    }
  }

  lemma {:induction false} DescendedTo(u: Vec, step: real, i: nat)
    requires Descends(u, step) && i < |u|
    ensures u[i] == 1.0 - i as real * step
  {
    if i > 0 {
      DescendedTo(u, step, i - 1);
      OneLess(i - 1, step);
    }
  }

  lemma OneLess(i: nat, step: real)
    ensures 1.0 - (i + 1) as real * step == 1.0 - i as real * step - step
  {}
}
