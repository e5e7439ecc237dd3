/** The range of the Newton states: exactly up to which element size they stay between zero and one. */
module NewtonRange {
  import opened Vectors
  import opened Csr
  import opened Heat
  import opened HeatMatrix
  import opened Newton
  import opened NewtonStates
  import Krylov

  /** Values between zero and one, and one at the boundary. */
  ghost predicate InRange(hp: Params, u: Vec) {
    |u| == hp.NumDofs() && u[0] == 1.0 && forall i | 0 <= i < |u| :: 0.0 <= u[i] <= 1.0
  }

  /** A mesh for a reaction that does not produce heat. */
  ghost predicate Meshed(hp: Params) {
    hp.numElems >= 1 && hp.length > 0.0 && hp.k >= 0.0
  }

  /** Elements that are small for the reaction: h h k is at most twelve. */
  ghost predicate Mild(hp: Params) {
    Meshed(hp) && Mul(hp.H(), hp.HK()) <= 12.0
  }

  lemma RangePhysical(hp: Params, u: Vec)
    requires Meshed(hp) && InRange(hp, u)
    ensures Physical(hp, u)
  {}

  lemma MeshedParts(hp: Params)
    requires Meshed(hp)
    ensures hp.numElems >= 1 && hp.length > 0.0 && hp.k >= 0.0
    ensures Mild(hp) <==> Mul(hp.H(), hp.HK()) <= 12.0
  {}

  lemma MildParts(hp: Params)
    requires Mild(hp)
    ensures Meshed(hp) && hp.numElems >= 1 && hp.length > 0.0 && hp.k >= 0.0
  {}

  lemma RangeAt(hp: Params, u: Vec, i: nat)
    requires InRange(hp, u) && i <= hp.numElems
    ensures |u| == hp.NumDofs() && At(u, 0) == 1.0 && u[i] == At(u, i) && 0.0 <= At(u, i) <= 1.0
  {}

  lemma SizePositive(hp: Params)
    requires hp.numElems >= 1 && hp.length > 0.0
    ensures hp.H() > 0.0
  {
    hide Mul;
    var n := hp.numElems as real;
    DivMul(hp.length, n);
    MulSign(hp.H(), n);
    MulSign(-hp.H(), n);
    MulNeg(hp.H(), n);
  }

  /** The bound in terms of the weights of conduction and reaction. */
  lemma Weights(hp: Params)
    requires Meshed(hp)
    ensures Div(1.0, hp.H()) > 0.0 && hp.HK() >= 0.0
    ensures Mild(hp) <==> hp.HK() <= 12.0 * Div(1.0, hp.H())
  {
    hide Mul, Div, Params.H, Params.HK, Mild, Meshed;
    MeshedParts(hp);
    PhysicalWeights(hp);
    SizePositive(hp);
    var s, h, c := hp.H(), Div(1.0, hp.H()), hp.HK();
    DivMul(1.0, s);
    Twelvefold(s, h);
    MulAdd(s, 12.0 * h, c);
    MulSign(s, 12.0 * h - c);
    MulSign(s, -(12.0 * h - c));
    MulNeg(s, 12.0 * h - c);
  }

  lemma Twelvefold(s: real, h: real)
    ensures Mul(s, 12.0 * h) == 12.0 * Mul(s, h)
  {}

  // ------------------------------------------------------------------------
  // The element terms.
  // ------------------------------------------------------------------------

  /** The element terms are homogeneous: the Jacobian at a point times that point. */
  lemma ElementPoint(hp: Params, l: real, r: real, a: nat)
    requires a < 2
    ensures Mul(ElemMat(hp, l, r, a, 0), l) + Mul(ElemMat(hp, l, r, a, 1), r)
         == ElemRhs(hp, l, r, a) + Mul(hp.HK(), if a == 0 then Heat.Quadratic(l, r) else Heat.Quadratic(r, l))
  {
    hide Mul, ElemMat, ElemRhs, Heat.Quadratic;
    ElementStep(hp, l, r, l, r, a);
    ElementNone(hp, a);
  }

  lemma ElementNone(hp: Params, a: nat)
    requires a < 2
    ensures ElemRhs(hp, 0.0, 0.0, a) == 0.0
  {}

  lemma ElementOnes(hp: Params, l: real, r: real, a: nat)
    requires a < 2
    ensures ElemMat(hp, l, r, a, 0) + ElemMat(hp, l, r, a, 1)
         == Mul(hp.HK(), if a == 0 then (2.0 * l + r) / 3.0 else (2.0 * r + l) / 3.0)
  {
    hide Mul, Div, Params.H, Params.HK;
    MulAdd(hp.HK(), l / 2.0 + r / 6.0, l / 6.0 + r / 6.0);
    MulAdd(hp.HK(), l / 6.0 + r / 2.0, l / 6.0 + r / 6.0);
    assert l / 2.0 + r / 6.0 + (l / 6.0 + r / 6.0) == (2.0 * l + r) / 3.0;
    assert l / 6.0 + r / 2.0 + (l / 6.0 + r / 6.0) == (2.0 * r + l) / 3.0;
  }

  /** The element terms are bounded by their values on constant vectors. */
  lemma QuadraticRange(a: real, b: real)
    requires 0.0 <= a <= 1.0 && 0.0 <= b <= 1.0
    ensures 0.0 <= Heat.Quadratic(a, b) <= a / 2.0 + b / 6.0
    ensures a / 6.0 + b / 6.0 - Heat.Quadratic(a, b) <= 1.0 / 12.0
  {
    QuadraticSquares(a, b);
    hide Mul, Heat.Quadratic;
    Shrinks(a, a);
    Shrinks(a, b);
    Shrinks(b, b);
    MulSign(a + b - 1.0, a + b - 1.0);
  }

  lemma QuadraticSquares(a: real, b: real)
    ensures Heat.Quadratic(a, b) == Mul(a, a) / 4.0 + Mul(a, b) / 6.0 + Mul(b, b) / 12.0
    ensures Heat.Quadratic(a, b) - (a / 6.0 + b / 6.0)
         == Mul(a + b - 1.0, a + b - 1.0) / 12.0 + Mul(a, a) / 6.0 - 1.0 / 12.0
  {}

  lemma Shrinks(a: real, b: real)
    requires 0.0 <= a <= 1.0 && 0.0 <= b <= 1.0
    ensures 0.0 <= Mul(a, b) <= a
  {
    hide Mul;
    MulOrder(a, b);
    MulOrder(a, 1.0 - b);
    MulAdd(a, 1.0, b);
    MulUnits(a);
  }

  /**
   * What an element with the old values a and b adds to a row that the new values x and y satisfy. The row belongs
   * to the node with a and x.
   */
  function Term(hp: Params, a: real, b: real, x: real, y: real): real {
    Mul(Div(1.0, hp.H()) + Mul(hp.HK(), a / 2.0 + b / 6.0), x)
    + Mul(-Div(1.0, hp.H()) + Mul(hp.HK(), a / 6.0 + b / 6.0), y) - Mul(hp.HK(), Heat.Quadratic(a, b))
  }

  lemma TermIs(hp: Params, l: real, r: real, x: real, y: real)
    ensures Term(hp, l, r, x, y)
         == Mul(ElemMat(hp, l, r, 0, 0), x) + Mul(ElemMat(hp, l, r, 0, 1), y) - Mul(hp.HK(), Heat.Quadratic(l, r))
    ensures Term(hp, r, l, y, x)
         == Mul(ElemMat(hp, l, r, 1, 0), x) + Mul(ElemMat(hp, l, r, 1, 1), y) - Mul(hp.HK(), Heat.Quadratic(r, l))
  {
    hide Mul, Div, Params.H, Params.HK, Heat.Quadratic;
    assert r / 2.0 + l / 6.0 == l / 6.0 + r / 2.0 && r / 6.0 + l / 6.0 == l / 6.0 + r / 6.0;
  }

  /** The weights of an element term with old values in range. */
  lemma TermWeights(hp: Params, a: real, b: real) returns (h: real, p: real, g: real, q: real)
    requires Mild(hp) && 0.0 <= a <= 1.0 && 0.0 <= b <= 1.0
    ensures forall x, y :: Term(hp, a, b, x, y) == Mul(h + p, x) + Mul(g - h, y) - q
    ensures h > 0.0 && 0.0 <= g <= p && 0.0 <= q <= p && g - q <= h
  {
    var c, f := hp.HK(), Heat.Quadratic(a, b);
    h, p, g, q := Div(1.0, hp.H()), Mul(c, a / 2.0 + b / 6.0), Mul(c, a / 6.0 + b / 6.0), Mul(c, f);
    forall x, y ensures Term(hp, a, b, x, y) == Mul(h + p, x) + Mul(g - h, y) - q {
      assert -h + g == g - h;
    }
    hide Mul, Div, Params.H, Params.HK, Heat.Quadratic, Mild, Term;
    MildParts(hp);
    Weights(hp);
    QuadraticRange(a, b);
    MulOrder(c, a / 6.0 + b / 6.0);
    MulOrder(c, f);
    MulOrder(c, a / 2.0 + b / 6.0 - (a / 6.0 + b / 6.0));
    MulAdd(c, a / 2.0 + b / 6.0, a / 6.0 + b / 6.0);
    MulOrder(c, a / 2.0 + b / 6.0 - f);
    MulAdd(c, a / 2.0 + b / 6.0, f);
    var gap := a / 6.0 + b / 6.0 - f;
    MulOrder(c, 1.0 / 12.0 - gap);
    MulAdd(c, 1.0 / 12.0, gap);
    MulAdd(c, a / 6.0 + b / 6.0, f);
    Twelfth(c);
  }

  lemma Twelfth(c: real)
    ensures Mul(c, 1.0 / 12.0) == c / 12.0
  {}

  /** A node as far below zero as no other node is outside: its element terms are not positive. */
  lemma TermBelow(hp: Params, a: real, b: real, m: real, y: real)
    requires Mild(hp) && 0.0 <= a <= 1.0 && 0.0 <= b <= 1.0 && m > 0.0 && -m <= y <= 1.0 + m
    ensures Term(hp, a, b, -m, y) <= 0.0 && (y > -m ==> Term(hp, a, b, -m, y) < 0.0)
  {
    hide *;
    var h, p, g, q := TermWeights(hp, a, b);
    BelowSign(h, p, g, q, m, y);
  }

  lemma BelowSign(h: real, p: real, g: real, q: real, m: real, y: real)
    requires h > 0.0 && 0.0 <= g <= p && 0.0 <= q <= p && g - q <= h && m > 0.0 && -m <= y <= 1.0 + m
    ensures Mul(h + p, -m) + Mul(g - h, y) - q <= 0.0
    ensures y > -m ==> Mul(h + p, -m) + Mul(g - h, y) - q < 0.0
  {
    hide Mul;
    MulNeg(h + p, m);
    Both(h, p, m);
    Less(g, h, m);
    MulSign(h, m);
    MulOrder(p, m);
    if g >= h {
      MulOrder(g - h, 1.0 + m - y);
      MulAdd(g - h, 1.0 + m, y);
      MulAdd(g - h, 1.0, m);
      MulUnits(g - h);
      Less(p, g, m);
      MulOrder(p - g, m);
    } else {
      MulSign(h - g, y + m);
      MulNegated(g - h, y + m);
      MulAdd(g - h, y, m);
      MulOrder(g, m);
    }
  }

  lemma MulNegated(a: real, b: real)
    ensures Mul(-a, b) == -Mul(a, b)
  {}

  lemma Both(a: real, b: real, x: real)
    ensures Mul(a + b, x) == Mul(a, x) + Mul(b, x)
  {}

  lemma Less(a: real, b: real, x: real)
    ensures Mul(a - b, x) == Mul(a, x) - Mul(b, x)
  {}

  /** A node as far above one as no other node is outside: its element terms are not negative. */
  lemma TermAbove(hp: Params, a: real, b: real, m: real, y: real)
    requires Mild(hp) && 0.0 <= a <= 1.0 && 0.0 <= b <= 1.0 && m > 0.0 && -m <= y <= 1.0 + m
    ensures Term(hp, a, b, 1.0 + m, y) >= 0.0 && (y < 1.0 + m ==> Term(hp, a, b, 1.0 + m, y) > 0.0)
  {
    hide *;
    var h, p, g, q := TermWeights(hp, a, b);
    AboveSign(h, p, g, q, m, y);
  }

  lemma AboveSign(h: real, p: real, g: real, q: real, m: real, y: real)
    requires h > 0.0 && 0.0 <= g <= p && 0.0 <= q <= p && m > 0.0 && -m <= y <= 1.0 + m
    ensures Mul(h + p, 1.0 + m) + Mul(g - h, y) - q >= 0.0
    ensures y < 1.0 + m ==> Mul(h + p, 1.0 + m) + Mul(g - h, y) - q > 0.0
  {
    hide Mul;
    MulAdd(h + p, 1.0, m);
    MulUnits(h + p);
    Both(h, p, m);
    MulSign(h, m);
    MulOrder(p, m);
    if g >= h {
      MulOrder(g - h, y + m);
      MulAdd(g - h, y, m);
      Less(g, h, m);
      Less(p, g, m);
      MulOrder(p - g, m);
    } else {
      MulSign(h - g, 1.0 + m - y);
      MulNegated(g - h, 1.0 + m - y);
      MulAdd(g - h, 1.0 + m, y);
      MulAdd(g - h, 1.0, m);
      MulUnits(g - h);
      Less(g, h, m);
      MulOrder(g, m);
    }
  }

  // ------------------------------------------------------------------------
  // The rows that the next state satisfies.
  // ------------------------------------------------------------------------

  /** A row of the matrix against the point at which it was assembled. */
  lemma RowAtPoint(hp: Params, u: Vec, i: nat)
    requires hp.numElems >= 1 && |u| == hp.NumDofs() && 1 <= i <= hp.numElems
    ensures RowDot(HeatPattern(hp), Values(hp, u), i, u)
         == Rhs(hp, u)[i] + Mul(hp.HK(), Heat.Quadratic(At(u, i), At(u, i - 1)))
          - (if i == 1 then Mul(ElemMat(hp, At(u, 0), At(u, 1), 1, 0), At(u, 0)) else 0.0)
          + (if i < hp.numElems then Mul(hp.HK(), Heat.Quadratic(At(u, i), At(u, i + 1))) else 0.0)
  {
    hide Mul, ElemMat, ElemRhs, HeatPattern, Values, RowDot, Rhs, Heat.Quadratic, BlockRhsSum, Params.HK;
    var y, n := Interior(u), hp.numElems;
    InteriorRow(hp, u, u, i);
    RowByElements(hp, u, i, y);
    AssembledRhs(hp, u, i);
    BlockRhsSumAt(hp, u, i, n);
    ElementPoint(hp, At(u, i - 1), At(u, i), 1);
    MulUnits(ElemMat(hp, At(u, 0), At(u, 1), 1, 0));
    if i < n {
      ElementPoint(hp, At(u, i), At(u, i + 1), 0);
    }
  }

  lemma RowDifference(p: Pattern, vals: Vec, i: nat, x: Vec, y: Vec)
    requires |x| == |y|
    ensures RowDot(p, vals, i, Subtracted(x, y)) == RowDot(p, vals, i, x) - RowDot(p, vals, i, y)
  {
    hide Mul, SlotSum, Axpby;
    SlotSumLinear(p, vals, p.Begin(i), p.End(i), -1.0, y, 1.0, x);
    MulUnits(RowDot(p, vals, i, x));
    MulUnits(RowDot(p, vals, i, y));
  }

  lemma RowOfProduct(p: Pattern, vals: Vec, x: Vec, i: nat)
    requires i < p.Rows()
    ensures MatVec(p, vals, x)[i] == RowDot(p, vals, i, x)
  {
    hide RowDot;
  }

  /** A row against a vector that keeps the boundary value of the point, as a sum over elements. */
  lemma RowOfTerms(hp: Params, u: Vec, w: Vec, i: nat)
    requires hp.numElems >= 1 && |u| == |w| == hp.NumDofs() && 1 <= i <= hp.numElems && At(w, 0) == At(u, 0)
    ensures RowDot(HeatPattern(hp), Values(hp, u), i, w) - RowDot(HeatPattern(hp), Values(hp, u), i, u) + Rhs(hp, u)[i]
         == Term(hp, At(u, i), At(u, i - 1), At(w, i), At(w, i - 1))
          + if i < hp.numElems then Term(hp, At(u, i), At(u, i + 1), At(w, i), At(w, i + 1)) else 0.0
  {
    hide Mul, ElemMat, HeatPattern, Values, RowDot, Rhs, Heat.Quadratic, Params.HK, Term;
    RowAtPoint(hp, u, i);
    InteriorRow(hp, u, w, i);
    RowByElements(hp, u, i, Interior(w));
    TermIs(hp, At(u, i - 1), At(u, i), At(w, i - 1), At(w, i));
    MulUnits(ElemMat(hp, At(u, 0), At(u, 1), 1, 0));
    if i < hp.numElems {
      TermIs(hp, At(u, i), At(u, i + 1), At(w, i), At(w, i + 1));
    }
  }

  /** After an exact step the terms of every row cancel. */
  lemma RowTerms(hp: Params, u: Vec, d: Vec, i: nat)
    requires hp.numElems >= 1 && |u| == |d| == hp.NumDofs() && 1 <= i <= hp.numElems
    requires MatVec(HeatPattern(hp), Values(hp, u), d) == Rhs(hp, u)
    ensures var w := Subtracted(u, d);
            && At(w, 0) == At(u, 0)
            && Term(hp, At(u, i), At(u, i - 1), At(w, i), At(w, i - 1))
             + (if i < hp.numElems then Term(hp, At(u, i), At(u, i + 1), At(w, i), At(w, i + 1)) else 0.0)
               == 0.0
  {
    hide HeatPattern, Values, RowDot, Rhs, Term, Subtracted, MatVec;
    ExactStep(hp, u, d);
    SubtractedAt(u, d, 0);
    PatternWellFormed(hp);
    RowOfProduct(HeatPattern(hp), Values(hp, u), d, i);
    RowDifference(HeatPattern(hp), Values(hp, u), i, u, d);
    RowOfTerms(hp, u, Subtracted(u, d), i);
  }

  // ------------------------------------------------------------------------
  // No node is outside.
  // ------------------------------------------------------------------------

  /** How far a value is from the range. */
  function Beyond(x: real): real {
    if x < 0.0 then -x else if x > 1.0 then x - 1.0 else 0.0
  }

  /** The first of the first n values that is farthest outside. */
  function Farthest(w: Vec, n: nat): (i: nat)
    requires 0 < n <= |w|
    ensures i < n
    ensures forall j | 0 <= j < n :: Beyond(w[j]) <= Beyond(w[i])
    ensures forall j | 0 <= j < i :: Beyond(w[j]) < Beyond(w[i])
  {
    if n == 1 then 0
    else
      var i := Farthest(w, n - 1);
      if Beyond(w[n - 1]) > Beyond(w[i]) then n - 1 else i
  }

  /**
   * The farthest node is inside: otherwise all terms of its row would have the same sign, and one would not be zero.
   */
  lemma FarthestInside(hp: Params, u: Vec, d: Vec)
    requires Mild(hp) && InRange(hp, u) && |d| == hp.NumDofs()
    requires MatVec(HeatPattern(hp), Values(hp, u), d) == Rhs(hp, u)
    ensures var w := Subtracted(u, d); At(w, 0) == 1.0 && Beyond(w[Farthest(w, |w|)]) == 0.0
  {
    hide HeatPattern, Values, Rhs, Term, Subtracted, MatVec, Mild, InRange;
    MildParts(hp);
    RangeAt(hp, u, 0);
    ExactStep(hp, u, d);
    SubtractedAt(u, d, 0);
    var w := Subtracted(u, d);
    var i := Farthest(w, |w|);
    var m := Beyond(w[i]);
    assert w[0] == 1.0;
    if m > 0.0 {
      RangeAt(hp, u, i);
      RangeAt(hp, u, i - 1);
      RowTerms(hp, u, d, i);
      if i < hp.numElems {
        RangeAt(hp, u, i + 1);
        Neighbour(w, i + 1);
        if w[i] < 0.0 {
          TermBelow(hp, At(u, i), At(u, i + 1), m, At(w, i + 1));
        } else {
          TermAbove(hp, At(u, i), At(u, i + 1), m, At(w, i + 1));
        }
      }
      Neighbour(w, i - 1);
      if w[i] < 0.0 {
        TermBelow(hp, At(u, i), At(u, i - 1), m, At(w, i - 1));
      } else {
        TermAbove(hp, At(u, i), At(u, i - 1), m, At(w, i - 1));
      }
    }
  }

  /** What being the farthest says about another node. */
  lemma Neighbour(w: Vec, j: nat)
    requires j < |w|
    ensures var i := Farthest(w, |w|);
            var m := Beyond(w[i]);
            -m <= At(w, j) <= 1.0 + m && (j < i ==> -m < At(w, j) < 1.0 + m)
  {
    hide Farthest;
  }

  /** With small elements an exact step leads from a state between zero and one to such a state. */
  lemma ExactRange(hp: Params, u: Vec, d: Vec)
    requires Mild(hp) && InRange(hp, u) && |d| == hp.NumDofs()
    requires MatVec(HeatPattern(hp), Values(hp, u), d) == Rhs(hp, u)
    ensures InRange(hp, Subtracted(u, d))
  {
    hide HeatPattern, Values, Rhs, Subtracted, Mild, MatVec;
    FarthestInside(hp, u, d);
    AllInside(Subtracted(u, d));
  }

  lemma AllInside(w: Vec)
    requires |w| > 0 && Beyond(w[Farthest(w, |w|)]) == 0.0
    ensures forall i | 0 <= i < |w| :: 0.0 <= w[i] <= 1.0
  {
    hide Farthest;
    forall i: nat | i < |w| ensures 0.0 <= w[i] <= 1.0 {
      Neighbour(w, i);
    }
  }

  // ------------------------------------------------------------------------
  // Larger elements.
  // ------------------------------------------------------------------------

  /** One at the boundary and zero elsewhere. */
  function Edge(hp: Params): (u: Vec)
    ensures |u| == hp.NumDofs() && u[0] == 1.0 && forall i | 1 <= i < |u| :: u[i] == 0.0
  {
    Unit(hp.NumDofs(), 0)
  }

  /** The value that an exact step from there gives to all other nodes. */
  function EdgeValue(hp: Params): real {
    Div(Div(1.0, hp.H()) - hp.HK() / 12.0, Div(1.0, hp.H()) + hp.HK() / 6.0)
  }

  /** The step. */
  function EdgeStep(hp: Params): (d: Vec)
    ensures |d| == hp.NumDofs()
  {
    seq(hp.NumDofs(), i => if i == 0 then 0.0 else -EdgeValue(hp))
  }

  lemma EdgeAt(hp: Params, i: nat)
    requires i <= hp.numElems
    ensures At(Edge(hp), i) == if i == 0 then 1.0 else 0.0
    ensures At(EdgeStep(hp), i) == if i == 0 then 0.0 else -EdgeValue(hp)
  {}

  /** The value is not negative exactly up to the bound. */
  lemma EdgeSign(hp: Params)
    requires Meshed(hp)
    ensures EdgeValue(hp) >= 0.0 <==> Mild(hp)
    ensures Mul(Div(1.0, hp.H()) + hp.HK() / 6.0, -EdgeValue(hp)) == -Div(1.0, hp.H()) + hp.HK() / 12.0
  {
    hide Mul, Div, Params.H, Params.HK, Mild, Meshed;
    Weights(hp);
    var n, m, x := Div(1.0, hp.H()) - hp.HK() / 12.0, Div(1.0, hp.H()) + hp.HK() / 6.0, EdgeValue(hp);
    DivMul(n, m);
    MulSign(m, x);
    MulSign(m, -x);
    MulNeg(m, x);
  }

  lemma EdgeElements(hp: Params)
    ensures ElemMat(hp, 1.0, 0.0, 1, 1) == Div(1.0, hp.H()) + hp.HK() / 6.0
    ensures ElemRhs(hp, 1.0, 0.0, 1) == -Div(1.0, hp.H()) + hp.HK() / 12.0
    ensures ElemMat(hp, 0.0, 0.0, 1, 0) + ElemMat(hp, 0.0, 0.0, 1, 1) == 0.0
    ensures ElemMat(hp, 0.0, 0.0, 0, 0) + ElemMat(hp, 0.0, 0.0, 0, 1) == 0.0
    ensures ElemRhs(hp, 0.0, 0.0, 0) == ElemRhs(hp, 0.0, 0.0, 1) == 0.0
  {
    assert Heat.Quadratic(0.0, 1.0) == 1.0 / 12.0;
    assert 1.0 / 6.0 + 0.0 / 2.0 == 1.0 / 6.0;
    ElementNone(hp, 0);
    ElementNone(hp, 1);
    hide Div, Params.H, Params.HK, Heat.Quadratic;
    ElementOnes(hp, 0.0, 0.0, 0);
    ElementOnes(hp, 0.0, 0.0, 1);
  }

  lemma Cancelled(a: real, b: real, x: real)
    requires a + b == 0.0
    ensures Mul(a, x) + Mul(b, x) == 0.0
  {}

  lemma EdgeRow(hp: Params, i: nat)
    requires Meshed(hp) && i <= hp.numElems
    ensures RowDot(HeatPattern(hp), Values(hp, Edge(hp)), i, EdgeStep(hp)) == Rhs(hp, Edge(hp))[i]
  {
    hide Mul, Div, ElemMat, ElemRhs, HeatPattern, Values, RowDot, Rhs, BlockRhsSum, Edge, EdgeStep, EdgeValue, Params.H,
         Params.HK, Meshed;
    MeshedParts(hp);
    var u, d, n := Edge(hp), EdgeStep(hp), hp.numElems;
    EdgeAt(hp, 0);
    AssembledRhs(hp, u, i);
    if i == 0 {
      BoundaryRow(hp, u, d);
    } else {
      EdgeAt(hp, i - 1);
      EdgeAt(hp, i);
      BlockRhsSumAt(hp, u, i, n);
      RowByElements(hp, u, i, d);
      EdgeElements(hp);
      EdgeSign(hp);
      MulUnits(ElemMat(hp, 1.0, 0.0, 1, 0));
      Cancelled(ElemMat(hp, 0.0, 0.0, 1, 0), ElemMat(hp, 0.0, 0.0, 1, 1), -EdgeValue(hp));
      if i < n {
        EdgeAt(hp, i + 1);
        Cancelled(ElemMat(hp, 0.0, 0.0, 0, 0), ElemMat(hp, 0.0, 0.0, 0, 1), -EdgeValue(hp));
      }
    }
  }

  /** It is the exact step from there. */
  lemma EdgeExact(hp: Params)
    requires Meshed(hp)
    ensures MatVec(HeatPattern(hp), Values(hp, Edge(hp)), EdgeStep(hp)) == Rhs(hp, Edge(hp))
    ensures InRange(hp, Edge(hp))
  {
    hide HeatPattern, Values, Rhs, RowDot, Edge, EdgeStep;
    MeshedParts(hp);
    PatternWellFormed(hp);
    forall i | 0 <= i < hp.NumDofs()
      ensures MatVec(HeatPattern(hp), Values(hp, Edge(hp)), EdgeStep(hp))[i] == Rhs(hp, Edge(hp))[i]
    {
      EdgeRow(hp, i);
      RowOfProduct(HeatPattern(hp), Values(hp, Edge(hp)), EdgeStep(hp), i);
    }
  }

  /** It stays in the range only up to the bound. */
  lemma EdgeRange(hp: Params)
    requires Meshed(hp)
    ensures InRange(hp, Subtracted(Edge(hp), EdgeStep(hp))) ==> Mild(hp)
  {
    hide Edge, EdgeStep, EdgeValue, Mild, Subtracted;
    SubtractedAt(Edge(hp), EdgeStep(hp), 1);
    EdgeAt(hp, 1);
    EdgeSign(hp);
  }

  /**
   * On every mesh: all exact steps from states between zero and one lead to such states if and only if h h k is at
   * most twelve.
   */
  lemma RangeExactly(hp: Params)
    requires Meshed(hp)
    ensures Mul(hp.H(), hp.HK()) <= 12.0
       <==> forall u: Vec, d: Vec
              | InRange(hp, u) && |d| == hp.NumDofs() && MatVec(HeatPattern(hp), Values(hp, u), d) == Rhs(hp, u) ::
              InRange(hp, Subtracted(u, d))
  {
    hide HeatPattern, Values, Rhs, Subtracted, Mild, MatVec, Edge, EdgeStep, InRange;
    MeshedParts(hp);
    if Mild(hp) {
      forall u: Vec, d: Vec
        | InRange(hp, u) && |d| == hp.NumDofs() && MatVec(HeatPattern(hp), Values(hp, u), d) == Rhs(hp, u)
        ensures InRange(hp, Subtracted(u, d))
      {
        ExactRange(hp, u, d);
      }
    }
    EdgeExact(hp);
    EdgeRange(hp);
  }

  // ------------------------------------------------------------------------
  // Every reachable state.
  // ------------------------------------------------------------------------

  /** The first k linear solves are exact. */
  ghost predicate ExactRun(c: Setup, u0: Vec, k: nat) {
    forall j: nat | j < k :: Exact(c, PointAt(c, u0, j).u, PointAt(c, u0, j).delta)
  }

  /** The queue solver needs no more for that than its parameters. */
  lemma QueueRun(c: Setup, u0: Vec, k: nat)
    requires !c.useGraph && c.tol == 0.0 && c.maxIters >= c.hp.NumDofs()
    ensures ExactRun(c, u0, k)
  {
    forall j: nat | j < k ensures Exact(c, PointAt(c, u0, j).u, PointAt(c, u0, j).delta) {
      PointSized(c, u0, j);
    }
  }

  lemma RunAt(c: Setup, u0: Vec, k: nat, j: nat)
    requires ExactRun(c, u0, k) && j <= k
    ensures ExactRun(c, u0, j) && (j < k ==> Exact(c, PointAt(c, u0, j).u, PointAt(c, u0, j).delta))
  {
    hide Exact, PointAt;
  }

  /** The linear system at a state in range is sound for conjugate gradients, with any preconditioner. */
  lemma RangeSound(hp: Params, u: Vec, prec: Krylov.Prec)
    requires Meshed(hp) && InRange(hp, u)
    ensures LinearSystem(hp, u, prec).Sound()
  {
    hide InRange, Physical, LinearSystem, Krylov.System.Sound;
    RangePhysical(hp, u);
    LinearSystemSound(hp, u, prec);
  }

  /** With small elements and exact solves all Newton states stay between zero and one. */
  lemma {:induction false} StatesInRange(c: Setup, u0: Vec, k: nat)
    requires Mild(c.hp) && InRange(c.hp, u0) && ExactRun(c, u0, k)
    ensures InRange(c.hp, PointAt(c, u0, k).u)
  {
    hide LinearSolve, Exact, ExactRun, InRange, Mild, Meshed, LinearSystem, Krylov.System.Sound, HeatPattern, Values,
         Rhs, MatVec, Subtracted;
    if k > 0 {
      RunAt(c, u0, k, k - 1);
      StatesInRange(c, u0, k - 1);
      var pt := PointAt(c, u0, k - 1);
      MildParts(c.hp);
      RangeSound(c.hp, pt.u, c.prec);
      SolveExactly(c, pt.u, pt.delta);
      PointSized(c, u0, k - 1);
      SolveSized(c, pt.u, pt.delta);
      ExactRange(c.hp, pt.u, LinearSolve(c, pt.u, pt.delta).sol);
    }
  }

  /** So the linear systems of all iterations are sound for conjugate gradients, with any preconditioner. */
  lemma ReachableSound(c: Setup, u0: Vec, k: nat, prec: Krylov.Prec)
    requires Mild(c.hp) && InRange(c.hp, u0) && ExactRun(c, u0, k)
    ensures LinearSystem(c.hp, PointAt(c, u0, k).u, prec).Sound()
  {
    hide PointAt, ExactRun, InRange, Mild, Meshed, LinearSystem, Krylov.System.Sound;
    StatesInRange(c, u0, k);
    MildParts(c.hp);
    RangeSound(c.hp, PointAt(c, u0, k).u, prec);
  }

  lemma SpdUnique(p: Pattern, vals: Vec, x: Vec, y: Vec)
    requires Spd(p, vals) && |x| == |y| == p.Rows() && MatVec(p, vals, x) == MatVec(p, vals, y)
    ensures x == y
  {
    hide Mul, MatVec, DotTo, Symmetric;
    var z, a := Subtracted(x, y), MatVec(p, vals, x);
    MatVecLinear(p, vals, -1.0, y, 1.0, x);
    DotAxpbyRight(z, -1.0, a, 1.0, a);
    MulUnits(Dot(z, a));
    forall i: nat | i < |x| ensures x[i] == y[i] {
      SubtractedAt(x, y, i);
      assert IsZero(z);
      assert z[i] == 0.0;
    }
  }

  /** The queue solver, without tolerance and preconditioner. */
  function Plain(hp: Params): Setup {
    Setup(hp, false, Krylov.Identity, Krylov.Identity, true, 0.0, hp.NumDofs())
  }

  /** Its first step from the edge. */
  lemma EdgeRun(hp: Params)
    requires Meshed(hp)
    ensures ExactRun(Plain(hp), Edge(hp), 1)
    ensures PointAt(Plain(hp), Edge(hp), 1).u == Subtracted(Edge(hp), EdgeStep(hp))
  {
    var c := Plain(hp);
    QueueRun(c, Edge(hp), 1);
    RunAt(c, Edge(hp), 1, 0);
    hide HeatPattern, Values, Rhs, MatVec, Spd, Exact, ExactRun, LinearSolve, Subtracted, Edge, EdgeStep, InRange,
         Physical, LinearSystem, Krylov.System.Sound;
    PatternWellFormed(hp);
    EdgeExact(hp);
    RangeSound(hp, Edge(hp), c.prec);
    RangePhysical(hp, Edge(hp));
    AssembledSpd(hp, Edge(hp));
    SolveExactly(c, Edge(hp), Zeros(hp.NumDofs()));
    SolveSized(c, Edge(hp), Zeros(hp.NumDofs()));
    StepIs(c, Edge(hp), 0);
    SpdUnique(HeatPattern(hp), Values(hp, Edge(hp)), LinearSolve(c, Edge(hp), Zeros(hp.NumDofs())).sol, EdgeStep(hp));
  }

  /**
   * On every mesh: all states of all runs with exact linear solves and a guess between zero and one stay there if and
   * only if h h k is at most twelve.
   */
  lemma RunsExactly(hp: Params)
    requires Meshed(hp)
    ensures Mul(hp.H(), hp.HK()) <= 12.0
       <==> forall c: Setup, u0: Vec, k: nat | c.hp == hp && InRange(hp, u0) && ExactRun(c, u0, k) ::
              InRange(hp, PointAt(c, u0, k).u)
  {
    EdgeExact(hp);
    EdgeRun(hp);
    assert Plain(hp).hp == hp;
    hide Mul, Mild, Edge, EdgeStep, InRange, ExactRun, PointAt, Subtracted, Plain, HeatPattern, Values, Rhs, MatVec;
    MeshedParts(hp);
    if Mild(hp) {
      forall c: Setup, u0: Vec, k: nat | c.hp == hp && InRange(hp, u0) && ExactRun(c, u0, k)
        ensures InRange(hp, PointAt(c, u0, k).u)
      {
        StatesInRange(c, u0, k);
      }
    }
    EdgeRange(hp);
  }

  ghost predicate Bounded(x: Vec, m: real) {
    forall i | 0 <= i < |x| :: -m <= x[i] <= m
  }

  /**
   * Quadratic convergence of every run: each residual but the first is exactly the quadratic remainder of the step
   * that led to it, and no entry exceeds h k times the squared largest entry of that step, which is at most one.
   */
  lemma QuadraticConvergence(c: Setup, u0: Vec, k: nat, m: real)
    requires Mild(c.hp) && InRange(c.hp, u0) && ExactRun(c, u0, k + 1)
    ensures var f, d := Rhs(c.hp, PointAt(c, u0, k + 1).u), PointAt(c, u0, k + 1).delta;
            && f == Remainder(c.hp, d) && Bounded(d, 1.0)
            && (Bounded(d, m) ==> Bounded(f, Mul(Mul(c.hp.H(), Abs(c.hp.k)), Mul(m, m))))
  {
    hide Mul, LinearSolve, Exact, ExactRun, InRange, Mild, Meshed, LinearSystem, Krylov.System.Sound, HeatPattern,
         Values, Rhs, MatVec, Subtracted, Remainder, Params.H;
    MildParts(c.hp);
    RunAt(c, u0, k + 1, k);
    StatesInRange(c, u0, k);
    StatesInRange(c, u0, k + 1);
    var pt := PointAt(c, u0, k);
    RangeSound(c.hp, pt.u, c.prec);
    SolveExactly(c, pt.u, pt.delta);
    PointSized(c, u0, k);
    SolveSized(c, pt.u, pt.delta);
    var d := LinearSolve(c, pt.u, pt.delta).sol;
    RangeAt(c.hp, pt.u, 0);
    StepIs(c, u0, k);
    ExactStep(c.hp, pt.u, d);
    StepBounded(c.hp, pt.u, d);
    if Bounded(d, m) {
      RemainderBounded(c.hp, pt.u, d, m);
    }
  }

  lemma StepIs(c: Setup, u0: Vec, k: nat)
    ensures var d := LinearSolve(c, PointAt(c, u0, k).u, PointAt(c, u0, k).delta).sol;
            PointAt(c, u0, k + 1).delta == d && PointAt(c, u0, k + 1).u == Subtracted(PointAt(c, u0, k).u, d)
  {
    hide LinearSolve, Subtracted;
  }

  /** A step between two states in range. */
  lemma StepBounded(hp: Params, u: Vec, d: Vec)
    requires InRange(hp, u) && InRange(hp, Subtracted(u, d)) && |d| == hp.NumDofs()
    ensures Bounded(d, 1.0)
  {
    hide Subtracted, InRange;
    forall i | 0 <= i < |d| ensures -1.0 <= d[i] <= 1.0 {
      RangeAt(hp, u, i);
      RangeAt(hp, Subtracted(u, d), i);
      SubtractedAt(u, d, i);
    }
  }

  lemma RemainderBounded(hp: Params, u: Vec, d: Vec, m: real)
    requires hp.numElems >= 1 && hp.length >= 0.0 && |u| == |d| == hp.NumDofs() && Bounded(d, m)
    requires MatVec(HeatPattern(hp), Values(hp, u), d) == Rhs(hp, u)
    ensures Bounded(Rhs(hp, Subtracted(u, d)), Mul(Mul(hp.H(), Abs(hp.k)), Mul(m, m)))
  {
    hide Mul, HeatPattern, Values, Rhs, MatVec, Subtracted, Params.H, Abs;
    var f, bound := Rhs(hp, Subtracted(u, d)), Mul(Mul(hp.H(), Abs(hp.k)), Mul(m, m));
    forall i | 0 <= i < |f| ensures -bound <= f[i] <= bound {
      ExactStepBound(hp, u, d, m, i);
      AbsBounds(f[i]);
    }
  }

  lemma AbsBounds(x: real)
    ensures -Abs(x) <= x <= Abs(x)
  {}

  lemma {:induction false} EntrySquare(x: Vec, k: nat, i: nat)
    requires i < k
    ensures Mul(At(x, i), At(x, i)) <= DotTo(x, x, k)
  {
    hide Mul;
    DotToSelf(x, k - 1, 0);
    MulSign(At(x, k - 1), At(x, k - 1));
    if i < k - 1 {
      EntrySquare(x, k - 1, i);
    }
  }

  /** No entry exceeds the norm. */
  lemma NormBounds(x: Vec, t: real)
    requires t >= 0.0 && Dot(x, x) <= Mul(t, t)
    ensures Bounded(x, t)
  {
    hide Mul;
    forall i: nat | i < |x| ensures -t <= x[i] <= t {
      EntrySquare(x, |x|, i);
      SquareOrder(x[i], t);
    }
  }

  lemma SquareOrder(a: real, t: real)
    requires t >= 0.0 && Mul(a, a) <= Mul(t, t)
    ensures -t <= a <= t
  {
    SquareDifference(a, t);
    hide Mul;
    MulSign(a - t, a + t);
    MulSign(-a - t, -a + t);
  }

  lemma SquareDifference(a: real, t: real)
    ensures Mul(a - t, a + t) == Mul(-a - t, -a + t) == Mul(a, a) - Mul(t, t)
  {}

  /**
   * With a tolerance for the linear solves, at every state of a run whose linear system is sound: the next residual
   * differs from the quadratic remainder of the step by a vector whose norm is at most that tolerance.
   */
  lemma InexactConvergence(c: Setup, u0: Vec, k: nat, m: real)
    requires c.hp.numElems >= 1 && c.hp.length >= 0.0 && |u0| == c.hp.NumDofs() && u0[0] == 1.0
    requires LinearSystem(c.hp, PointAt(c, u0, k).u, c.prec).Sound()
    requires Tight(c, PointAt(c, u0, k).u, PointAt(c, u0, k).delta)
    ensures var f, d := Rhs(c.hp, PointAt(c, u0, k + 1).u), PointAt(c, u0, k + 1).delta;
            var e := Subtracted(f, Remainder(c.hp, d));
            && Dot(e, e) <= Mul(c.tol, c.tol) && Bounded(e, c.tol)
            && (Bounded(d, m) ==> Bounded(f, Mul(Mul(c.hp.H(), Abs(c.hp.k)), Mul(m, m)) + c.tol))
  {
    hide *;
    var pt := PointAt(c, u0, k);
    BoundaryAt(c, u0, k);
    TightParts(c, pt.u, pt.delta);
    InexactStep(c, pt);
    NewtonCases(c, u0, 0.0, k, k);
    PointSized(c, u0, k + 1);
    var f, d := Rhs(c.hp, PointAt(c, u0, k + 1).u), PointAt(c, u0, k + 1).delta;
    NormBounds(Subtracted(f, Remainder(c.hp, d)), c.tol);
    if Bounded(d, m) {
      InexactBound(c.hp, f, d, m, c.tol);
    }
  }

  lemma BoundaryAt(c: Setup, u0: Vec, k: nat)
    requires c.hp.numElems >= 1 && |u0| == c.hp.NumDofs() && u0[0] == 1.0
    ensures |PointAt(c, u0, k).u| == c.hp.NumDofs() && At(PointAt(c, u0, k).delta, 0) == 0.0
  {
    hide PointAt;
    BoundaryKept(c, u0, k);
  }

  lemma InexactBound(hp: Params, f: Vec, d: Vec, m: real, t: real)
    requires hp.numElems >= 1 && hp.length >= 0.0 && |f| == |d| == hp.NumDofs() && Bounded(d, m)
    requires Bounded(Subtracted(f, Remainder(hp, d)), t)
    ensures Bounded(f, Mul(Mul(hp.H(), Abs(hp.k)), Mul(m, m)) + t)
  {
    hide Mul, RemainderAt, Subtracted, Params.H, Params.HK, Abs;
    var r := Remainder(hp, d);
    forall i: nat | i < |f| ensures var b := Mul(Mul(hp.H(), Abs(hp.k)), Mul(m, m)) + t; -b <= f[i] <= b {
      RemainderBound(hp, d, m, i);
      AbsBounds(RemainderAt(hp, d, i));
      SubtractedAt(f, r, i);
      assert Subtracted(f, r)[i] == f[i] - r[i];
    }
  }

  /** The initial guess is between zero and one exactly when the rod is not longer than one. */
  lemma GuessInRange(hp: Params)
    requires hp.numElems >= 1 && hp.length > 0.0
    ensures InRange(hp, Guess(hp.NumDofs(), hp.H())) <==> hp.length <= 1.0
  {
    hide Params.H;
    var n, u := hp.numElems, Guess(hp.NumDofs(), hp.H());
    SizePositive(hp);
    GuessEnd(hp);
    if hp.length <= 1.0 {
      forall i | 0 <= i < |u| ensures 0.0 <= u[i] <= 1.0 {
        GuessBetween(i, n, hp.H());
      }
    }
  }

  lemma GuessEnd(hp: Params)
    requires hp.numElems >= 1
    ensures Guess(hp.NumDofs(), hp.H())[hp.numElems] == 1.0 - hp.length
    ensures hp.numElems as real * hp.H() == hp.length
  {
    DivMul(hp.length, hp.numElems as real);
  }

  lemma GuessBetween(i: nat, n: nat, h: real)
    requires i <= n && h > 0.0
    ensures 0.0 <= i as real * h <= n as real * h
  {
    assert (n - i) as real * h >= 0.0;
  }
}
