/** Real vectors, inner products, and the bound on independent families. */
module Vectors {

  type Vec = seq<real>

  function At(x: Vec, i: int): real {
    if 0 <= i < |x| then x[i] else 0.0
  }

  /** A product under a name, so that a proof can treat it as one symbol. */
  function Mul(a: real, b: real): real {
    a * b
  }

  /** A quotient made total. A zero denominator never occurs where a theorem about values is claimed. */
  function Div(a: real, b: real): real {
    if b == 0.0 then 0.0 else a / b
  }

  /** a * x + b * y, of the length of y. */
  function Axpby(a: real, x: Vec, b: real, y: Vec): (z: Vec)
    ensures |z| == |y|
  {
    seq(|y|, i requires 0 <= i < |y| => Mul(a, At(x, i)) + Mul(b, y[i]))
  }

  function Zeros(n: nat): (z: Vec)
    ensures |z| == n
  {
    seq(n, i => 0.0)
  }

  /** The j-th unit vector of length n. */
  function Unit(n: nat, j: nat): (e: Vec)
    ensures |e| == n
  {
    seq(n, i => if i == j then 1.0 else 0.0)
  }

  function DotTo(x: Vec, y: Vec, k: nat): real {
    if k == 0 then 0.0 else DotTo(x, y, k - 1) + Mul(At(x, k - 1), At(y, k - 1))
  }

  function Dot(x: Vec, y: Vec): real {
    DotTo(x, y, |x|)
  }

  ghost predicate IsZero(x: Vec) {
    forall i | 0 <= i < |x| :: x[i] == 0.0
  }

  /** The indices below n, as the iteration space of a parallel_for. */
  function Range(n: nat): (r: set<nat>)
    ensures forall i: nat :: i in r <==> i < n
    ensures |r| == n
  {
    if n == 0 then {} else Range(n - 1) + {n - 1}
  }

  // ------------------------------------------------------------------------
  // Arithmetic of named products and quotients.
  // ------------------------------------------------------------------------

  lemma MulUnits(a: real)
    ensures Mul(a, 0.0) == Mul(0.0, a) == 0.0
    ensures Mul(a, 1.0) == Mul(1.0, a) == a
    ensures Mul(a, -1.0) == Mul(-1.0, a) == -a
  {}

  lemma MulComm(a: real, b: real)
    ensures Mul(a, b) == Mul(b, a)
  {}

  lemma MulAdd(a: real, x: real, y: real)
    ensures Mul(a, x + y) == Mul(a, x) + Mul(a, y)
    ensures Mul(a, x - y) == Mul(a, x) - Mul(a, y)
  {}

  lemma MulNeg(a: real, b: real)
    ensures Mul(-a, b) == Mul(a, -b) == -Mul(a, b)
  {}

  lemma MulSwap(a: real, b: real, c: real)
    ensures Mul(a, Mul(b, c)) == Mul(b, Mul(a, c)) == Mul(Mul(a, b), c)
  {}

  /** A combination, multiplied through. */
  lemma MulLinear(v: real, a: real, x: real, b: real, y: real)
    ensures Mul(v, Mul(a, x) + Mul(b, y)) == Mul(a, Mul(v, x)) + Mul(b, Mul(v, y))
    ensures Mul(Mul(a, x) + Mul(b, y), v) == Mul(a, Mul(x, v)) + Mul(b, Mul(y, v))
  {}

  lemma MulSign(a: real, b: real)
    ensures (a > 0.0 && b > 0.0) || (a < 0.0 && b < 0.0) ==> Mul(a, b) > 0.0
    ensures Mul(a, b) == 0.0 <==> a == 0.0 || b == 0.0
  {
    if a > 0.0 && b > 0.0 {
      assert a * b > 0.0;
    } else if a < 0.0 && b < 0.0 {
      assert a * b == (-a) * (-b) > 0.0;
    } else if a > 0.0 && b < 0.0 {
      assert a * (-b) > 0.0;
    } else if a < 0.0 && b > 0.0 {
      assert (-a) * b > 0.0;
    }
  }

  lemma MulOrder(a: real, b: real)
    ensures a >= 0.0 && b >= 0.0 ==> Mul(a, b) >= 0.0
    ensures a <= 0.0 && b >= 0.0 ==> Mul(a, b) <= 0.0
    ensures b == 0.0 ==> Mul(a, b) == 0.0
  {
    hide Mul;
    MulSign(a, b);
    MulSign(-a, b);
    MulNeg(a, b);
  }

  lemma DivMul(a: real, b: real)
    requires b != 0.0
    ensures Mul(Div(a, b), b) == Mul(b, Div(a, b)) == a
  {}

  /** Division is the only solution of the product equation. */
  lemma DivUnique(a: real, b: real, q: real)
    requires b != 0.0 && Mul(q, b) == a
    ensures Div(a, b) == q
  {}

  lemma DivLinear(a: real, x: real, b: real, y: real, d: real)
    ensures Div(Mul(a, x) + Mul(b, y), d) == Mul(a, Div(x, d)) + Mul(b, Div(y, d))
  {
    if d != 0.0 {
      hide Mul, Div;
      DivMul(x, d);
      DivMul(y, d);
      MulLinear(d, a, Div(x, d), b, Div(y, d));
      MulComm(d, Mul(a, Div(x, d)) + Mul(b, Div(y, d)));
      DivUnique(Mul(a, x) + Mul(b, y), d, Mul(a, Div(x, d)) + Mul(b, Div(y, d)));
    } else {
      MulUnits(a);
      MulUnits(b);
    }
  }

  // ------------------------------------------------------------------------
  // The inner product.
  // ------------------------------------------------------------------------

  lemma DotToStep(x: Vec, y: Vec, k: nat)
    ensures DotTo(x, y, 0) == 0.0
    ensures DotTo(x, y, k + 1) == DotTo(x, y, k) + Mul(At(x, k), At(y, k))
  {}

  lemma {:induction false} DotToComm(x: Vec, y: Vec, k: nat)
    ensures DotTo(x, y, k) == DotTo(y, x, k)
  {
    hide Mul;
    if k > 0 {
      DotToComm(x, y, k - 1);
      MulComm(At(x, k - 1), At(y, k - 1));
    }
  }

  lemma DotComm(x: Vec, y: Vec)
    requires |x| == |y|
    ensures Dot(x, y) == Dot(y, x)
  {
    DotToComm(x, y, |x|);
  }

  lemma {:induction false} DotToAxpby(a: real, x: Vec, b: real, y: Vec, z: Vec, k: nat)
    requires |x| == |y|
    ensures DotTo(Axpby(a, x, b, y), z, k) == Mul(a, DotTo(x, z, k)) + Mul(b, DotTo(y, z, k))
  {
    hide Mul;
    if k == 0 {
      MulUnits(a);
      MulUnits(b);
    } else {
      var i, c := k - 1, Axpby(a, x, b, y);
      DotToAxpby(a, x, b, y, z, i);
      AtAxpby(a, x, b, y, i);
      MulLinear(At(z, i), a, At(x, i), b, At(y, i));
      MulAdd(a, DotTo(x, z, i), Mul(At(x, i), At(z, i)));
      MulAdd(b, DotTo(y, z, i), Mul(At(y, i), At(z, i)));
    }
  }

  lemma AtAxpby(a: real, x: Vec, b: real, y: Vec, i: nat)
    requires |x| == |y|
    ensures At(Axpby(a, x, b, y), i) == Mul(a, At(x, i)) + Mul(b, At(y, i))
  {}

  /** The inner product is linear in its first argument. */
  lemma DotAxpby(a: real, x: Vec, b: real, y: Vec, z: Vec)
    requires |x| == |y|
    ensures Dot(Axpby(a, x, b, y), z) == Mul(a, Dot(x, z)) + Mul(b, Dot(y, z))
  {
    hide Mul;
    DotToAxpby(a, x, b, y, z, |x|);
  }

  /** The inner product is linear in its second argument. */
  lemma DotAxpbyRight(z: Vec, a: real, x: Vec, b: real, y: Vec)
    requires |x| == |y| == |z|
    ensures Dot(z, Axpby(a, x, b, y)) == Mul(a, Dot(z, x)) + Mul(b, Dot(z, y))
  {
    hide Mul, DotTo;
    DotComm(z, Axpby(a, x, b, y));
    DotAxpby(a, x, b, y, z);
    DotComm(z, x);
    DotComm(z, y);
  }

  lemma {:induction false} DotToSelf(x: Vec, k: nat, i: nat)
    ensures DotTo(x, x, k) >= 0.0
    ensures i < k && At(x, i) != 0.0 ==> DotTo(x, x, k) > 0.0
  {
    hide Mul;
    if k > 0 {
      DotToSelf(x, k - 1, i);
      MulSign(At(x, k - 1), At(x, k - 1));
    }
  }

  /** The squared norm is nonnegative, and zero exactly for the zero vector. */
  lemma DotSelf(x: Vec)
    ensures Dot(x, x) >= 0.0
    ensures Dot(x, x) == 0.0 <==> IsZero(x)
  {
    DotToSelf(x, |x|, 0);
    if IsZero(x) {
      DotToZero(x, x, |x|);
    } else {
      var i :| 0 <= i < |x| && x[i] != 0.0;
      DotToSelf(x, |x|, i);
    }
  }

  lemma {:induction false} DotToZero(x: Vec, y: Vec, k: nat)
    requires IsZero(x)
    ensures DotTo(x, y, k) == DotTo(y, x, k) == 0.0
  {
    if k > 0 {
      DotToZero(x, y, k - 1);
    }
  }

  lemma {:induction false} DotToUnit(n: nat, j: nat, x: Vec, k: nat)
    requires k <= n
    ensures DotTo(Unit(n, j), x, k) == if j < k then At(x, j) else 0.0
  {
    hide Mul;
    if k > 0 {
      DotToUnit(n, j, x, k - 1);
      MulUnits(At(x, k - 1));
    }
  }

  // ------------------------------------------------------------------------
  // Orthogonal projection and Bessel's inequality.
  // ------------------------------------------------------------------------

  ghost predicate Sized(n: nat, vs: seq<Vec>) {
    forall i | 0 <= i < |vs| :: |vs[i]| == n
  }

  /** Nonzero and pairwise orthogonal vectors of length n. */
  ghost predicate Orthogonal(n: nat, vs: seq<Vec>) {
    && Sized(n, vs)
    && (forall i | 0 <= i < |vs| :: Dot(vs[i], vs[i]) > 0.0)
    && (forall i, j | 0 <= i < |vs| && 0 <= j < |vs| && i != j :: Dot(vs[i], vs[j]) == 0.0)
  }

  function Weight(v: Vec, x: Vec): real {
    Div(Dot(x, v), Dot(v, v))
  }

  /** What is left of x once its components along the first k vectors are removed. */
  function Reject(vs: seq<Vec>, k: nat, x: Vec): (r: Vec)
    requires k <= |vs|
    ensures |r| == |x|
  {
    if k == 0 then x
    else Axpby(-Weight(vs[k - 1], x), vs[k - 1], 1.0, Reject(vs, k - 1, x))
  }

  lemma {:induction false} RejectDot(n: nat, vs: seq<Vec>, k: nat, x: Vec, w: Vec)
    requires k <= |vs| && Sized(n, vs) && |x| == n
    requires forall i | 0 <= i < k :: Dot(vs[i], w) == 0.0
    ensures Dot(Reject(vs, k, x), w) == Dot(x, w)
  {
    hide Mul, Div, Dot, Axpby, Weight;
    if k > 0 {
      RejectDot(n, vs, k - 1, x, w);
      DotAxpby(-Weight(vs[k - 1], x), vs[k - 1], 1.0, Reject(vs, k - 1, x), w);
      MulUnits(-Weight(vs[k - 1], x));
      MulUnits(Dot(x, w));
    }
  }

  lemma {:induction false} RejectOrthogonal(n: nat, vs: seq<Vec>, k: nat, x: Vec, j: nat)
    requires k <= |vs| && Orthogonal(n, vs) && |x| == n && j < |vs|
    ensures Dot(Reject(vs, k, x), vs[j]) == if j < k then 0.0 else Dot(x, vs[j])
  {
    hide Mul, Div, Dot, Axpby;
    if k > 0 {
      var v, w, p := vs[k - 1], Weight(vs[k - 1], x), Reject(vs, k - 1, x);
      RejectOrthogonal(n, vs, k - 1, x, j);
      DotAxpby(-w, v, 1.0, p, vs[j]);
      MulUnits(Dot(p, vs[j]));
      MulUnits(-w);
      MulNeg(w, Dot(v, vs[j]));
      DivMul(Dot(x, v), Dot(v, v));
    }
  }

  /** The squared length of the component of x along v. */
  function Share(v: Vec, x: Vec): real {
    Mul(Dot(x, v), Weight(v, x))
  }

  function ShareSum(vs: seq<Vec>, k: nat, x: Vec): real
    requires k <= |vs|
  {
    if k == 0 then 0.0 else ShareSum(vs, k - 1, x) + Share(vs[k - 1], x)
  }

  lemma {:induction false} RejectNorm(n: nat, vs: seq<Vec>, k: nat, x: Vec)
    requires k <= |vs| && Orthogonal(n, vs) && |x| == n
    ensures Dot(Reject(vs, k, x), Reject(vs, k, x)) == Dot(x, x) - ShareSum(vs, k, x)
  {
    hide Mul, Div, Dot, Axpby, Weight;
    if k > 0 {
      RejectNorm(n, vs, k - 1, x);
      var v, p, q := vs[k - 1], Reject(vs, k - 1, x), Reject(vs, k, x);
      var w := Weight(v, x);
      DotAxpby(-w, v, 1.0, p, q);
      RejectOrthogonal(n, vs, k, x, k - 1);
      DotComm(q, v);
      DotAxpbyRight(p, -w, v, 1.0, p);
      RejectOrthogonal(n, vs, k - 1, x, k - 1);
      MulUnits(-w);
      MulUnits(Dot(p, q));
      MulUnits(Dot(p, p));
      MulNeg(w, Dot(p, v));
      MulComm(w, Dot(p, v));
    }
  }

  /** Bessel's inequality. */
  lemma Bessel(n: nat, vs: seq<Vec>, x: Vec)
    requires Orthogonal(n, vs) && |x| == n
    ensures ShareSum(vs, |vs|, x) <= Dot(x, x)
  {
    hide Mul, Div, Dot, Axpby, Share;
    RejectNorm(n, vs, |vs|, x);
    DotSelf(Reject(vs, |vs|, x));
  }

  /** The Bessel sums of the first m unit vectors, added up. */
  function UnitSum(n: nat, vs: seq<Vec>, k: nat, m: nat): real
    requires k <= |vs|
  {
    if m == 0 then 0.0 else UnitSum(n, vs, k, m - 1) + ShareSum(vs, k, Unit(n, m - 1))
  }

  lemma {:induction false} UnitSumBound(n: nat, vs: seq<Vec>, m: nat)
    requires Orthogonal(n, vs) && m <= n
    ensures UnitSum(n, vs, |vs|, m) <= m as real
  {
    hide Mul, Div, Share;
    if m > 0 {
      UnitSumBound(n, vs, m - 1);
      Bessel(n, vs, Unit(n, m - 1));
      DotToUnit(n, m - 1, Unit(n, m - 1), n);
    }
  }

  /** The part of the squared norm of v held by its first m entries. */
  function Fraction(v: Vec, m: nat): real {
    Div(DotTo(v, v, m), Dot(v, v))
  }

  lemma FractionStep(n: nat, v: Vec, m: nat)
    requires |v| == n && m < n && Dot(v, v) > 0.0
    ensures Fraction(v, m + 1) == Fraction(v, m) + Share(v, Unit(n, m))
  {
    hide Mul, Div;
    DotToUnit(n, m, v, n);
    var s, a, d := DotTo(v, v, m), At(v, m), Dot(v, v);
    DivLinear(1.0, s, a, a, d);
    MulUnits(s);
    MulUnits(Div(s, d));
  }

  lemma {:induction false} UnitSumStep(n: nat, vs: seq<Vec>, k: nat, m: nat)
    requires Orthogonal(n, vs) && 0 < k <= |vs| && m <= n
    ensures UnitSum(n, vs, k, m) == UnitSum(n, vs, k - 1, m) + Fraction(vs[k - 1], m)
  {
    hide Mul, Share, Dot;
    if m > 0 {
      UnitSumStep(n, vs, k, m - 1);
      FractionStep(n, vs[k - 1], m - 1);
    }
  }

  lemma {:induction false} UnitSumCount(n: nat, vs: seq<Vec>, k: nat)
    requires Orthogonal(n, vs) && k <= |vs|
    ensures UnitSum(n, vs, k, n) == k as real
  {
    if k == 0 {
      UnitSumEmpty(n, vs, n);
    } else {
      UnitSumCount(n, vs, k - 1);
      UnitSumStep(n, vs, k, n);
    }
  }

  lemma {:induction false} UnitSumEmpty(n: nat, vs: seq<Vec>, m: nat)
    ensures UnitSum(n, vs, 0, m) == 0.0
  {
    if m > 0 {
      UnitSumEmpty(n, vs, m - 1);
    }
  }

  /** At most n vectors of length n are nonzero and pairwise orthogonal. */
  lemma OrthogonalBound(n: nat, vs: seq<Vec>)
    requires Orthogonal(n, vs)
    ensures |vs| <= n
  {
    UnitSumCount(n, vs, |vs|);
    UnitSumBound(n, vs, n);
  }

  // ------------------------------------------------------------------------
  // Families made independent by a second, triangular family.
  // ------------------------------------------------------------------------

  /** Every us[i] meets ws[i], and no earlier us[j] does. */
  ghost predicate Triangular(n: nat, us: seq<Vec>, ws: seq<Vec>) {
    && |us| == |ws| && Sized(n, us) && Sized(n, ws)
    && (forall i | 0 <= i < |us| :: Dot(us[i], ws[i]) != 0.0)
    && (forall i, j | 0 <= j < i < |us| :: Dot(us[j], ws[i]) == 0.0)
  }

  /** Gram-Schmidt on the first k vectors. */
  function GramSchmidt(us: seq<Vec>, k: nat): (vs: seq<Vec>)
    requires k <= |us|
    ensures |vs| == k
  {
    if k == 0 then []
    else GramSchmidt(us, k - 1) + [Reject(GramSchmidt(us, k - 1), k - 1, us[k - 1])]
  }

  lemma {:induction false} GramSchmidtSpan(n: nat, us: seq<Vec>, k: nat, w: Vec)
    requires Sized(n, us) && k <= |us|
    requires forall i | 0 <= i < k :: Dot(us[i], w) == 0.0
    ensures Sized(n, GramSchmidt(us, k))
    ensures forall i | 0 <= i < k :: Dot(GramSchmidt(us, k)[i], w) == 0.0
  {
    hide Dot, Reject;
    if k > 0 {
      GramSchmidtSpan(n, us, k - 1, w);
      RejectDot(n, GramSchmidt(us, k - 1), k - 1, us[k - 1], w);
    }
  }

  lemma {:induction false} GramSchmidtOrthogonal(n: nat, us: seq<Vec>, ws: seq<Vec>, k: nat)
    requires Triangular(n, us, ws) && k <= |us|
    ensures Orthogonal(n, GramSchmidt(us, k))
  {
    hide Mul, Reject;
    if k > 0 {
      GramSchmidtOrthogonal(n, us, ws, k - 1);
      var vs, u, w := GramSchmidt(us, k - 1), us[k - 1], ws[k - 1];
      var v := Reject(vs, k - 1, u);
      GramSchmidtSpan(n, us, k - 1, w);
      RejectDot(n, vs, k - 1, u, w);
      assert Dot(v, w) != 0.0;
      DotSelf(v);
      if IsZero(v) {
        DotToZero(v, w, n);
      }
      forall j | 0 <= j < k - 1 ensures Dot(v, vs[j]) == 0.0 && Dot(vs[j], v) == 0.0 {
        RejectOrthogonal(n, vs, k - 1, u, j);
        DotComm(v, vs[j]);
      }
    }
  }

  /** A triangular family of vectors of length n has at most n members. */
  lemma TriangularBound(n: nat, us: seq<Vec>, ws: seq<Vec>)
    requires Triangular(n, us, ws)
    ensures |us| <= n
  {
    GramSchmidtOrthogonal(n, us, ws, |us|);
    OrthogonalBound(n, GramSchmidt(us, |us|));
  }
}
