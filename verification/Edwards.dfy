/** The curve -x^2 + y^2 = 1 + d x^2 y^2 over the residues modulo p, in affine coordinates: the
    reference against which the point formulas and the scalar multiplications are proved.

    The denominators of the addition law never vanish; closure, associativity, the identity and
    inverses are proved in Associativity and EdwardsGroup. */
module Edwards {
  import opened Arithmetic
  import opened Residues
  import opened PrimeField
  import opened NonSquare

  datatype Point = Point(x: int, y: int)

  const Zero := Point(0, 1)

  ghost predicate SatisfiesEquation(d: int, a: Point) {
    && 0 <= a.x < P && 0 <= a.y < P
    && Cong(a.y * a.y - a.x * a.x, 1 + d * (a.x * a.x * (a.y * a.y)))
  }

  // The definitions below are folded up under a depth, like congruence itself: a proof that does
  // not need the polynomials does not see them.

  ghost predicate OnCurveAt(depth: nat, d: int, a: Point)
    decreases depth, d
  {
    if depth == 0 then SatisfiesEquation(d, a) else OnCurveAt(depth - 1, d, a)
  }

  /** Coordinates are canonical residues and satisfy the curve equation. */
  ghost predicate OnCurve(d: int, a: Point) {
    OnCurveAt(4, d, a)
  }

  lemma OnCurveMeans(d: int, a: Point)
    ensures OnCurve(d, a) <==> SatisfiesEquation(d, a)
  {
    assert OnCurveAt(2, d, a) == OnCurveAt(0, d, a);
    assert OnCurveAt(4, d, a) == OnCurveAt(2, d, a);
  }

  function Cross(d: int, a: Point, b: Point): int {
    d * (a.x * a.y * (b.x * b.y))
  }

  function NumX(a: Point, b: Point): int {
    a.x * b.y + a.y * b.x
  }

  function NumY(a: Point, b: Point): int {
    a.y * b.y + a.x * b.x
  }

  function DenX(d: int, a: Point, b: Point): int {
    1 + Cross(d, a, b)
  }

  function DenY(d: int, a: Point, b: Point): int {
    1 - Cross(d, a, b)
  }

  function Sum(d: int, a: Point, b: Point): Point {
    Point(Canon(NumX(a, b) * Inv(DenX(d, a, b))), Canon(NumY(a, b) * Inv(DenY(d, a, b))))
  }

  function AddAt(depth: nat, d: int, a: Point, b: Point): Point
    decreases depth, d
  {
    if depth == 0 then Sum(d, a, b) else AddAt(depth - 1, d, a, b)
  }

  /** The twisted Edwards addition law. */
  function Add(d: int, a: Point, b: Point): Point {
    AddAt(4, d, a, b)
  }

  lemma AddMeans(d: int, a: Point, b: Point)
    ensures Add(d, a, b) == Sum(d, a, b)
  {
    hide Sum;
    assert AddAt(2, d, a, b) == AddAt(0, d, a, b);
    assert AddAt(4, d, a, b) == AddAt(2, d, a, b);
  }

  function Neg(a: Point): Point {
    Point(Canon(-a.x), a.y)
  }

  // ---------- The curve ----------

  ghost predicate IsEdwardsCurve(d: int) {
    PIsPrime() && Cong(121666 * d, -121665)
  }

  ghost predicate EdwardsCurveAt(depth: nat, d: int)
    decreases depth, d
  {
    if depth == 0 then IsEdwardsCurve(d) else EdwardsCurveAt(depth - 1, d)
  }

  /** d = -121665/121666, modulo a prime p. */
  ghost predicate EdwardsCurve(d: int) {
    EdwardsCurveAt(4, d)
  }

  lemma CurveMeans(d: int)
    ensures EdwardsCurve(d) <==> IsEdwardsCurve(d)
  {
    assert EdwardsCurveAt(2, d) == EdwardsCurveAt(0, d);
    assert EdwardsCurveAt(4, d) == EdwardsCurveAt(2, d);
  }

  lemma CurvePrime(d: int)
    requires EdwardsCurve(d)
    ensures PIsPrime()
  {
    CurveMeans(d);
  }

  lemma NotASquare(d: int, r: int)
    requires EdwardsCurve(d)
    ensures !Cong(r * r, d)
  {
    CurveMeans(d);
    NoRootOfD(d, r);
  }

  // ---------- The denominators never vanish ----------

  lemma SquareOfSum(a: int, b: int)
    ensures (a + b) * (a + b) == a * a + 2 * (a * b) + b * b
  {
  }

  lemma Monomials(i: int, x: int, y: int, s: int)
    ensures i * x * (s * y) == i * s * (x * y) && i * x * (i * x) == i * i * (x * x)
    ensures s * y * (s * y) == s * s * (y * y)
  {
    Exchange(i, x, s, y);
    Exchange(i, x, i, x);
    Exchange(s, y, s, y);
  }

  /** With i^2 = -1, (i x + s y)^2 = y^2 - x^2 + 2 i s x y for either sign s. */
  lemma IsotropicSquare(i: int, x: int, y: int, s: int)
    requires Cong(i * i, -1) && (s == 1 || s == -1)
    ensures Cong((i * x + s * y) * (i * x + s * y), y * y - x * x + 2 * (i * s * (x * y)))
  {
    SquareOfSum(i * x, s * y);
    Monomials(i, x, y, s);
    assert s * s == 1;
    CongRefl(x * x);
    CongMul(i * i, -1, x * x, x * x);
    var rest := 2 * (i * s * (x * y)) + y * y;
    CongRefl(rest);
    CongAdd(i * i * (x * x), -1 * (x * x), rest, rest);
  }

  // How the cross term e = d p q of two points with x y = p and x y = q combines with m = d p^2.

  lemma CrossSquared(d: int, p: int, q: int)
    ensures d * (p * p) * (d * (q * q)) == d * (p * q) * (d * (p * q))
  {
    Exchange(d, p * p, d, q * q);
    Exchange(d, p * q, d, p * q);
    Exchange(p, p, q, q);
  }

  lemma CrossScaled(d: int, p: int, w: int)
    ensures d * (p * w * (p * w)) == d * (p * p) * (w * w)
  {
    Exchange(p, w, p, w);
  }

  lemma CrossMoved(d: int, p: int, q: int, t: int)
    ensures d * (p * p) * (t * q) == t * (d * (p * q) * p)
  {
    assert d * (p * p) * (t * q) == d * (p * p * (t * q));
    Exchange(p, p, t, q);
    assert t * (d * (p * q) * p) == d * (p * t * (p * q));
  }

  /** The square behind completeness: with e = d x1 y1 x2 y2 and e^2 = 1,
      (i x1 + s e y1)^2 = d (x1 y1 (i x2 + s y2))^2. */
  lemma KeySquare(d: int, i: int, a: Point, b: Point, s: int)
    requires SatisfiesEquation(d, a) && SatisfiesEquation(d, b)
    requires Cong(i * i, -1) && (s == 1 || s == -1)
    requires Cong(Cross(d, a, b) * Cross(d, a, b), 1)
    ensures var u := i * a.x + s * (Cross(d, a, b) * a.y);
            var v := a.x * a.y * (i * b.x + s * b.y);
            Cong(u * u, d * (v * v))
  {
    var e, p, q := Cross(d, a, b), a.x * a.y, b.x * b.y;
    var m, w := d * (p * p), i * b.x + s * b.y;
    CrossSquared(d, p, q);
    CrossScaled(d, p, w);
    CrossMoved(d, p, q, i * s);
    KeySquareLeft(d, i, a, s, e);
    KeySquareRight(d, i, b, s, m);
    var left := 1 + m + 2 * (i * s * (e * p));
    var right := m * (1 + d * (q * q) + 2 * (i * s * q));
    assert right == m + e * e + 2 * (i * s * (e * p));
    var rest := m + 2 * (i * s * (e * p));
    CongRefl(rest);
    CongAdd(e * e, 1, rest, rest);
    CongSym(right, left);
    CongSym(m * (w * w), right);
    var u := i * a.x + s * (e * a.y);
    CongTrans(u * u, left, right);
    CongTrans(u * u, right, m * (w * w));
  }

  lemma LeftMonomials(x: int, y: int, e: int)
    ensures x * (e * y) == e * (x * y)
    ensures e * y * (e * y) == e * e * (y * y)
    ensures x * x * (y * y) == x * y * (x * y)
  {
    Exchange(e, y, e, y);
    Exchange(x, y, x, y);
  }

  lemma KeySquareLeft(d: int, i: int, a: Point, s: int, e: int)
    requires SatisfiesEquation(d, a) && Cong(i * i, -1) && (s == 1 || s == -1) && Cong(e * e, 1)
    ensures var u := i * a.x + s * (e * a.y); var p := a.x * a.y;
            Cong(u * u, 1 + d * (p * p) + 2 * (i * s * (e * p)))
  {
    var x, y, p := a.x, a.y, a.x * a.y;
    IsotropicSquare(i, x, e * y, s);
    var u := i * x + s * (e * y);
    var twice := 2 * (i * s * (e * p));
    LeftMonomials(x, y, e);
    CongRefl(y * y);
    CongMul(e * e, 1, y * y, y * y);
    CongRefl(twice - x * x);
    CongAdd(e * e * (y * y), 1 * (y * y), twice - x * x, twice - x * x);
    CongTrans(u * u, e * e * (y * y) + (twice - x * x), y * y + (twice - x * x));
    CongRefl(twice);
    CongAdd(y * y - x * x, 1 + d * (p * p), twice, twice);
    CongTrans(u * u, y * y - x * x + twice, 1 + d * (p * p) + twice);
  }

  lemma KeySquareRight(d: int, i: int, b: Point, s: int, m: int)
    requires SatisfiesEquation(d, b) && Cong(i * i, -1) && (s == 1 || s == -1)
    ensures var w := i * b.x + s * b.y; var q := b.x * b.y;
            Cong(m * (w * w), m * (1 + d * (q * q) + 2 * (i * s * q)))
  {
    var q, w := b.x * b.y, i * b.x + s * b.y;
    IsotropicSquare(i, b.x, b.y, s);
    Exchange(b.x, b.y, b.x, b.y);
    var twice := 2 * (i * s * q);
    CongRefl(twice);
    CongAdd(b.y * b.y - b.x * b.x, 1 + d * (q * q), twice, twice);
    CongTrans(w * w, b.y * b.y - b.x * b.x + twice, 1 + d * (q * q) + twice);
    CongScale(m, w * w, 1 + d * (q * q) + twice);
  }

  /** A ratio of squares equal to d exhibits a root of d. */
  lemma RatioIsRoot(d: int, u: int, v: int)
    requires PIsPrime() && Cong(u * u, d * (v * v)) && !Cong(v, 0)
    ensures Cong(u * Inv(v) * (u * Inv(v)), d)
  {
    var w := Inv(v);
    InverseWorks(v);
    Exchange(u, w, u, w);
    Exchange(v, w, v, w);
    CongRefl(w * w);
    CongMul(u * u, d * (v * v), w * w, w * w);
    assert d * (v * v) * (w * w) == d * (v * w * (v * w));
    CongMul(v * w, 1, v * w, 1);
    CongScale(d, v * w * (v * w), 1);
    CongTrans(u * w * (u * w), d * (v * w * (v * w)), d);
  }

  lemma TwoIsNotZero()
    ensures !Cong(1, 0) && !Cong(2, 0) && !Cong(4, 0)
  {
    if Cong(1, 0) {
      CongSmall(1, 0);
    }
    if Cong(2, 0) {
      CongSmall(2, 0);
    }
    if Cong(4, 0) {
      CongSmall(4, 0);
    }
  }

  /** The cross term of two curve points is never a square root of one. */
  lemma CrossIsNotUnit(d: int, a: Point, b: Point)
    requires EdwardsCurve(d) && OnCurve(d, a) && OnCurve(d, b)
    ensures !Cong(Cross(d, a, b) * Cross(d, a, b), 1)
  {
    if Cong(Cross(d, a, b) * Cross(d, a, b), 1) {
      CurvePrime(d);
      OnCurveMeans(d, a);
      OnCurveMeans(d, b);
      var i := I;
      RootOfMinusOne();
      var p := a.x * a.y;
      var plus, minus := i * b.x + 1 * b.y, i * b.x + -1 * b.y;
      KeySquare(d, i, a, b, 1);
      KeySquare(d, i, a, b, -1);
      UnitFactors(d, a, b);
      if !Cong(plus, 0) {
        NonZeroProduct(p, plus);
        var u := i * a.x + 1 * (Cross(d, a, b) * a.y);
        NotASquare(d, u * Inv(p * plus));
        RatioIsRoot(d, u, p * plus);
      } else if !Cong(minus, 0) {
        NonZeroProduct(p, minus);
        var u := i * a.x + -1 * (Cross(d, a, b) * a.y);
        NotASquare(d, u * Inv(p * minus));
        RatioIsRoot(d, u, p * minus);
      } else {
        CongSub(plus, 0, minus, 0);
        assert plus - minus == 2 * b.y;
        TwoIsNotZero();
        NoZeroDivisors(2, b.y);
      }
    }
  }

  lemma UnitFactors(d: int, a: Point, b: Point)
    requires PIsPrime() && Cong(Cross(d, a, b) * Cross(d, a, b), 1)
    ensures !Cong(a.x * a.y, 0) && !Cong(b.y, 0)
  {
    var e, p, q := Cross(d, a, b), a.x * a.y, b.x * b.y;
    if Cong(p, 0) || Cong(b.y, 0) {
      if Cong(b.y, 0) {
        CongScale(b.x, b.y, 0);
      }
      CongRefl(p);
      CongRefl(q);
      if Cong(p, 0) {
        CongMul(p, 0, q, q);
      } else {
        CongMul(p, p, q, 0);
      }
      CongScale(d, p * q, 0);
      CongMul(e, 0, e, 0);
      CongSym(e * e, 1);
      CongTrans(1, e * e, 0);
      TwoIsNotZero();
    }
  }

  lemma UnitFromZeroDenominator(e: int)
    requires Cong(1 + e, 0) || Cong(1 - e, 0)
    ensures Cong(e * e, 1)
  {
    if Cong(1 + e, 0) {
      CongRefl(1);
      CongSub(1 + e, 0, 1, 1);
      CongMul(e, -1, e, -1);
    } else {
      CongRefl(1);
      CongSub(1, 1, 1 - e, 0);
      CongMul(e, 1, e, 1);
    }
  }

  lemma DenominatorsNonZero(d: int, a: Point, b: Point)
    requires EdwardsCurve(d) && OnCurve(d, a) && OnCurve(d, b)
    ensures !Cong(DenX(d, a, b), 0) && !Cong(DenY(d, a, b), 0)
  {
    CrossIsNotUnit(d, a, b);
    if Cong(DenX(d, a, b), 0) || Cong(DenY(d, a, b), 0) {
      UnitFromZeroDenominator(Cross(d, a, b));
    }
  }

  // ---------- The sum is characterised without division ----------

  lemma Quotient(n: int, d: int, x: int)
    requires PIsPrime() && !Cong(d, 0)
    ensures Cong(Canon(n * Inv(d)) * d, n)
    ensures Cong(x * d, n) && 0 <= x < P ==> x == Canon(n * Inv(d))
  {
    var i := Inv(d);
    var q := Canon(n * i);
    InverseWorks(d);
    CanonIs(n * i);
    CongRefl(d);
    CongMul(q, n * i, d, d);
    CongScale(n, d * i, 1);
    assert n * i * d == n * (d * i);
    CongTrans(q * d, n * i * d, n);
    if Cong(x * d, n) && 0 <= x < P {
      CongSym(q * d, n);
      CongTrans(x * d, n, q * d);
      Cancel(x, q, d);
      CongSmall(x, q);
    }
  }

  lemma SumEquations(d: int, a: Point, b: Point)
    requires EdwardsCurve(d) && OnCurve(d, a) && OnCurve(d, b)
    ensures Cong(Add(d, a, b).x * DenX(d, a, b), NumX(a, b))
    ensures Cong(Add(d, a, b).y * DenY(d, a, b), NumY(a, b))
    ensures 0 <= Add(d, a, b).x < P && 0 <= Add(d, a, b).y < P
  {
    CurvePrime(d);
    AddMeans(d, a, b);
    DenominatorsNonZero(d, a, b);
    Quotient(NumX(a, b), DenX(d, a, b), 0);
    Quotient(NumY(a, b), DenY(d, a, b), 0);
  }

  /** The division-free equations have one solution. */
  lemma SumIs(d: int, a: Point, b: Point, c: Point)
    requires EdwardsCurve(d) && OnCurve(d, a) && OnCurve(d, b)
    requires 0 <= c.x < P && 0 <= c.y < P
    requires Cong(c.x * DenX(d, a, b), NumX(a, b)) && Cong(c.y * DenY(d, a, b), NumY(a, b))
    ensures Add(d, a, b) == c
  {
    CurvePrime(d);
    AddMeans(d, a, b);
    DenominatorsNonZero(d, a, b);
    Quotient(NumX(a, b), DenX(d, a, b), c.x);
    Quotient(NumY(a, b), DenY(d, a, b), c.y);
  }
}
