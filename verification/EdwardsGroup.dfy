/** The curve is a group under the Edwards addition law, and integer multiples behave as they should. */
module EdwardsGroup {
  import opened Arithmetic
  import opened Residues
  import opened PrimeField
  import opened Edwards
  import opened Associativity

  // ---------- The sum of two curve points is on the curve ----------

  lemma NumeratorSquares(a: Point, b: Point)
    ensures var x, y, u, v := a.x * a.x, a.y * a.y, b.x * b.x, b.y * b.y;
            var pq := a.x * a.y * (b.x * b.y);
            && NumX(a, b) * NumX(a, b) == x * v + 2 * pq + y * u
            && NumY(a, b) * NumY(a, b) == y * v + 2 * pq + x * u
  {
    SquareOfSum(a.x * b.y, a.y * b.x);
    Exchange(a.x, b.y, a.x, b.y);
    Exchange(a.y, b.x, a.y, b.x);
    Exchange(a.x, b.y, a.y, b.x);
    SquareOfSum(a.y * b.y, a.x * b.x);
    Exchange(a.y, b.y, a.y, b.y);
    Exchange(a.x, b.x, a.x, b.x);
    Exchange(a.y, b.y, a.x, b.x);
  }

  lemma SumsAndDifferences(x: int, y: int, u: int, v: int)
    ensures y * v + x * u - (x * v + y * u) == (y - x) * (v - u)
    ensures y * v + x * u + (x * v + y * u) == (y + x) * (v + u)
    ensures (y + x) * (y + x) == (y - x) * (y - x) + 4 * (x * y)
  {
  }

  lemma WeightedSquares(n: int, m: int, e: int)
    ensures n * ((1 + e) * (1 + e)) - m * ((1 - e) * (1 - e)) == (n - m) * (1 + e * e) + 2 * (e * (n + m))
  {
  }

  /** d (p S + q R)^2 in terms of the curve quantities. */
  lemma ProductSquare(d: int, p: int, q: int, r: int, s: int)
    ensures d * ((p * s + q * r) * (p * s + q * r))
         == d * (p * p) * (s * s) + d * (q * q) * (r * r) + 2 * (d * (p * q) * (r * s))
  {
    SquareOfSum(p * s, q * r);
    Exchange(p, s, p, s);
    Exchange(q, r, q, r);
    Exchange(p, s, q, r);
    assert s * r == r * s;
    Spread(d, p * p * (s * s), p * q * (r * s), q * q * (r * r));
    assert d * (p * p * (s * s)) == d * (p * p) * (s * s);
    assert d * (q * q * (r * r)) == d * (q * q) * (r * r);
    assert d * (p * q * (r * s)) == d * (p * q) * (r * s);
  }

  lemma Spread(d: int, x: int, y: int, z: int)
    ensures d * (x + 2 * y + z) == d * x + d * z + 2 * (d * y)
  {
  }

  lemma CrossTerms(d: int, p: int, q: int, f: int, g: int)
    ensures d * (p * p) * (g + 4 * (q * q)) == d * (p * p) * g + 4 * (d * (p * q) * (p * q))
    ensures d * (q * q) * (f + 4 * (p * p)) == d * (q * q) * f + 4 * (d * (p * q) * (p * q))
  {
    Exchange(p, p, q, q);
    assert d * (p * p) * (q * q) == d * (p * p * (q * q));
    assert d * (q * q) * (p * p) == d * (p * p * (q * q));
  }

  /** The identity left once both curve equations have been used. */
  lemma LastIdentity(a: int, b: int)
    ensures (1 + a) * (1 + b) * (1 + a * b)
         == (1 - a * b) * (1 - a * b) + a * ((1 + b) * (1 + b)) + b * ((1 + a) * (1 + a))
  {
  }

  lemma ScaledLeft(x: int, y: int, f: int, g: int, n: int, m: int)
    requires Cong(x * f, n) && Cong(y * g, m)
    ensures Cong((y * y - x * x) * (f * g * (f * g)), m * m * (f * f) - n * n * (g * g))
  {
    CongMul(x * f, n, x * f, n);
    CongMul(y * g, m, y * g, m);
    Exchange(x, f, x, f);
    Exchange(y, g, y, g);
    Exchange(f, g, f, g);
    CongScale(f * f, y * y * (g * g), m * m);
    CongScale(g * g, x * x * (f * f), n * n);
    CongSub(f * f * (y * y * (g * g)), f * f * (m * m), g * g * (x * x * (f * f)), g * g * (n * n));
    Rearrange(y * y, x * x, f * f, g * g);
  }

  lemma Rearrange(y: int, x: int, f: int, g: int)
    ensures (y - x) * (f * g) == f * (y * g) - g * (x * f)
  {
  }

  lemma ScaledRight(d: int, x: int, y: int, f: int, g: int, n: int, m: int)
    requires Cong(x * f, n) && Cong(y * g, m)
    ensures Cong((1 + d * (x * x * (y * y))) * (f * g * (f * g)), f * g * (f * g) + d * (n * m * (n * m)))
  {
    CongMul(x * f, n, y * g, m);
    Exchange(x, f, y, g);
    var k := f * g;
    CongMul(x * y * k, n * m, x * y * k, n * m);
    CongScale(d, x * y * k * (x * y * k), n * m * (n * m));
    CongRefl(k * k);
    CongAdd(k * k, k * k, d * (x * y * k * (x * y * k)), d * (n * m * (n * m)));
    Exchange(x * y, k, x * y, k);
    Exchange(x, y, x, y);
    assert d * (x * y * (x * y) * (k * k)) == d * (x * y * (x * y)) * (k * k);
  }

  lemma LeftForm(d: int, a: Point, b: Point)
    ensures var f, g, n, m := DenX(d, a, b), DenY(d, a, b), NumX(a, b), NumY(a, b);
            var p, q, e := a.x * a.y, b.x * b.y, Cross(d, a, b);
            var r, s := a.y * a.y + a.x * a.x, b.y * b.y + b.x * b.x;
            m * m * (f * f) - n * n * (g * g) ==
            (a.y * a.y - a.x * a.x) * (b.y * b.y - b.x * b.x) * (1 + e * e) + (2 * (e * (r * s)) + 8 * (e * (p * q)))
  {
    var n, m, e := NumX(a, b), NumY(a, b), Cross(d, a, b);
    NumeratorSquares(a, b);
    SumsAndDifferences(a.x * a.x, a.y * a.y, b.x * b.x, b.y * b.y);
    WeightedSquares(m * m, n * n, e);
    var r, s := a.y * a.y + a.x * a.x, b.y * b.y + b.x * b.x;
    var pq := a.x * a.y * (b.x * b.y);
    assert m * m + n * n == r * s + 4 * pq;
    assert e * (r * s + 4 * pq) == e * (r * s) + 4 * (e * pq);
  }

  lemma RightForm(d: int, a: Point, b: Point)
    ensures var f, g, n, m := DenX(d, a, b), DenY(d, a, b), NumX(a, b), NumY(a, b);
            var p, q, e := a.x * a.y, b.x * b.y, Cross(d, a, b);
            var r, s := a.y * a.y + a.x * a.x, b.y * b.y + b.x * b.x;
            var v, w := a.y * a.y - a.x * a.x, b.y * b.y - b.x * b.x;
            f * g * (f * g) + d * (n * m * (n * m)) ==
            (1 - e * e) * (1 - e * e) + d * (p * p) * (w * w) + d * (q * q) * (v * v) +
            (2 * (e * (r * s)) + 8 * (e * (p * q)))
  {
    var p, q, e := a.x * a.y, b.x * b.y, Cross(d, a, b);
    var r, s := a.y * a.y + a.x * a.x, b.y * b.y + b.x * b.x;
    var v, w := a.y * a.y - a.x * a.x, b.y * b.y - b.x * b.x;
    NumeratorProduct(a, b);
    ProductSquare(d, p, q, r, s);
    SquareOfTotal(a.x, a.y);
    SquareOfTotal(b.x, b.y);
    CrossTerms(d, p, q, v * v, w * w);
    assert (1 + e) * (1 - e) == 1 - e * e;
  }

  lemma SquareOfTotal(x: int, y: int)
    ensures (y * y + x * x) * (y * y + x * x) == (y * y - x * x) * (y * y - x * x) + 4 * (x * y * (x * y))
  {
    SumsAndDifferences(x * x, y * y, 0, 0);
    Exchange(x, x, y, y);
  }

  /** Both curve equations at once: v stands for 1 + s and w for 1 + t. */
  lemma UseCurve(v: int, w: int, s: int, t: int)
    requires Cong(v, 1 + s) && Cong(w, 1 + t)
    ensures Cong(v * w * (1 + s * t), (1 - s * t) * (1 - s * t) + s * (w * w) + t * (v * v))
  {
    LastIdentity(s, t);
    CongMul(v, 1 + s, w, 1 + t);
    CongRefl(1 + s * t);
    CongMul(v * w, (1 + s) * (1 + t), 1 + s * t, 1 + s * t);
    CongMul(w, 1 + t, w, 1 + t);
    CongScale(s, w * w, (1 + t) * (1 + t));
    CongMul(v, 1 + s, v, 1 + s);
    CongScale(t, v * v, (1 + s) * (1 + s));
    CongAdd(s * (w * w), s * ((1 + t) * (1 + t)), t * (v * v), t * ((1 + s) * (1 + s)));
    var k := (1 - s * t) * (1 - s * t);
    CongRefl(k);
    var rest := s * (w * w) + t * (v * v);
    var full := s * ((1 + t) * (1 + t)) + t * ((1 + s) * (1 + s));
    CongAdd(k, k, rest, full);
    CongSym(k + rest, k + full);
    CongTrans(v * w * (1 + s * t), k + full, k + rest);
  }

  ghost predicate ClearedEquation(d: int, a: Point, b: Point) {
    var f, g, n, m := DenX(d, a, b), DenY(d, a, b), NumX(a, b), NumY(a, b);
    Cong(m * m * (f * f) - n * n * (g * g), f * g * (f * g) + d * (n * m * (n * m)))
  }

  ghost predicate ClearedEquationAt(depth: nat, d: int, a: Point, b: Point)
    decreases depth, d
  {
    if depth == 0 then ClearedEquation(d, a, b) else ClearedEquationAt(depth - 1, d, a, b)
  }

  lemma ClearedMeans(d: int, a: Point, b: Point)
    ensures ClearedEquationAt(4, d, a, b) <==> ClearedEquationAt(0, d, a, b)
  {
    hide ClearedEquation;
    assert ClearedEquationAt(2, d, a, b) == ClearedEquationAt(0, d, a, b);
    assert ClearedEquationAt(4, d, a, b) == ClearedEquationAt(2, d, a, b);
  }

  /** The curve equation for a sum, cleared of denominators. */
  lemma NumeratorIdentity(d: int, a: Point, b: Point)
    requires OnCurve(d, a) && OnCurve(d, b)
    ensures ClearedEquationAt(4, d, a, b)
  {
    ClearedMeans(d, a, b);
    OnCurveMeans(d, a);
    OnCurveMeans(d, b);
    var p, q, e := a.x * a.y, b.x * b.y, Cross(d, a, b);
    LeftForm(d, a, b);
    RightForm(d, a, b);
    CrossSquared(d, p, q);
    Exchange(a.x, a.x, a.y, a.y);
    Exchange(b.x, b.x, b.y, b.y);
    var v, w := a.y * a.y - a.x * a.x, b.y * b.y - b.x * b.x;
    UseCurve(v, w, d * (p * p), d * (q * q));
    var rest := 2 * (e * ((a.y * a.y + a.x * a.x) * (b.y * b.y + b.x * b.x))) + 8 * (e * (p * q));
    CongRefl(rest);
    CongAdd(v * w * (1 + e * e),
            (1 - e * e) * (1 - e * e) + d * (p * p) * (w * w) + d * (q * q) * (v * v), rest, rest);
  }

  lemma SumOnCurve(d: int, a: Point, b: Point)
    requires EdwardsCurve(d) && OnCurve(d, a) && OnCurve(d, b)
    ensures OnCurve(d, Add(d, a, b))
  {
    var c, f, g, n, m := Add(d, a, b), DenX(d, a, b), DenY(d, a, b), NumX(a, b), NumY(a, b);
    CurvePrime(d);
    OnCurveMeans(d, a);
    OnCurveMeans(d, b);
    OnCurveMeans(d, c);
    SumEquations(d, a, b);
    DenominatorsNonZero(d, a, b);
    NonZeroProduct(f, g);
    NonZeroProduct(f * g, f * g);
    ScaledLeft(c.x, c.y, f, g, n, m);
    ScaledRight(d, c.x, c.y, f, g, n, m);
    NumeratorIdentity(d, a, b);
    ClearedMeans(d, a, b);
    var k := f * g * (f * g);
    var left, right := c.y * c.y - c.x * c.x, 1 + d * (c.x * c.x * (c.y * c.y));
    CongSym(right * k, k + d * (n * m * (n * m)));
    CongTrans(left * k, m * m * (f * f) - n * n * (g * g), k + d * (n * m * (n * m)));
    CongTrans(left * k, k + d * (n * m * (n * m)), right * k);
    Cancel(left, right, k);
  }

  // ---------- Identity, inverses, commutativity ----------

  lemma ZeroOnCurve(d: int)
    ensures OnCurve(d, Zero)
  {
    OnCurveMeans(d, Zero);
    CongRefl(1);
  }

  lemma AddCommutes(d: int, a: Point, b: Point)
    ensures Add(d, a, b) == Add(d, b, a)
  {
    AddMeans(d, a, b);
    AddMeans(d, b, a);
    assert Cross(d, a, b) == Cross(d, b, a);
    assert NumX(a, b) == NumX(b, a) && NumY(a, b) == NumY(b, a);
  }

  lemma AddZero(d: int, a: Point)
    requires EdwardsCurve(d) && OnCurve(d, a)
    ensures Add(d, a, Zero) == a && Add(d, Zero, a) == a
  {
    ZeroOnCurve(d);
    OnCurveMeans(d, a);
    assert Cross(d, a, Zero) == 0;
    CongRefl(a.x);
    CongRefl(a.y);
    SumIs(d, a, Zero, a);
    AddCommutes(d, a, Zero);
  }

  lemma NegOnCurve(d: int, a: Point)
    requires OnCurve(d, a)
    ensures OnCurve(d, Neg(a))
  {
    var x, y, n := a.x, a.y, Neg(a).x;
    OnCurveMeans(d, a);
    OnCurveMeans(d, Neg(a));
    CanonIs(-x);
    CongMul(n, -x, n, -x);
    assert -x * -x == x * x;
    CongRefl(y * y);
    CongSub(y * y, y * y, n * n, x * x);
    CongMul(n * n, x * x, y * y, y * y);
    CongScale(d, n * n * (y * y), x * x * (y * y));
    CongRefl(1);
    CongAdd(1, 1, d * (n * n * (y * y)), d * (x * x * (y * y)));
    CongSym(1 + d * (n * n * (y * y)), 1 + d * (x * x * (y * y)));
    CongTrans(y * y - n * n, y * y - x * x, 1 + d * (x * x * (y * y)));
    CongTrans(y * y - n * n, 1 + d * (x * x * (y * y)), 1 + d * (n * n * (y * y)));
  }

  lemma NegNumerator(x: int, y: int, n: int)
    requires Cong(n, -x)
    ensures Cong(0, x * y + y * n)
  {
    CongRefl(x);
    CongAdd(x, x, n, -x);
    CongScale(y, x + n, 0);
    CongSym(y * (x + n), 0);
    assert y * (x + n) == x * y + y * n;
  }

  lemma AddNeg(d: int, a: Point)
    requires EdwardsCurve(d) && OnCurve(d, a)
    ensures Add(d, a, Neg(a)) == Zero
  {
    hide DenX;
    OnCurveMeans(d, a);
    var n := Neg(a).x;
    NegOnCurve(d, a);
    CanonIs(-a.x);
    NegNumerator(a.x, a.y, n);
    NegProduct(a.x, n);
    NegCrossTerms(d, a.x * a.x, a.y * a.y, a.x * n);
    Exchange(a.x, a.y, n, a.y);
    SumIs(d, a, Neg(a), Zero);
  }

  lemma NegCrossTerms(d: int, xx: int, yy: int, xn: int)
    requires Cong(yy - xx, 1 + d * (xx * yy)) && Cong(xn, -xx)
    ensures Cong(1 - d * (xn * yy), yy + xn)
  {
    CongRefl(yy);
    CongAdd(yy, yy, xn, -xx);
    CongTrans(yy + xn, yy - xx, 1 + d * (xx * yy));
    NegUnderCurve(d, xn, xx, yy);
    CongSym(yy + xn, 1 + d * (xx * yy));
    CongTrans(1 - d * (xn * yy), 1 + d * (xx * yy), yy + xn);
  }

  lemma NegProduct(x: int, n: int)
    requires Cong(n, -x)
    ensures Cong(x * n, -(x * x))
  {
    CongScale(x, n, -x);
    assert x * -x == -(x * x);
  }

  lemma NegUnderCurve(d: int, xn: int, xx: int, yy: int)
    requires Cong(xn, -xx)
    ensures Cong(1 - d * (xn * yy), 1 + d * (xx * yy))
  {
    CongRefl(yy);
    CongMul(xn, -xx, yy, yy);
    CongScale(d, xn * yy, -xx * yy);
    CongRefl(1);
    CongSub(1, 1, d * (xn * yy), d * (-xx * yy));
    assert d * (-xx * yy) == -(d * (xx * yy));
  }

  lemma AddAssociates(d: int, a: Point, b: Point, c: Point)
    requires EdwardsCurve(d) && OnCurve(d, a) && OnCurve(d, b) && OnCurve(d, c)
    ensures Add(d, Add(d, a, b), c) == Add(d, a, Add(d, b, c))
  {
    SumOnCurve(d, a, b);
    SumOnCurve(d, b, c);
    SumOnCurve(d, c, b);
    OuterExchange(d, a, b, c);
    AddCommutes(d, c, b);
    AddCommutes(d, Add(d, b, c), a);
  }

  /** Adding then subtracting gives back the first operand. */
  lemma AddThenSubtract(d: int, a: Point, b: Point)
    requires EdwardsCurve(d) && OnCurve(d, a) && OnCurve(d, b)
    ensures Add(d, Add(d, a, b), Neg(b)) == a
  {
    NegOnCurve(d, b);
    AddAssociates(d, a, b, Neg(b));
    AddNeg(d, b);
    AddZero(d, a);
  }

  // ---------- Integer multiples ----------

  function Times(d: int, k: nat, a: Point): Point
    decreases k, d, a
  {
    if k == 0 then Zero else Add(d, Times(d, k - 1, a), a)
  }

  function SignedTimes(d: int, k: int, a: Point): Point {
    if k >= 0 then Times(d, k, a) else Neg(Times(d, -k, a))
  }

  function MulAt(depth: nat, d: int, k: int, a: Point): Point
    decreases depth, d, k, a
  {
    if depth == 0 then SignedTimes(d, k, a) else MulAt(depth - 1, d, k, a)
  }

  /** k times a, for any integer k; folded up like the addition itself. */
  function Mul(d: int, k: int, a: Point): Point {
    MulAt(4, d, k, a)
  }

  lemma MulMeans(d: int, k: int, a: Point)
    ensures Mul(d, k, a) == SignedTimes(d, k, a)
  {
    hide SignedTimes;
    assert MulAt(2, d, k, a) == MulAt(0, d, k, a);
    assert MulAt(4, d, k, a) == MulAt(2, d, k, a);
  }

  lemma {:induction false} TimesOnCurve(d: int, k: nat, a: Point)
    requires EdwardsCurve(d) && OnCurve(d, a)
    ensures OnCurve(d, Times(d, k, a))
  {
    if k == 0 {
      ZeroOnCurve(d);
    } else {
      TimesOnCurve(d, k - 1, a);
      SumOnCurve(d, Times(d, k - 1, a), a);
    }
  }

  lemma MulOnCurve(d: int, k: int, a: Point)
    requires EdwardsCurve(d) && OnCurve(d, a)
    ensures OnCurve(d, Mul(d, k, a))
  {
    MulMeans(d, k, a);
    if k >= 0 {
      TimesOnCurve(d, k, a);
    } else {
      TimesOnCurve(d, -k, a);
      NegOnCurve(d, Times(d, -k, a));
    }
  }

  lemma MulSplit(d: int, n: int, a: Point)
    requires n >= 0
    ensures Mul(d, n + 1, a) == Add(d, Mul(d, n, a), a)
    ensures Mul(d, -n, a) == Neg(Mul(d, n, a))
  {
    MulMeans(d, n, a);
    MulMeans(d, n + 1, a);
    MulMeans(d, -n, a);
    if n == 0 {
      NegZero();
    }
  }

  /** One more step in either direction. */
  lemma MulStep(d: int, k: int, a: Point)
    requires EdwardsCurve(d) && OnCurve(d, a)
    ensures Mul(d, k + 1, a) == Add(d, Mul(d, k, a), a)
  {
    if k < 0 {
      var t := Mul(d, -k - 1, a);
      MulSplit(d, -k - 1, a);
      MulSplit(d, -k, a);
      MulOnCurve(d, -k - 1, a);
      NegOfSum(d, t, a);
      NegOnCurve(d, t);
      NegOnCurve(d, a);
      AddCommutes(d, Neg(a), a);
      AddAssociates(d, Neg(t), Neg(a), a);
      AddNeg(d, a);
      AddZero(d, Neg(t));
    } else {
      MulSplit(d, k, a);
    }
  }

  lemma NegZero()
    ensures Neg(Zero) == Zero
  {
    CanonIs(0);
  }

  /** Inverses are unique. */
  lemma NegUnique(d: int, a: Point, b: Point)
    requires EdwardsCurve(d) && OnCurve(d, a) && OnCurve(d, b) && Add(d, a, b) == Zero
    ensures b == Neg(a)
  {
    NegOnCurve(d, a);
    AddCommutes(d, a, b);
    AddThenSubtract(d, b, a);
    AddZero(d, Neg(a));
  }

  lemma NegOfSum(d: int, a: Point, b: Point)
    requires EdwardsCurve(d) && OnCurve(d, a) && OnCurve(d, b)
    ensures Neg(Add(d, a, b)) == Add(d, Neg(a), Neg(b))
  {
    NegOnCurve(d, a);
    NegOnCurve(d, b);
    SumOnCurve(d, a, b);
    SumOnCurve(d, Neg(a), Neg(b));
    var s := Add(d, a, b);
    AddCommutes(d, Neg(a), Neg(b));
    AddAssociates(d, s, Neg(b), Neg(a));
    AddThenSubtract(d, a, b);
    AddNeg(d, a);
    NegUnique(d, s, Add(d, Neg(a), Neg(b)));
  }

  lemma MulZero(d: int, a: Point)
    ensures Mul(d, 0, a) == Zero
  {
    MulMeans(d, 0, a);
  }

  lemma {:induction false} MulAddNat(d: int, m: int, n: nat, a: Point)
    requires EdwardsCurve(d) && OnCurve(d, a)
    ensures Mul(d, m + n, a) == Add(d, Mul(d, m, a), Mul(d, n, a))
  {
    MulOnCurve(d, m, a);
    if n == 0 {
      MulZero(d, a);
      AddZero(d, Mul(d, m, a));
    } else {
      MulAddNat(d, m, n - 1, a);
      MulStep(d, m + n - 1, a);
      MulOnCurve(d, n - 1, a);
      AddAssociates(d, Mul(d, m, a), Mul(d, n - 1, a), a);
      MulStep(d, n - 1, a);
    }
  }

  /** Multiples add up. */
  lemma MulAdd(d: int, m: int, n: int, a: Point)
    requires EdwardsCurve(d) && OnCurve(d, a)
    ensures Mul(d, m + n, a) == Add(d, Mul(d, m, a), Mul(d, n, a))
  {
    if n >= 0 {
      MulAddNat(d, m, n, a);
    } else {
      MulSplit(d, -n, a);
      MulAddNat(d, m + n, -n, a);
      MulOnCurve(d, m + n, a);
      MulOnCurve(d, -n, a);
      AddThenSubtract(d, Mul(d, m + n, a), Mul(d, -n, a));
    }
  }

  lemma MulOne(d: int, a: Point)
    requires EdwardsCurve(d) && OnCurve(d, a)
    ensures Mul(d, 1, a) == a
  {
    MulMeans(d, 1, a);
    AddZero(d, a);
    assert Times(d, 1, a) == Add(d, Times(d, 0, a), a);
  }

  lemma MulNeg(d: int, k: int, a: Point)
    requires EdwardsCurve(d) && OnCurve(d, a)
    ensures Mul(d, -k, a) == Neg(Mul(d, k, a))
  {
    MulAdd(d, k, -k, a);
    MulZero(d, a);
    MulOnCurve(d, k, a);
    MulOnCurve(d, -k, a);
    NegUnique(d, Mul(d, k, a), Mul(d, -k, a));
  }

  /** A multiple of a multiple. */
  lemma {:induction false} MulMulNat(d: int, m: nat, n: int, a: Point)
    requires EdwardsCurve(d) && OnCurve(d, a)
    ensures Mul(d, m * n, a) == Mul(d, m, Mul(d, n, a))
  {
    MulOnCurve(d, n, a);
    if m > 0 {
      MulMulNat(d, m - 1, n, a);
      assert m * n == (m - 1) * n + n;
      MulAdd(d, (m - 1) * n, n, a);
      MulStep(d, m - 1, Mul(d, n, a));
    } else {
      assert m * n == 0;
      MulZero(d, a);
      MulZero(d, Mul(d, n, a));
    }
  }
}
