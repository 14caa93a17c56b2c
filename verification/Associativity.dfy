/** The Edwards addition law is associative.  Cleared of denominators, both ways of adding three
    points are sums of four monomials with coefficients in the squares of the coordinates, and one
    congruence between coefficients, seen from eight sides, makes them agree. */
module Associativity {
  import opened Arithmetic
  import opened Residues
  import opened PrimeField
  import opened Edwards

  // ---------- The one congruence ----------

  /** The curve equation between the squares x of an x coordinate and y of a y coordinate.  It also
      holds of -y and -x. */
  ghost predicate Related(d: int, x: int, y: int) {
    Cong(y - x - 1, d * (x * y))
  }

  lemma RelatedTurned(d: int, x: int, y: int)
    requires Related(d, x, y)
    ensures Related(d, -y, -x)
  {
    assert -x - -y - 1 == y - x - 1;
    assert d * (-y * -x) == d * (x * y);
  }

  /** The coefficient of one monomial, for the squares of three points. */
  function Coefficient(d: int, x1: int, y1: int, x2: int, y2: int, x3: int, y3: int): int {
    (1 - d * (x2 * y1)) * (1 - d * (x3 * y3) * (d * (x2 * y2)))
    + (1 + d * (x1 * x2)) * (d * (x2 + y2) * (y1 * x3))
    + (1 - d * (x1 * y2)) * (d * (x3 + y3) * (y1 * x2))
  }

  // A product of seven factors, regrouped step by step.

  lemma Regrouped(x1: int, y1: int, x2: int, y2: int, k: int)
    ensures x1 * x2 * (y1 * k) == x2 * (x1 * y1 * k)
    ensures x1 * x2 * (y2 * (y1 * k)) == x1 * y1 * (x2 * y2) * k
    ensures x1 * y2 * (x2 * (k * y1)) == x1 * y1 * (x2 * y2) * k
  {
    Exchange(x1, x2, y1, k);
    Pulled(x2, x1 * y1, k);
    Exchange(y2, y1, k, 1);
    Exchange(x1, x2, y1, y2 * k);
    Pulled(x2, y2, k);
    Exchange(x1, y2, x2, k * y1);
    Exchange(x1, x2, y1, y2 * k);
    assert y2 * (y1 * k) == y1 * (y2 * k) && y2 * (k * y1) == y1 * (y2 * k);
    assert x1 * y1 * (x2 * (y2 * k)) == x1 * y1 * (x2 * y2) * k;
  }

  lemma Pulled(x: int, q: int, k: int)
    ensures q * (x * k) == x * (q * k) && x * (q * k) == x * q * k
  {
  }

  lemma SquareTerm(d: int, x1: int, y1: int, x2: int, k: int)
    ensures d * (x1 * x2) * (d * x2 * (y1 * k)) == d * x2 * (x2 * (d * (x1 * y1) * k))
  {
    Regrouped(x1, y1, x2, 0, k);
    var w, q := d * x2, x1 * y1 * k;
    Exchange(d, x1 * x2, w, y1 * k);
    Pulled(w, d, x2 * q);
    Pulled(d, x2, q);
    assert d * (x1 * y1) * k == d * q;
  }

  lemma CrossTerm(d: int, x1: int, y1: int, x2: int, y2: int, k: int)
    ensures d * (x1 * x2) * (d * (y2 * (y1 * k))) == d * (x1 * y1) * (d * (x2 * y2)) * k
    ensures d * (x1 * y2) * (d * x2 * (k * y1)) == d * (x1 * y1) * (d * (x2 * y2)) * k
  {
    Regrouped(x1, y1, x2, y2, k);
    var q := x1 * y1 * (x2 * y2);
    Exchange(d, x1 * x2, d, y2 * (y1 * k));
    Exchange(d, x1 * y1, d, x2 * y2);
    assert d * x2 * (k * y1) == d * (x2 * (k * y1));
    Exchange(d, x1 * y2, d, x2 * (k * y1));
    Pulled(d * d, q, k);
  }

  lemma SecondTerm(d: int, x1: int, y1: int, x2: int, y2: int, x3: int)
    ensures (1 + d * (x1 * x2)) * (d * (x2 + y2) * (y1 * x3)) ==
              d * x2 * (y1 * x3) + d * (y2 * (y1 * x3)) + d * x2 * (x2 * (d * (x1 * y1) * x3))
              + d * (x1 * y1) * (d * (x2 * y2)) * x3
  {
    var q := y1 * x3;
    assert d * (x2 + y2) * q == d * x2 * q + d * (y2 * q);
    SquareTerm(d, x1, y1, x2, x3);
    CrossTerm(d, x1, y1, x2, y2, x3);
    Distribute(d * (x1 * x2), d * x2 * q, d * (y2 * q));
  }

  lemma ThirdTerm(d: int, x1: int, y1: int, x2: int, y2: int, k: int)
    ensures (1 - d * (x1 * y2)) * (d * k * (y1 * x2)) == d * x2 * (k * y1) - d * (x1 * y1) * (d * (x2 * y2)) * k
  {
    Exchange(d, k, x2, y1);
    CrossTerm(d, x1, y1, x2, y2, k);
    Distribute(d * (x1 * y2), d * k * (y1 * x2), 0);
  }

  lemma Distribute(e: int, s: int, t: int)
    ensures (1 + e) * (s + t) == s + t + e * s + e * t
    ensures (1 - e) * s == s - e * s
  {
  }

  function Terms(w: int, p1: int, p2: int, p3: int, y1: int, x2: int, x3: int, k: int): int {
    (1 - w * y1) * (1 - p3 * p2) + (w * (x2 * (p1 * x3)) + p1 * p2 * x3) + (w * (k * y1) - p1 * p2 * k)
  }

  /** The coefficient in terms of w = d x2 and p = d x y of each point. */
  lemma CoefficientIs(d: int, x1: int, y1: int, x2: int, y2: int, x3: int, y3: int)
    ensures Coefficient(d, x1, y1, x2, y2, x3, y3) ==
              Terms(d * x2, d * (x1 * y1), d * (x2 * y2), d * (x3 * y3), y1, x2, x3, x3 + y3)
              + d * x2 * (y1 * x3) + d * (y2 * (y1 * x3))
  {
    SecondTerm(d, x1, y1, x2, y2, x3);
    ThirdTerm(d, x1, y1, x2, y2, x3 + y3);
    assert d * (x2 * y1) == d * x2 * y1;
  }

  /** Over u = w x3, v = w y1, m = p2 p3 and n = p1 p2. */
  lemma TermsAre(w: int, p1: int, p2: int, p3: int, y1: int, x2: int, x3: int, k: int)
    ensures var u, v, m, n := w * x3, w * y1, p2 * p3, p1 * p2;
            Terms(w, p1, p2, p3, y1, x2, x3, k) == 1 - v - m + v * m + x2 * p1 * u + n * x3 + k * v - n * k
  {
    assert w * (x2 * (p1 * x3)) == x2 * p1 * (w * x3);
    assert w * (k * y1) == k * (w * y1);
    assert (1 - w * y1) * (1 - p3 * p2) == 1 - w * y1 - p2 * p3 + w * y1 * (p2 * p3);
  }

  lemma Difference(u: int, v: int, m: int, n: int, x1: int, y1: int, x2: int, x3: int, y3: int, p1: int, p3: int)
    requires y1 * u == x3 * v && p1 * m == p3 * n
    ensures (1 - v - m + v * m + x2 * p1 * u + n * x3 + (x3 + y3) * v - n * (x3 + y3))
            - (1 + u - n - u * n - x2 * p3 * v - m * y1 + (y1 + x1) * u + m * (y1 + x1))
         == (y1 - x1 - 1 - p1) * (m + u) + (y3 - x3 - 1 - p3) * (v - n)
            - (y1 * m + n * x3) + (x2 + 1) * (p3 * v + p1 * u) + m * v + n * u
  {
    assert (x2 + 1) * (p3 * v + p1 * u) == x2 * p3 * v + x2 * p1 * u + p3 * v + p1 * u;
  }

  lemma TurnedTerms(w: int, p1: int, p2: int, p3: int, x1: int, y1: int, x2: int, x3: int)
    ensures var u, v, m, n := w * x3, w * y1, p2 * p3, p1 * p2;
            Terms(w, p3, p2, p1, -x3, x2, -y1, -y1 - x1) ==
            1 + u - n - u * n - x2 * p3 * v - m * y1 + (y1 + x1) * u + m * (y1 + x1)
  {
    TermsAre(w, p3, p2, p1, -x3, x2, -y1, -y1 - x1);
    hide Terms;
    var u, v, m, n := w * x3, w * y1, p2 * p3, p1 * p2;
    assert w * -x3 == -u && w * -y1 == -v && p2 * p1 == n && p3 * p2 == m;
    Turned(u, v, m, n, x1, y1, x2 * p3);
  }

  lemma Turned(u: int, v: int, m: int, n: int, x1: int, y1: int, k: int)
    ensures 1 - -u - n + -u * n + k * -v + m * -y1 + (-y1 - x1) * -u - m * (-y1 - x1)
         == 1 + u - n - u * n - k * v - m * y1 + (y1 + x1) * u + m * (y1 + x1)
  {
  }

  /** Both coefficients of a monomial, up to the terms that are the same. */
  lemma TermsDiffer(w: int, p1: int, p2: int, p3: int, x1: int, y1: int, x2: int, y2: int, x3: int, y3: int)
    requires w * y2 == p2
    ensures Terms(w, p1, p2, p3, y1, x2, x3, x3 + y3) - Terms(w, p3, p2, p1, -x3, x2, -y1, -y1 - x1)
         == (y1 - x1 - 1 - p1) * (p2 * p3 + w * x3) + (y3 - x3 - 1 - p3) * (w * y1 - p1 * p2)
            - (y2 - x2 - 1 - p2) * (w * (y1 * p3 + p1 * x3))
  {
    TermsAre(w, p1, p2, p3, y1, x2, x3, x3 + y3);
    TurnedTerms(w, p1, p2, p3, x1, y1, x2, x3);
    hide Terms;
    Reordered(w, y1, x3);
    Reordered(p2, p1, p3);
    SecondFactor(w, p1, p2, p3, x2, y1, y2, x3);
    Difference(w * x3, w * y1, p2 * p3, p1 * p2, x1, y1, x2, x3, y3, p1, p3);
  }

  lemma Reordered(w: int, y: int, x: int)
    ensures y * (w * x) == x * (w * y) && w * y == y * w
  {
  }

  lemma SecondFactor(w: int, p1: int, p2: int, p3: int, x2: int, y1: int, y2: int, x3: int)
    requires w * y2 == p2
    ensures (y2 - x2 - 1 - p2) * (w * (y1 * p3 + p1 * x3)) ==
              y1 * (p2 * p3) + p1 * p2 * x3 - (x2 + 1) * (p3 * (w * y1) + p1 * (w * x3)) - p2 * p3 * (w * y1)
              - p1 * p2 * (w * x3)
  {
    var t := y1 * p3 + p1 * x3;
    assert w * t == p3 * (w * y1) + p1 * (w * x3);
    assert y2 * (w * t) == p2 * t;
    assert p2 * t == y1 * (p2 * p3) + p1 * p2 * x3;
    assert p2 * (w * t) == p2 * p3 * (w * y1) + p1 * p2 * (w * x3);
    assert (y2 - (x2 + 1) - p2) * (w * t) == y2 * (w * t) - (x2 + 1) * (w * t) - p2 * (w * t);
  }

  lemma TurnedCoefficient(d: int, x1: int, y1: int, x2: int, y2: int, x3: int, y3: int)
    ensures Coefficient(d, -y3, -x3, x2, y2, -y1, -x1) ==
              Terms(d * x2, d * (x3 * y3), d * (x2 * y2), d * (x1 * y1), -x3, x2, -y1, -y1 - x1)
              + d * x2 * (y1 * x3) + d * (y2 * (y1 * x3))
  {
    CoefficientIs(d, -y3, -x3, x2, y2, -y1, -x1);
    hide Coefficient, Terms;
    assert -y3 * -x3 == x3 * y3 && -y1 * -x1 == x1 * y1 && -x3 * -y1 == y1 * x3;
    assert -y1 + -x1 == -y1 - x1;
  }

  lemma ZeroFactor(r: int, p: int, q: int)
    requires Cong(r, p)
    ensures Cong((r - p) * q, 0)
  {
    CongRefl(p);
    CongSub(r, p, p, p);
    CongRefl(q);
    CongMul(r - p, 0, q, q);
  }

  lemma VanishingDifference(s: int, t: int, e1: int, e2: int, e3: int)
    requires s - t == e1 + e3 - e2 && Cong(e1, 0) && Cong(e2, 0) && Cong(e3, 0)
    ensures Cong(s, t)
  {
    CongAdd(e1, 0, e3, 0);
    CongSub(e1 + e3, 0, e2, 0);
    CongRefl(t);
    CongAdd(s - t, 0, t, t);
  }

  lemma CoefficientsDiffer(d: int, x1: int, y1: int, x2: int, y2: int, x3: int, y3: int)
    ensures var w, p1, p2, p3 := d * x2, d * (x1 * y1), d * (x2 * y2), d * (x3 * y3);
            Coefficient(d, x1, y1, x2, y2, x3, y3) - Coefficient(d, -y3, -x3, x2, y2, -y1, -x1) ==
            (y1 - x1 - 1 - p1) * (p2 * p3 + w * x3) + (y3 - x3 - 1 - p3) * (w * y1 - p1 * p2)
            - (y2 - x2 - 1 - p2) * (w * (y1 * p3 + p1 * x3))
  {
    CoefficientIs(d, x1, y1, x2, y2, x3, y3);
    TurnedCoefficient(d, x1, y1, x2, y2, x3, y3);
    assert d * x2 * y2 == d * (x2 * y2);
    TermsDiffer(d * x2, d * (x1 * y1), d * (x2 * y2), d * (x3 * y3), x1, y1, x2, y2, x3, y3);
    hide Coefficient, Terms;
  }

  /** A coefficient of one way of adding is the coefficient of the same monomial in the other. */
  lemma CoefficientsAgree(d: int, x1: int, y1: int, x2: int, y2: int, x3: int, y3: int)
    requires Related(d, x1, y1) && Related(d, x2, y2) && Related(d, x3, y3)
    ensures Cong(Coefficient(d, x1, y1, x2, y2, x3, y3), Coefficient(d, -y3, -x3, x2, y2, -y1, -x1))
  {
    var w, p1, p2, p3 := d * x2, d * (x1 * y1), d * (x2 * y2), d * (x3 * y3);
    CoefficientsDiffer(d, x1, y1, x2, y2, x3, y3);
    hide Coefficient;
    var q1, q2, q3 := p2 * p3 + w * x3, w * (y1 * p3 + p1 * x3), w * y1 - p1 * p2;
    ZeroFactor(y1 - x1 - 1, p1, q1);
    ZeroFactor(y2 - x2 - 1, p2, q2);
    ZeroFactor(y3 - x3 - 1, p3, q3);
    VanishingDifference(Coefficient(d, x1, y1, x2, y2, x3, y3), Coefficient(d, -y3, -x3, x2, y2, -y1, -x1),
                        (y1 - x1 - 1 - p1) * q1, (y2 - x2 - 1 - p2) * q2, (y3 - x3 - 1 - p3) * q3);
  }

  // ---------- Three points, cleared of denominators ----------

  /** The x coordinate of (a + b) + c is NumeratorX / DenominatorX. */
  function NumeratorX(d: int, a: Point, b: Point, c: Point): int {
    NumX(a, b) * c.y * DenY(d, a, b) + NumY(a, b) * c.x * DenX(d, a, b)
  }

  function DenominatorX(d: int, a: Point, b: Point, c: Point): int {
    DenX(d, a, b) * DenY(d, a, b) + d * (NumX(a, b) * NumY(a, b) * (c.x * c.y))
  }

  /** Its y coordinate is NumeratorY / DenominatorY. */
  function NumeratorY(d: int, a: Point, b: Point, c: Point): int {
    NumY(a, b) * c.y * DenX(d, a, b) + NumX(a, b) * c.x * DenY(d, a, b)
  }

  function DenominatorY(d: int, a: Point, b: Point, c: Point): int {
    DenX(d, a, b) * DenY(d, a, b) - d * (NumX(a, b) * NumY(a, b) * (c.x * c.y))
  }

  /** One coordinate of each of three points. */
  function Mono(r: int, s: int, t: int): int {
    r * s * t
  }

  /** e = d x1 y1 x2 y2 exchanges the coordinates of the first two points, up to squares. */
  lemma CrossTimes(d: int, x1: int, y1: int, x2: int, y2: int, z: int)
    ensures d * (x1 * y1 * (x2 * y2)) * Mono(x1, y2, z) == d * (x1 * x1 * (y2 * y2)) * Mono(y1, x2, z)
  {
    Exchange(x1, y1, x2, y2);
    Exchange(x1, y2, x1, y2);
    assert x1 * y1 * (x2 * y2) * (x1 * y2) == x1 * y2 * (x1 * y2) * (y1 * x2);
    Scaled(d, x1 * y1 * (x2 * y2), x1 * y2, x1 * x1 * (y2 * y2), y1 * x2, z);
  }

  lemma Scaled(d: int, e: int, m: int, q: int, n: int, z: int)
    requires e * m == q * n
    ensures d * e * (m * z) == d * q * (n * z)
  {
    assert d * e * (m * z) == d * (e * m) * z;
    assert d * q * (n * z) == d * (q * n) * z;
  }

  lemma CrossTimesAll(d: int, a: Point, b: Point, z: int)
    ensures var e, x1, y1, x2, y2 := Cross(d, a, b), a.x * a.x, a.y * a.y, b.x * b.x, b.y * b.y;
            && e * Mono(a.x, b.y, z) == d * (x1 * y2) * Mono(a.y, b.x, z)
            && e * Mono(a.y, b.x, z) == d * (x2 * y1) * Mono(a.x, b.y, z)
            && e * Mono(a.y, b.y, z) == d * (y1 * y2) * Mono(a.x, b.x, z)
            && e * Mono(a.x, b.x, z) == d * (x1 * x2) * Mono(a.y, b.y, z)
  {
    CrossTimes(d, a.x, a.y, b.x, b.y, z);
    CrossTimes(d, a.y, a.x, b.y, b.x, z);
    CrossTimes(d, a.y, a.x, b.x, b.y, z);
    CrossTimes(d, a.x, a.y, b.y, b.x, z);
    Flipped(a.x, a.y, b.x, b.y);
    hide Mono;
    assert b.x * b.x * (a.y * a.y) == a.y * a.y * (b.x * b.x);
  }

  lemma Flipped(x: int, y: int, u: int, v: int)
    ensures x * y * (u * v) == y * x * (v * u) == y * x * (u * v) == x * y * (v * u)
  {
  }

  lemma Grouped(e: int, s: int, t: int, u: int, v: int, i: int, j: int, k: int, l: int)
    requires e * t == i * s && e * s == j * t && e * v == k * u && e * u == l * v
    ensures (s + t) * (1 - e) + (u + v) * (1 + e) == (1 - i) * s + (1 - j) * t + (1 + k) * u + (1 + l) * v
  {
    assert (s + t) * (1 - e) == s - e * s + (t - e * t);
    assert (u + v) * (1 + e) == u + e * u + (v + e * v);
  }

  lemma NumeratorXIs(d: int, a: Point, b: Point, c: Point)
    ensures var x1, y1, x2, y2 := a.x * a.x, a.y * a.y, b.x * b.x, b.y * b.y;
            NumeratorX(d, a, b, c) ==
              (1 - d * (x2 * y1)) * Mono(a.x, b.y, c.y) + (1 - d * (x1 * y2)) * Mono(a.y, b.x, c.y)
              + (1 + d * (x1 * x2)) * Mono(a.y, b.y, c.x) + (1 + d * (y1 * y2)) * Mono(a.x, b.x, c.x)
  {
    var x1, y1, x2, y2, e := a.x * a.x, a.y * a.y, b.x * b.x, b.y * b.y, Cross(d, a, b);
    CrossTimesAll(d, a, b, c.y);
    CrossTimesAll(d, a, b, c.x);
    FirstTwo(a, b, c.y);
    FirstTwo(a, b, c.x);
    hide Mono, NumX, NumY, Cross;
    Grouped(e, Mono(a.x, b.y, c.y), Mono(a.y, b.x, c.y), Mono(a.y, b.y, c.x), Mono(a.x, b.x, c.x),
            d * (x2 * y1), d * (x1 * y2), d * (x1 * x2), d * (y1 * y2));
  }

  lemma FirstTwo(a: Point, b: Point, z: int)
    ensures NumX(a, b) * z == Mono(a.x, b.y, z) + Mono(a.y, b.x, z)
    ensures NumY(a, b) * z == Mono(a.y, b.y, z) + Mono(a.x, b.x, z)
  {
  }

  lemma NumeratorYIs(d: int, a: Point, b: Point, c: Point)
    ensures var x1, y1, x2, y2 := a.x * a.x, a.y * a.y, b.x * b.x, b.y * b.y;
            NumeratorY(d, a, b, c) ==
              (1 + d * (x1 * x2)) * Mono(a.y, b.y, c.y) + (1 + d * (y1 * y2)) * Mono(a.x, b.x, c.y)
              + (1 - d * (x2 * y1)) * Mono(a.x, b.y, c.x) + (1 - d * (x1 * y2)) * Mono(a.y, b.x, c.x)
  {
    var x1, y1, x2, y2, e := a.x * a.x, a.y * a.y, b.x * b.x, b.y * b.y, Cross(d, a, b);
    CrossTimesAll(d, a, b, c.y);
    CrossTimesAll(d, a, b, c.x);
    FirstTwo(a, b, c.y);
    FirstTwo(a, b, c.x);
    hide Mono, NumX, NumY, Cross;
    Grouped(e, Mono(a.x, b.y, c.x), Mono(a.y, b.x, c.x), Mono(a.y, b.y, c.y), Mono(a.x, b.x, c.y),
            d * (x2 * y1), d * (x1 * y2), d * (x1 * x2), d * (y1 * y2));
  }

  lemma NumeratorProduct(a: Point, b: Point)
    ensures NumX(a, b) * NumY(a, b)
         == a.x * a.y * (b.y * b.y + b.x * b.x) + b.x * b.y * (a.y * a.y + a.x * a.x)
  {
    var s, t, u, v := a.x * b.y, a.y * b.x, a.y * b.y, a.x * b.x;
    assert (s + t) * (u + v) == s * u + s * v + t * u + t * v;
    Exchange(a.x, b.y, a.y, b.y);
    Exchange(a.x, b.y, a.x, b.x);
    Exchange(a.y, b.x, a.y, b.y);
    Exchange(a.y, b.x, a.x, b.x);
  }

  /** The denominators of (c + b) + a. */
  lemma DenominatorsAre(d: int, a: Point, b: Point, c: Point)
    ensures var x2, y2, x3, y3 := b.x * b.x, b.y * b.y, c.x * c.x, c.y * c.y;
            var base := 1 - d * (x3 * y3) * (d * (x2 * y2));
            var f, h := Cross(d * (x2 + y2), a, c), Cross(d * (x3 + y3), a, b);
            DenominatorX(d, c, b, a) == base + f + h && DenominatorY(d, c, b, a) == base - f - h
  {
    var x2, y2, x3, y3 := b.x * b.x, b.y * b.y, c.x * c.x, c.y * c.y;
    NumeratorProduct(c, b);
    var p, q, r := a.x * a.y, b.x * b.y, c.x * c.y;
    CrossIsSquare(d, b, c);
    Spread(d, p, q, r, y2 + x2, y3 + x3);
    hide NumX, NumY;
  }

  lemma CrossIsSquare(d: int, b: Point, c: Point)
    ensures DenX(d, c, b) * DenY(d, c, b) == 1 - d * (c.x * c.x * (c.y * c.y)) * (d * (b.x * b.x * (b.y * b.y)))
  {
    var e, q, r := Cross(d, c, b), b.x * b.y, c.x * c.y;
    assert (1 + e) * (1 - e) == 1 - e * e;
    Exchange(d, r * q, d, r * q);
    Exchange(r, q, r, q);
    Exchange(c.x, c.y, c.x, c.y);
    Exchange(b.x, b.y, b.x, b.y);
    Exchange(d, r * r, d, q * q);
  }

  lemma Spread(d: int, p: int, q: int, r: int, s: int, t: int)
    ensures d * ((r * s + q * t) * p) == d * s * (p * r) + d * t * (p * q)
  {
    assert (r * s + q * t) * p == s * (p * r) + t * (p * q);
  }

  /** A sum of four monomials times a sum of three factors that permute the monomials. */
  lemma Products(k1: int, k2: int, k3: int, k4: int, m1: int, m2: int, m3: int, m4: int, base: int, f: int, h: int,
                 a1: int, a2: int, a3: int, a4: int, b1: int, b2: int, b3: int, b4: int)
    requires f * m1 == a1 * m3 && f * m3 == a3 * m1 && f * m2 == a2 * m4 && f * m4 == a4 * m2
    requires h * m1 == b1 * m2 && h * m2 == b2 * m1 && h * m3 == b3 * m4 && h * m4 == b4 * m3
    ensures (k1 * m1 + k2 * m2 + k3 * m3 + k4 * m4) * (base + f + h)
         == (k1 * base + k3 * a3 + k2 * b2) * m1 + (k2 * base + k4 * a4 + k1 * b1) * m2
            + (k3 * base + k1 * a1 + k4 * b4) * m3 + (k4 * base + k2 * a2 + k3 * b3) * m4
  {
    Product(k1, m1, base, f, h, a1, m3, b1, m2);
    Product(k2, m2, base, f, h, a2, m4, b2, m1);
    Product(k3, m3, base, f, h, a3, m1, b3, m4);
    Product(k4, m4, base, f, h, a4, m2, b4, m3);
    Collect(k1 * base, k3 * a3, k2 * b2, m1);
    Collect(k2 * base, k4 * a4, k1 * b1, m2);
    Collect(k3 * base, k1 * a1, k4 * b4, m3);
    Collect(k4 * base, k2 * a2, k3 * b3, m4);
    Four(k1 * m1, k2 * m2, k3 * m3, k4 * m4, base + f + h);
  }

  lemma ProductsMinus(k1: int, k2: int, k3: int, k4: int, m1: int, m2: int, m3: int, m4: int, base: int, f: int, h: int,
                      a1: int, a2: int, a3: int, a4: int, b1: int, b2: int, b3: int, b4: int)
    requires f * m1 == a1 * m3 && f * m3 == a3 * m1 && f * m2 == a2 * m4 && f * m4 == a4 * m2
    requires h * m1 == b1 * m2 && h * m2 == b2 * m1 && h * m3 == b3 * m4 && h * m4 == b4 * m3
    ensures (k1 * m1 + k2 * m2 + k3 * m3 + k4 * m4) * (base - f - h)
         == (k1 * base - k3 * a3 - k2 * b2) * m1 + (k2 * base - k4 * a4 - k1 * b1) * m2
            + (k3 * base - k1 * a1 - k4 * b4) * m3 + (k4 * base - k2 * a2 - k3 * b3) * m4
  {
    Opposites(f, m1, a1, m3);
    Opposites(f, m2, a2, m4);
    Opposites(f, m3, a3, m1);
    Opposites(f, m4, a4, m2);
    Opposites(h, m1, b1, m2);
    Opposites(h, m2, b2, m1);
    Opposites(h, m3, b3, m4);
    Opposites(h, m4, b4, m3);
    Products(k1, k2, k3, k4, m1, m2, m3, m4, base, -f, -h, -a1, -a2, -a3, -a4, -b1, -b2, -b3, -b4);
    assert k1 * -a1 == -(k1 * a1) && k2 * -a2 == -(k2 * a2) && k3 * -a3 == -(k3 * a3) && k4 * -a4 == -(k4 * a4);
    assert k1 * -b1 == -(k1 * b1) && k2 * -b2 == -(k2 * b2) && k3 * -b3 == -(k3 * b3) && k4 * -b4 == -(k4 * b4);
  }

  lemma Opposites(f: int, m: int, a: int, n: int)
    requires f * m == a * n
    ensures -f * m == -a * n
  {
  }

  lemma Product(k: int, m: int, base: int, f: int, h: int, a: int, n: int, b: int, o: int)
    requires f * m == a * n && h * m == b * o
    ensures k * m * (base + f + h) == k * base * m + k * a * n + k * b * o
  {
    assert k * m * (base + f + h) == k * base * m + k * (f * m) + k * (h * m);
  }

  lemma Collect(s: int, t: int, u: int, m: int)
    ensures (s + t + u) * m == s * m + t * m + u * m
  {
  }

  lemma Four(s: int, t: int, u: int, v: int, m: int)
    ensures (s + t + u + v) * m == s * m + t * m + u * m + v * m
  {
  }

  // ---------- The coefficients from eight sides ----------

  lemma CoefficientTurned12(d: int, x1: int, y1: int, x2: int, y2: int, x3: int, y3: int)
    ensures Coefficient(d, -y1, -x1, -y2, -x2, x3, y3) ==
              (1 - d * (x1 * y2)) * (1 - d * (x3 * y3) * (d * (x2 * y2)))
              + (1 + d * (y1 * y2)) * (d * (x2 + y2) * (x1 * x3)) + (1 - d * (x2 * y1)) * (d * (x3 + y3) * (x1 * y2))
  {
    Signs(d, x1, y1, x2, y2, x3, y3);
  }

  lemma CoefficientTurned13(d: int, x1: int, y1: int, x2: int, y2: int, x3: int, y3: int)
    ensures Coefficient(d, -y1, -x1, x2, y2, -y3, -x3) ==
              (1 + d * (x1 * x2)) * (1 - d * (x3 * y3) * (d * (x2 * y2)))
              + (1 - d * (x2 * y1)) * (d * (x2 + y2) * (x1 * y3)) + (1 + d * (y1 * y2)) * (d * (x3 + y3) * (x1 * x2))
  {
    Signs(d, x1, y1, x2, y2, x3, y3);
  }

  lemma CoefficientTurned23(d: int, x1: int, y1: int, x2: int, y2: int, x3: int, y3: int)
    ensures Coefficient(d, x1, y1, -y2, -x2, -y3, -x3) ==
              (1 + d * (y1 * y2)) * (1 - d * (x3 * y3) * (d * (x2 * y2)))
              + (1 - d * (x1 * y2)) * (d * (x2 + y2) * (y1 * y3)) + (1 + d * (x1 * x2)) * (d * (x3 + y3) * (y1 * y2))
  {
    Signs(d, x1, y1, x2, y2, x3, y3);
  }

  lemma Signs(d: int, x1: int, y1: int, x2: int, y2: int, x3: int, y3: int)
    ensures -y2 * -x2 == x2 * y2 && -y3 * -x3 == x3 * y3
  {
  }

  lemma CoefficientTurned1(d: int, x1: int, y1: int, x2: int, y2: int, x3: int, y3: int)
    ensures Coefficient(d, -y1, -x1, x2, y2, x3, y3) ==
              (1 + d * (x1 * x2)) * (1 - d * (x3 * y3) * (d * (x2 * y2)))
              - (1 - d * (x2 * y1)) * (d * (x2 + y2) * (x1 * x3)) - (1 + d * (y1 * y2)) * (d * (x3 + y3) * (x1 * x2))
  {
    Signs(d, x1, y1, x2, y2, x3, y3);
  }

  lemma CoefficientTurned2(d: int, x1: int, y1: int, x2: int, y2: int, x3: int, y3: int)
    ensures Coefficient(d, x1, y1, -y2, -x2, x3, y3) ==
              (1 + d * (y1 * y2)) * (1 - d * (x3 * y3) * (d * (x2 * y2)))
              - (1 - d * (x1 * y2)) * (d * (x2 + y2) * (x3 * y1)) - (1 + d * (x1 * x2)) * (d * (x3 + y3) * (y1 * y2))
  {
    Signs(d, x1, y1, x2, y2, x3, y3);
  }

  lemma CoefficientTurned3(d: int, x1: int, y1: int, x2: int, y2: int, x3: int, y3: int)
    ensures Coefficient(d, x1, y1, x2, y2, -y3, -x3) ==
              (1 - d * (x2 * y1)) * (1 - d * (x3 * y3) * (d * (x2 * y2)))
              - (1 + d * (x1 * x2)) * (d * (x2 + y2) * (y1 * y3)) - (1 - d * (x1 * y2)) * (d * (x3 + y3) * (x2 * y1))
  {
    Signs(d, x1, y1, x2, y2, x3, y3);
  }

  lemma CoefficientTurned123(d: int, x1: int, y1: int, x2: int, y2: int, x3: int, y3: int)
    ensures Coefficient(d, -y1, -x1, -y2, -x2, -y3, -x3) ==
              (1 - d * (x1 * y2)) * (1 - d * (x3 * y3) * (d * (x2 * y2)))
              - (1 + d * (y1 * y2)) * (d * (x2 + y2) * (x1 * y3)) - (1 - d * (x2 * y1)) * (d * (x3 + y3) * (x1 * y2))
  {
    Signs(d, x1, y1, x2, y2, x3, y3);
  }

  lemma SwapAll(a: Point, b: Point, c: Point)
    ensures Mono(a.x, c.y, b.y) == Mono(a.x, b.y, c.y) && Mono(a.y, c.x, b.y) == Mono(a.y, b.y, c.x)
    ensures Mono(a.y, c.y, b.x) == Mono(a.y, b.x, c.y) && Mono(a.x, c.x, b.x) == Mono(a.x, b.x, c.x)
    ensures Mono(a.y, c.y, b.y) == Mono(a.y, b.y, c.y) && Mono(a.x, c.x, b.y) == Mono(a.x, b.y, c.x)
    ensures Mono(a.x, c.y, b.x) == Mono(a.x, b.x, c.y) && Mono(a.y, c.x, b.x) == Mono(a.y, b.x, c.x)
  {
  }

  /** Four coefficients for the monomials of an x coordinate, and four for those of a y coordinate. */
  function SumX(d: int, a: Point, b: Point, c: Point): int {
    var x1, y1, x2, y2, x3, y3 := a.x * a.x, a.y * a.y, b.x * b.x, b.y * b.y, c.x * c.x, c.y * c.y;
    Coefficient(d, x1, y1, x2, y2, x3, y3) * Mono(a.x, b.y, c.y)
    + Coefficient(d, -y1, -x1, -y2, -x2, x3, y3) * Mono(a.y, b.x, c.y)
    + Coefficient(d, -y1, -x1, x2, y2, -y3, -x3) * Mono(a.y, b.y, c.x)
    + Coefficient(d, x1, y1, -y2, -x2, -y3, -x3) * Mono(a.x, b.x, c.x)
  }

  function SumY(d: int, a: Point, b: Point, c: Point): int {
    var x1, y1, x2, y2, x3, y3 := a.x * a.x, a.y * a.y, b.x * b.x, b.y * b.y, c.x * c.x, c.y * c.y;
    Coefficient(d, -y1, -x1, x2, y2, x3, y3) * Mono(a.y, b.y, c.y)
    + Coefficient(d, x1, y1, -y2, -x2, x3, y3) * Mono(a.x, b.x, c.y)
    + Coefficient(d, x1, y1, x2, y2, -y3, -x3) * Mono(a.x, b.y, c.x)
    + Coefficient(d, -y1, -x1, -y2, -x2, -y3, -x3) * Mono(a.y, b.x, c.x)
  }

  lemma ExpansionX(d: int, a: Point, b: Point, c: Point)
    ensures NumeratorX(d, a, b, c) * DenominatorX(d, c, b, a) == SumX(d, a, b, c)
  {
    var x1, y1, x2, y2, x3, y3 := a.x * a.x, a.y * a.y, b.x * b.x, b.y * b.y, c.x * c.x, c.y * c.y;
    NumeratorXIs(d, a, b, c);
    DenominatorsAre(d, a, b, c);
    var k, l := d * (x2 + y2), d * (x3 + y3);
    CrossTimesAll(k, a, c, b.x);
    CrossTimesAll(k, a, c, b.y);
    CrossTimesAll(l, a, b, c.x);
    CrossTimesAll(l, a, b, c.y);
    SwapAll(a, b, c);
    CoefficientTurned12(d, x1, y1, x2, y2, x3, y3);
    CoefficientTurned13(d, x1, y1, x2, y2, x3, y3);
    CoefficientTurned23(d, x1, y1, x2, y2, x3, y3);
    assert x3 * y1 == y1 * x3 && x2 * y1 == y1 * x2;
    hide Mono, Cross, NumeratorX, DenominatorX;
    var base := 1 - d * (x3 * y3) * (d * (x2 * y2));
    Products(1 - d * (x2 * y1), 1 - d * (x1 * y2), 1 + d * (x1 * x2), 1 + d * (y1 * y2),
             Mono(a.x, b.y, c.y), Mono(a.y, b.x, c.y), Mono(a.y, b.y, c.x), Mono(a.x, b.x, c.x),
             base, Cross(k, a, c), Cross(l, a, b),
             k * (x1 * y3), k * (y1 * y3), k * (y1 * x3), k * (x1 * x3),
             l * (x1 * y2), l * (y1 * x2), l * (y1 * y2), l * (x1 * x2));
  }

  lemma ExpansionY(d: int, a: Point, b: Point, c: Point)
    ensures NumeratorY(d, a, b, c) * DenominatorY(d, c, b, a) == SumY(d, a, b, c)
  {
    var x1, y1, x2, y2, x3, y3 := a.x * a.x, a.y * a.y, b.x * b.x, b.y * b.y, c.x * c.x, c.y * c.y;
    NumeratorYIs(d, a, b, c);
    DenominatorsAre(d, a, b, c);
    var k, l := d * (x2 + y2), d * (x3 + y3);
    CrossTimesAll(k, a, c, b.x);
    CrossTimesAll(k, a, c, b.y);
    CrossTimesAll(l, a, b, c.x);
    CrossTimesAll(l, a, b, c.y);
    SwapAll(a, b, c);
    CoefficientTurned1(d, x1, y1, x2, y2, x3, y3);
    CoefficientTurned2(d, x1, y1, x2, y2, x3, y3);
    CoefficientTurned3(d, x1, y1, x2, y2, x3, y3);
    CoefficientTurned123(d, x1, y1, x2, y2, x3, y3);
    hide Mono, Cross, NumeratorY, DenominatorY, Coefficient;
    var base := 1 - d * (x3 * y3) * (d * (x2 * y2));
    ProductsMinus(1 + d * (x1 * x2), 1 + d * (y1 * y2), 1 - d * (x2 * y1), 1 - d * (x1 * y2),
                  Mono(a.y, b.y, c.y), Mono(a.x, b.x, c.y), Mono(a.x, b.y, c.x), Mono(a.y, b.x, c.x),
                  base, Cross(k, a, c), Cross(l, a, b),
                  k * (y1 * y3), k * (x1 * y3), k * (x1 * x3), k * (x3 * y1),
                  l * (y1 * y2), l * (x1 * x2), l * (x1 * y2), l * (x2 * y1));
  }

  // ---------- Both ways of adding ----------

  lemma FourTerms(a1: int, b1: int, a2: int, b2: int, a3: int, b3: int, a4: int, b4: int,
                  m1: int, m2: int, m3: int, m4: int)
    requires Cong(a1, b1) && Cong(a2, b2) && Cong(a3, b3) && Cong(a4, b4)
    ensures Cong(a1 * m1 + a2 * m2 + a3 * m3 + a4 * m4, b1 * m1 + b2 * m2 + b3 * m3 + b4 * m4)
  {
    CongRefl(m1);
    CongRefl(m2);
    CongRefl(m3);
    CongRefl(m4);
    CongMul(a1, b1, m1, m1);
    CongMul(a2, b2, m2, m2);
    CongMul(a3, b3, m3, m3);
    CongMul(a4, b4, m4, m4);
    CongAdd(a1 * m1, b1 * m1, a2 * m2, b2 * m2);
    CongAdd(a1 * m1 + a2 * m2, b1 * m1 + b2 * m2, a3 * m3, b3 * m3);
    CongAdd(a1 * m1 + a2 * m2 + a3 * m3, b1 * m1 + b2 * m2 + b3 * m3, a4 * m4, b4 * m4);
  }

  lemma RelatedSquares(d: int, a: Point)
    requires SatisfiesEquation(d, a)
    ensures Related(d, a.x * a.x, a.y * a.y) && Related(d, -(a.y * a.y), -(a.x * a.x))
  {
    var x, y := a.x * a.x, a.y * a.y;
    CongRefl(1);
    CongSub(y - x, 1 + d * (x * y), 1, 1);
    RelatedTurned(d, x, y);
  }

  lemma MonoReversed(r: int, s: int, t: int)
    ensures Mono(r, s, t) == Mono(t, s, r)
  {
  }

  lemma SumsAgreeX(d: int, a: Point, b: Point, c: Point)
    requires SatisfiesEquation(d, a) && SatisfiesEquation(d, b) && SatisfiesEquation(d, c)
    ensures Cong(SumX(d, a, b, c), SumX(d, c, b, a))
  {
    var x1, y1, x2, y2, x3, y3 := a.x * a.x, a.y * a.y, b.x * b.x, b.y * b.y, c.x * c.x, c.y * c.y;
    RelatedSquares(d, a);
    RelatedSquares(d, b);
    RelatedSquares(d, c);
    CoefficientsAgree(d, x1, y1, x2, y2, x3, y3);
    CoefficientsAgree(d, -y1, -x1, -y2, -x2, x3, y3);
    CoefficientsAgree(d, -y1, -x1, x2, y2, -y3, -x3);
    CoefficientsAgree(d, x1, y1, -y2, -x2, -y3, -x3);
    MonoReversed(a.x, b.y, c.y);
    MonoReversed(a.y, b.x, c.y);
    MonoReversed(a.y, b.y, c.x);
    MonoReversed(a.x, b.x, c.x);
    hide Mono, Coefficient, Related, SatisfiesEquation;
    FourTerms(Coefficient(d, x1, y1, x2, y2, x3, y3), Coefficient(d, -y3, -x3, x2, y2, -y1, -x1),
              Coefficient(d, -y1, -x1, -y2, -x2, x3, y3), Coefficient(d, -y3, -x3, -y2, -x2, x1, y1),
              Coefficient(d, -y1, -x1, x2, y2, -y3, -x3), Coefficient(d, x3, y3, x2, y2, x1, y1),
              Coefficient(d, x1, y1, -y2, -x2, -y3, -x3), Coefficient(d, x3, y3, -y2, -x2, -y1, -x1),
              Mono(a.x, b.y, c.y), Mono(a.y, b.x, c.y), Mono(a.y, b.y, c.x), Mono(a.x, b.x, c.x));
  }

  lemma SumsAgreeY(d: int, a: Point, b: Point, c: Point)
    requires SatisfiesEquation(d, a) && SatisfiesEquation(d, b) && SatisfiesEquation(d, c)
    ensures Cong(SumY(d, a, b, c), SumY(d, c, b, a))
  {
    var x1, y1, x2, y2, x3, y3 := a.x * a.x, a.y * a.y, b.x * b.x, b.y * b.y, c.x * c.x, c.y * c.y;
    RelatedSquares(d, a);
    RelatedSquares(d, b);
    RelatedSquares(d, c);
    CoefficientsAgree(d, -y1, -x1, x2, y2, x3, y3);
    CoefficientsAgree(d, x1, y1, -y2, -x2, x3, y3);
    CoefficientsAgree(d, x1, y1, x2, y2, -y3, -x3);
    CoefficientsAgree(d, -y1, -x1, -y2, -x2, -y3, -x3);
    MonoReversed(a.y, b.y, c.y);
    MonoReversed(a.x, b.x, c.y);
    MonoReversed(a.x, b.y, c.x);
    MonoReversed(a.y, b.x, c.x);
    hide Mono, Coefficient, Related, SatisfiesEquation;
    FourTerms(Coefficient(d, -y1, -x1, x2, y2, x3, y3), Coefficient(d, -y3, -x3, x2, y2, x1, y1),
              Coefficient(d, x1, y1, -y2, -x2, x3, y3), Coefficient(d, -y3, -x3, -y2, -x2, -y1, -x1),
              Coefficient(d, x1, y1, x2, y2, -y3, -x3), Coefficient(d, x3, y3, x2, y2, -y1, -x1),
              Coefficient(d, -y1, -x1, -y2, -x2, -y3, -x3), Coefficient(d, x3, y3, -y2, -x2, x1, y1),
              Mono(a.y, b.y, c.y), Mono(a.x, b.x, c.y), Mono(a.x, b.y, c.x), Mono(a.y, b.x, c.x));
  }

  // ---------- The sum of three points ----------

  /** A product of coordinates of a sum, times both denominators. */
  lemma ClearedProduct(d: int, x: int, y: int, f: int, g: int, n: int, m: int, w: int)
    requires Cong(x * f, n) && Cong(y * g, m)
    ensures Cong(d * (x * y * w) * (f * g), d * (n * m * w))
  {
    CongMul(x * f, n, y * g, m);
    CongRefl(w);
    CongMul(x * f * (y * g), n * m, w, w);
    CongScale(d, x * f * (y * g) * w, n * m * w);
    Exchange(x, f, y, g);
    Exchange(x * y, f * g, w, 1);
    assert d * (x * y * w) * (f * g) == d * (x * y * w * (f * g));
  }

  /** A sum of multiples of them, times both denominators. */
  lemma ClearedSum(x: int, y: int, f: int, g: int, n: int, m: int, u: int, v: int)
    requires Cong(x * f, n) && Cong(y * g, m)
    ensures Cong((x * v + y * u) * (f * g), n * v * g + m * u * f)
  {
    CongRefl(v * g);
    CongRefl(u * f);
    CongMul(x * f, n, v * g, v * g);
    CongMul(y * g, m, u * f, u * f);
    CongAdd(x * f * (v * g), n * (v * g), y * g * (u * f), m * (u * f));
    Exchange(x, f, v, g);
    Exchange(y, g, u, f);
    assert (x * v + y * u) * (f * g) == x * v * (f * g) + y * u * (g * f);
    assert n * (v * g) == n * v * g && m * (u * f) == m * u * f;
  }

  lemma ClearedQuotient(s: int, f: int, n: int, k: int, g: int, m: int)
    requires PIsPrime() && Cong(s * f, n) && Cong(f * k, g) && Cong(n * k, m) && !Cong(f, 0) && !Cong(k, 0)
    ensures Cong(s * g, m) && !Cong(g, 0)
  {
    NonZeroProduct(f, k);
    NonZeroCong(f * k, g);
    CongRefl(k);
    CongMul(s * f, n, k, k);
    CongTrans(s * f * k, n * k, m);
    CongSym(f * k, g);
    CongScale(s, g, f * k);
    assert s * (f * k) == s * f * k;
    CongTrans(s * g, s * f * k, m);
  }

  lemma ClearedDenominator(e: int, k: int, w: int)
    requires Cong(e * k, w)
    ensures Cong((1 + e) * k, k + w) && Cong((1 - e) * k, k - w)
  {
    CongRefl(k);
    CongAdd(k, k, e * k, w);
    CongSub(k, k, e * k, w);
    assert (1 + e) * k == k + e * k && (1 - e) * k == k - e * k;
  }

  /** (a + b) + c without division. */
  lemma TripleSum(d: int, a: Point, b: Point, c: Point)
    requires EdwardsCurve(d) && OnCurve(d, a) && OnCurve(d, b) && OnCurve(d, c) && OnCurve(d, Add(d, a, b))
    ensures var s := Add(d, Add(d, a, b), c);
            && Cong(s.x * DenominatorX(d, a, b, c), NumeratorX(d, a, b, c)) && !Cong(DenominatorX(d, a, b, c), 0)
            && Cong(s.y * DenominatorY(d, a, b, c), NumeratorY(d, a, b, c)) && !Cong(DenominatorY(d, a, b, c), 0)
  {
    CurvePrime(d);
    var p := Add(d, a, b);
    var s := Add(d, p, c);
    var f, g, n, m := DenX(d, a, b), DenY(d, a, b), NumX(a, b), NumY(a, b);
    SumEquations(d, a, b);
    DenominatorsNonZero(d, a, b);
    SumEquations(d, p, c);
    DenominatorsNonZero(d, p, c);
    NonZeroProduct(f, g);
    ClearedProduct(d, p.x, p.y, f, g, n, m, c.x * c.y);
    ClearedDenominator(Cross(d, p, c), f * g, d * (n * m * (c.x * c.y)));
    ClearedSum(p.x, p.y, f, g, n, m, c.x, c.y);
    ClearedSum(p.y, p.x, g, f, m, n, c.x, c.y);
    assert g * f == f * g;
    hide Cross;
    ClearedQuotient(s.x, DenX(d, p, c), NumX(p, c), f * g, DenominatorX(d, a, b, c), NumeratorX(d, a, b, c));
    ClearedQuotient(s.y, DenY(d, p, c), NumY(p, c), f * g, DenominatorY(d, a, b, c), NumeratorY(d, a, b, c));
  }

  lemma SameQuotient(s: int, t: int, f: int, n: int, g: int, m: int)
    requires PIsPrime() && Cong(s * f, n) && Cong(t * g, m) && Cong(n * g, m * f) && !Cong(f, 0) && !Cong(g, 0)
    requires 0 <= s < P && 0 <= t < P
    ensures s == t
  {
    CongRefl(g);
    CongRefl(f);
    CongMul(s * f, n, g, g);
    CongMul(t * g, m, f, f);
    CongTrans(s * f * g, n * g, m * f);
    CongSym(t * g * f, m * f);
    CongTrans(s * f * g, m * f, t * g * f);
    assert s * f * g == s * (f * g) && t * g * f == t * (f * g);
    NonZeroProduct(f, g);
    Cancel(s, t, f * g);
    CongSmall(s, t);
  }

  /** (a + b) + c = (c + b) + a. */
  lemma OuterExchange(d: int, a: Point, b: Point, c: Point)
    requires EdwardsCurve(d) && OnCurve(d, a) && OnCurve(d, b) && OnCurve(d, c)
    requires OnCurve(d, Add(d, a, b)) && OnCurve(d, Add(d, c, b))
    ensures Add(d, Add(d, a, b), c) == Add(d, Add(d, c, b), a)
  {
    CurvePrime(d);
    OnCurveMeans(d, a);
    OnCurveMeans(d, b);
    OnCurveMeans(d, c);
    TripleSum(d, a, b, c);
    TripleSum(d, c, b, a);
    SumEquations(d, Add(d, a, b), c);
    SumEquations(d, Add(d, c, b), a);
    ExpansionX(d, a, b, c);
    ExpansionX(d, c, b, a);
    SumsAgreeX(d, a, b, c);
    ExpansionY(d, a, b, c);
    ExpansionY(d, c, b, a);
    SumsAgreeY(d, a, b, c);
    hide NumeratorX, NumeratorY, DenominatorX, DenominatorY, SumX, SumY, DenX, DenY, NumX, NumY, SatisfiesEquation;
    var s, t := Add(d, Add(d, a, b), c), Add(d, Add(d, c, b), a);
    SameQuotient(s.x, t.x, DenominatorX(d, a, b, c), NumeratorX(d, a, b, c), DenominatorX(d, c, b, a),
                 NumeratorX(d, c, b, a));
    SameQuotient(s.y, t.y, DenominatorY(d, a, b, c), NumeratorY(d, a, b, c), DenominatorY(d, c, b, a),
                 NumeratorY(d, c, b, a));
  }
}
