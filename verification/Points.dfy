/** The extended-coordinate point formulas of ed25519_ref10.c, proved to compute the affine
    addition law, with the limb bounds every multiplication needs.

    A formula writes its result into a point object, as the source does.  What an object stands
    for is an affine point: the coordinates are multiples of it by the (nonzero) Z. */
module Points {
  import opened Arithmetic
  import opened Residues
  import opened PrimeField
  import opened FieldLimbs
  import opened Edwards
  import opened EdwardsGroup
  import opened CurveConstants

  // ---------- Limb bounds: sums of at most three products ----------

  predicate UpTo(n: nat, f: Fe) {
    Within(f, n * TIGHT_EVEN, n * TIGHT_ODD)
  }

  lemma SumUpTo(f: Fe, g: Fe, m: nat, n: nat)
    requires UpTo(m, f) && UpTo(n, g)
    ensures UpTo(m + n, FeSum(f, g)) && UpTo(m + n, FeDifference(f, g))
  {
  }

  /** Up to three products deep, a sum is an operand of every field operation. */
  lemma UpToIsOperand(n: nat, f: Fe)
    requires UpTo(n, f) && n <= 3
    ensures MulOperand(f) && Within(f, 0x3fff_ffff, 0x3fff_ffff)
  {
  }

  method Plus(f: Fe, g: Fe, ghost m: nat, ghost n: nat, ghost x: int, ghost y: int) returns (h: Fe)
    requires UpTo(m, f) && UpTo(n, g) && 0 < m && 0 < n && m + n <= 3
    requires Stands(f, x) && Stands(g, y)
    ensures UpTo(m + n, h) && MulOperand(h) && Stands(h, x + y)
  {
    UpToIsOperand(m, f);
    UpToIsOperand(n, g);
    h := FeAdd(f, g, x, y);
    SumUpTo(f, g, m, n);
    UpToIsOperand(m + n, h);
  }

  method Minus(f: Fe, g: Fe, ghost m: nat, ghost n: nat, ghost x: int, ghost y: int) returns (h: Fe)
    requires UpTo(m, f) && UpTo(n, g) && 0 < m && 0 < n && m + n <= 3
    requires Stands(f, x) && Stands(g, y)
    ensures UpTo(m + n, h) && MulOperand(h) && Stands(h, x - y)
  {
    UpToIsOperand(m, f);
    UpToIsOperand(n, g);
    h := FeSub(f, g, x, y);
    SumUpTo(f, g, m, n);
    UpToIsOperand(m + n, h);
  }

  method Times(f: Fe, g: Fe, ghost x: int, ghost y: int) returns (h: Fe)
    requires MulOperand(f) && MulOperand(g) && Stands(f, x) && Stands(g, y)
    ensures UpTo(1, h) && MulOperand(h) && Stands(h, x * y)
  {
    h := FeMul(f, g, x, y);
    UpToIsOperand(1, h);
  }

  lemma ValStands(f: Fe)
    ensures Stands(f, Val(f))
  {
    CongRefl(Val(f));
  }

  // ---------- Points in memory ----------

  /** X = x Z, Y = y Z. */
  ghost predicate Projective(X: Fe, Y: Fe, Z: Fe, a: Point) {
    && UpTo(1, X) && UpTo(1, Y) && UpTo(1, Z)
    && !Cong(Val(Z), 0)
    && Stands(X, a.x * Val(Z)) && Stands(Y, a.y * Val(Z))
  }

  /** Also T = x y Z, so that X Y = Z T. */
  ghost predicate Extended(X: Fe, Y: Fe, Z: Fe, T: Fe, a: Point) {
    && Projective(X, Y, Z, a)
    && UpTo(1, T) && Stands(T, a.x * a.y * Val(Z))
  }

  /** X = x Z, Y = y T. */
  ghost predicate Completed(X: Fe, Y: Fe, Z: Fe, T: Fe, a: Point) {
    && MulOperand(X) && MulOperand(Y) && MulOperand(Z) && MulOperand(T)
    && !Cong(Val(Z), 0) && !Cong(Val(T), 0)
    && Stands(X, a.x * Val(Z)) && Stands(Y, a.y * Val(T))
  }

  class P2 {
    var X: Fe
    var Y: Fe
    var Z: Fe

    ghost predicate Is(a: Point)
      reads this
    {
      Projective(X, Y, Z, a)
    }

    constructor () {
    }
  }

  class P3 {
    var X: Fe
    var Y: Fe
    var Z: Fe
    var T: Fe

    ghost predicate Is(a: Point)
      reads this
    {
      Extended(X, Y, Z, T, a)
    }

    constructor () {
    }
  }

  class P1P1 {
    var X: Fe
    var Y: Fe
    var Z: Fe
    var T: Fe

    ghost predicate Is(a: Point)
      reads this
    {
      Completed(X, Y, Z, T, a)
    }

    constructor () {
    }
  }

  /** A table entry of multiples of a runtime point. */
  datatype Cached = Cached(YplusX: Fe, YminusX: Fe, Z: Fe, T2d: Fe)

  /** A table entry of multiples of the base point; its Z is one. */
  datatype Precomp = Precomp(yplusx: Fe, yminusx: Fe, xy2d: Fe)

  ghost predicate IsCached(d: int, q: Cached, b: Point) {
    && UpTo(2, q.YplusX) && UpTo(2, q.YminusX) && UpTo(1, q.Z) && UpTo(1, q.T2d)
    && !Cong(Val(q.Z), 0)
    && Stands(q.YplusX, (b.y + b.x) * Val(q.Z)) && Stands(q.YminusX, (b.y - b.x) * Val(q.Z))
    && Stands(q.T2d, 2 * d * (b.x * b.y * Val(q.Z)))
  }

  ghost predicate IsPrecomp(d: int, q: Precomp, b: Point) {
    && UpTo(2, q.yplusx) && UpTo(2, q.yminusx) && UpTo(1, q.xy2d)
    && Stands(q.yplusx, b.y + b.x) && Stands(q.yminusx, b.y - b.x)
    && Stands(q.xy2d, 2 * d * (b.x * b.y))
  }

  // ---------- From the formulas' polynomials to the sum ----------

  lemma ScaledSum(n: int, c: int, k: int, w: int, z: int)
    requires Cong(c * k, n) && Cong(z, k * w)
    ensures Cong(n * w, c * z)
  {
    CongRefl(w);
    CongMul(c * k, n, w, w);
    CongScale(c, z, k * w);
    assert c * (k * w) == c * k * w;
    CongSym(c * k * w, n * w);
    CongSym(c * z, c * k * w);
    CongTrans(n * w, c * k * w, c * z);
  }

  /** The completed point with numerators and denominators of the sum, all scaled by one nonzero
      w, is the sum. */
  lemma CompletedSum(X: Fe, Y: Fe, Z: Fe, T: Fe, d: int, a: Point, b: Point, w: int)
    requires EdwardsCurve(d) && OnCurve(d, a) && OnCurve(d, b) && !Cong(w, 0)
    requires MulOperand(X) && MulOperand(Y) && MulOperand(Z) && MulOperand(T)
    requires Stands(X, NumX(a, b) * w) && Stands(Y, NumY(a, b) * w)
    requires Stands(Z, DenX(d, a, b) * w) && Stands(T, DenY(d, a, b) * w)
    ensures Completed(X, Y, Z, T, Add(d, a, b))
  {
    hide NumX, NumY, DenX, DenY;
    var c := Add(d, a, b);
    SumEquations(d, a, b);
    DenominatorsNonZero(d, a, b);
    NonZeroScaled(d, Z, DenX(d, a, b), w);
    NonZeroScaled(d, T, DenY(d, a, b), w);
    ScaledSum(NumX(a, b), c.x, DenX(d, a, b), w, Val(Z));
    ScaledSum(NumY(a, b), c.y, DenY(d, a, b), w, Val(T));
    CongTrans(Val(X), NumX(a, b) * w, c.x * Val(Z));
    CongTrans(Val(Y), NumY(a, b) * w, c.y * Val(T));
  }

  lemma NonZeroScaled(d: int, f: Fe, k: int, w: int)
    requires EdwardsCurve(d) && Stands(f, k * w) && !Cong(k, 0) && !Cong(w, 0)
    ensures Cong(Val(f), k * w) && !Cong(Val(f), 0)
  {
    CurvePrime(d);
    NonZeroProduct(k, w);
    CongSym(Val(f), k * w);
    NonZeroCong(k * w, Val(f));
  }

  // ---------- The identities of the unified addition ----------

  lemma SidesMultiply(ax: int, ay: int, u: int, cx: int, cy: int, v: int)
    ensures (ay * u + ax * u) * ((cy + cx) * v) == (ay + ax) * (cy + cx) * (u * v)
    ensures (ay * u - ax * u) * ((cy - cx) * v) == (ay - ax) * (cy - cx) * (u * v)
  {
    assert ay * u + ax * u == (ay + ax) * u;
    assert ay * u - ax * u == (ay - ax) * u;
    Exchange(ay + ax, u, cy + cx, v);
    Exchange(ay - ax, u, cy - cx, v);
  }

  lemma SidesCombine(ax: int, ay: int, cx: int, cy: int)
    ensures (ay + ax) * (cy + cx) - (ay - ax) * (cy - cx) == 2 * (ax * cy + ay * cx)
    ensures (ay + ax) * (cy + cx) + (ay - ax) * (cy - cx) == 2 * (ay * cy + ax * cx)
  {
  }

  lemma Doubled(s: int, t: int, n: int, m: int, w: int)
    requires s - t == 2 * n && s + t == 2 * m
    ensures s * w - t * w == n * (2 * w) && s * w + t * w == m * (2 * w)
  {
    assert s * w - t * w == (s - t) * w;
    assert s * w + t * w == (s + t) * w;
  }

  lemma CrossProduct(d: int, p: int, u: int, q: int, v: int)
    ensures 2 * d * (q * v) * (p * u) == d * (p * q) * (2 * (u * v))
  {
    Exchange(q, v, p, u);
    assert 2 * d * (q * v) * (p * u) == 2 * d * (q * v * (p * u));
    assert q * p == p * q && v * u == u * v;
    assert 2 * d * (p * q * (u * v)) == d * (p * q) * (2 * (u * v));
  }

  /** The eleven steps of ge25519_add in one identity: a = (ax, ay) at Z = u, b at Z = v. */
  lemma AddIdentity(d: int, a: Point, u: int, b: Point, v: int)
    ensures var e := (a.y * u + a.x * u) * ((b.y + b.x) * v);
            var f := (a.y * u - a.x * u) * ((b.y - b.x) * v);
            var c := 2 * d * (b.x * b.y * v) * (a.x * a.y * u);
            var w := 2 * (u * v);
            && e - f == NumX(a, b) * w && e + f == NumY(a, b) * w
            && u * v + u * v + c == DenX(d, a, b) * w && u * v + u * v - c == DenY(d, a, b) * w
  {
    SidesMultiply(a.x, a.y, u, b.x, b.y, v);
    SidesCombine(a.x, a.y, b.x, b.y);
    Doubled((a.y + a.x) * (b.y + b.x), (a.y - a.x) * (b.y - b.x), NumX(a, b), NumY(a, b), u * v);
    CrossProduct(d, a.x * a.y, u, b.x * b.y, v);
    Unit(Cross(d, a, b), 2 * (u * v));
  }

  lemma Unit(e: int, w: int)
    ensures (1 + e) * w == w + e * w && (1 - e) * w == w - e * w
  {
  }

  lemma TwiceNonZero(d: int, u: int, v: int)
    requires EdwardsCurve(d) && !Cong(u, 0) && !Cong(v, 0)
    ensures !Cong(2 * (u * v), 0)
  {
    CurvePrime(d);
    TwoIsNotZero();
    NonZeroProduct(u, v);
    NonZeroProduct(2, u * v);
  }

  // ---------- The coordinates of an operand, by name ----------

  /** (x, y, u, t) are the coordinates of the affine point a at Z = u. */
  ghost predicate Coordinates(a: Point, x: int, y: int, u: int, t: int) {
    x == a.x * u && y == a.y * u && t == a.x * a.y * u && !Cong(u, 0)
  }

  lemma ExtendedCoordinates(X: Fe, Y: Fe, Z: Fe, T: Fe, a: Point) returns (x: int, y: int, u: int, t: int)
    requires Extended(X, Y, Z, T, a)
    ensures Stands(X, x) && Stands(Y, y) && Stands(Z, u) && Stands(T, t)
    ensures MulOperand(Z) && MulOperand(T)
    ensures Coordinates(a, x, y, u, t)
  {
    u := Val(Z);
    x, y, t := a.x * u, a.y * u, a.x * a.y * u;
    ValStands(Z);
    UpToIsOperand(1, Z);
    UpToIsOperand(1, T);
  }

  /** The sides y + x and y - x of b, its Z and its 2 d x y, all at Z = v. */
  ghost predicate Sides(d: int, b: Point, plus: int, minus: int, v: int, c: int) {
    plus == (b.y + b.x) * v && minus == (b.y - b.x) * v && c == 2 * d * (b.x * b.y * v) && !Cong(v, 0)
  }

  lemma CachedSides(d: int, q: Cached, b: Point) returns (plus: int, minus: int, v: int, c: int)
    requires IsCached(d, q, b)
    ensures Stands(q.YplusX, plus) && Stands(q.YminusX, minus) && Stands(q.Z, v) && Stands(q.T2d, c)
    ensures MulOperand(q.YplusX) && MulOperand(q.YminusX) && MulOperand(q.Z) && MulOperand(q.T2d)
    ensures Sides(d, b, plus, minus, v, c)
  {
    v := Val(q.Z);
    plus, minus, c := (b.y + b.x) * v, (b.y - b.x) * v, 2 * d * (b.x * b.y * v);
    ValStands(q.Z);
    UpToIsOperand(2, q.YplusX);
    UpToIsOperand(2, q.YminusX);
    UpToIsOperand(1, q.Z);
    UpToIsOperand(1, q.T2d);
  }

  /** The unified addition, given its eight products by name. */
  lemma AddStands(X: Fe, Y: Fe, Z: Fe, T: Fe, d: int, a: Point, b: Point,
                  x: int, y: int, u: int, t: int, plus: int, minus: int, v: int, c: int)
    requires EdwardsCurve(d) && OnCurve(d, a) && OnCurve(d, b)
    requires Coordinates(a, x, y, u, t) && Sides(d, b, plus, minus, v, c)
    requires MulOperand(X) && MulOperand(Y) && MulOperand(Z) && MulOperand(T)
    requires Stands(X, (y + x) * plus - (y - x) * minus) && Stands(Y, (y + x) * plus + (y - x) * minus)
    requires Stands(Z, u * v + u * v + c * t) && Stands(T, u * v + u * v - c * t)
    ensures Completed(X, Y, Z, T, Add(d, a, b))
  {
    hide Stands, NumX, NumY, DenX, DenY, MulOperand;
    AddIdentity(d, a, u, b, v);
    TwiceNonZero(d, u, v);
    CompletedSum(X, Y, Z, T, d, a, b, 2 * (u * v));
  }

  /** Sides with the opposite last coordinate. */
  ghost predicate FlippedSides(d: int, b: Point, plus: int, minus: int, v: int, e: int) {
    Sides(d, b, plus, minus, v, -e)
  }

  lemma SubtractStands(X: Fe, Y: Fe, Z: Fe, T: Fe, d: int, a: Point, b: Point,
                       x: int, y: int, u: int, t: int, plus: int, minus: int, v: int, e: int)
    requires EdwardsCurve(d) && OnCurve(d, a) && OnCurve(d, b)
    requires Coordinates(a, x, y, u, t) && FlippedSides(d, Neg(b), plus, minus, v, e)
    requires MulOperand(X) && MulOperand(Y) && MulOperand(Z) && MulOperand(T)
    requires Stands(X, (y + x) * plus - (y - x) * minus) && Stands(Y, (y + x) * plus + (y - x) * minus)
    requires Stands(Z, u * v + u * v - e * t) && Stands(T, u * v + u * v + e * t)
    ensures Completed(X, Y, Z, T, Add(d, a, Neg(b)))
  {
    hide Completed, Coordinates, Sides, MulOperand, Neg;
    NegOnCurve(d, b);
    assert -e * t == -(e * t);
    AddStands(X, Y, Z, T, d, a, Neg(b), x, y, u, t, plus, minus, v, -e);
  }

  // ---------- ge25519_add, ge25519_sub ----------

  method GeAdd(r: P1P1, p: P3, q: Cached, ghost d: int, ghost a: Point, ghost b: Point)
    requires EdwardsCurve(d) && OnCurve(d, a) && OnCurve(d, b)
    requires p.Is(a) && IsCached(d, q, b)
    modifies r
    ensures r.Is(Add(d, a, b))
  {
    hide MulOperand, Stands, Coordinates, Sides;
    ghost var x, y, u, t := ExtendedCoordinates(p.X, p.Y, p.Z, p.T, a);
    ghost var plus, minus, v, c := CachedSides(d, q, b);
    hide UpTo, IsCached, Completed;
    r.X := Plus(p.Y, p.X, 1, 1, y, x);
    r.Y := Minus(p.Y, p.X, 1, 1, y, x);
    r.Z := Times(r.X, q.YplusX, y + x, plus);
    r.Y := Times(r.Y, q.YminusX, y - x, minus);
    r.T := Times(q.T2d, p.T, c, t);
    r.X := Times(p.Z, q.Z, u, v);
    var t0 := Plus(r.X, r.X, 1, 1, u * v, u * v);
    r.X := Minus(r.Z, r.Y, 1, 1, (y + x) * plus, (y - x) * minus);
    r.Y := Plus(r.Z, r.Y, 1, 1, (y + x) * plus, (y - x) * minus);
    r.Z := Plus(t0, r.T, 2, 1, u * v + u * v, c * t);
    r.T := Minus(t0, r.T, 2, 1, u * v + u * v, c * t);
    AddStands(r.X, r.Y, r.Z, r.T, d, a, b, x, y, u, t, plus, minus, v, c);
  }

  // ---------- Negated table entries ----------

  lemma NegCoordinate(b: Point)
    ensures Cong(-b.x, Neg(b).x) && Neg(b).y == b.y
  {
    CanonIs(-b.x);
    CongSym(Neg(b).x, -b.x);
  }

  /** What swapping the sides and negating the cross coordinate does, at any Z = v. */
  lemma NegatedSides(d: int, x: int, n: int, y: int, v: int)
    requires Cong(-x, n)
    ensures Cong((y - x) * v, (y + n) * v) && Cong((y + x) * v, (y - n) * v)
    ensures Cong(-(2 * d * (x * y * v)), 2 * d * (n * y * v))
  {
    CongRefl(y);
    CongRefl(v);
    CongAdd(y, y, -x, n);
    CongMul(y - x, y + n, v, v);
    CongSub(y, y, -x, n);
    CongMul(y + x, y - n, v, v);
    NegatedCross(d, x, n, y * v);
    assert x * (y * v) == x * y * v && n * (y * v) == n * y * v;
  }

  lemma NegatedCross(d: int, x: int, n: int, w: int)
    requires Cong(-x, n)
    ensures Cong(-(2 * d * (x * w)), 2 * d * (n * w))
  {
    CongRefl(w);
    CongMul(-x, n, w, w);
    CongScale(2 * d, -x * w, n * w);
    assert 2 * d * (-x * w) == -(2 * d * (x * w));
  }

  function NegatedCached(q: Cached): Cached {
    Cached(q.YminusX, q.YplusX, q.Z, FeNegation(q.T2d))
  }

  function NegatedPrecomp(q: Precomp): Precomp {
    Precomp(q.yminusx, q.yplusx, FeNegation(q.xy2d))
  }

  lemma NegationStands(f: Fe, x: int, y: int)
    requires Stands(f, x) && Cong(-x, y)
    ensures Stands(FeNegation(f), y)
  {
    CongRefl(0);
    CongSub(0, 0, Val(f), x);
    CongTrans(Val(FeNegation(f)), -x, y);
  }

  lemma NegatedCachedIs(d: int, q: Cached, b: Point)
    requires IsCached(d, q, b)
    ensures IsCached(d, NegatedCached(q), Neg(b))
  {
    var v := Val(q.Z);
    var n := Neg(b);
    NegCoordinate(b);
    NegatedSides(d, b.x, n.x, b.y, v);
    CongTrans(Val(q.YminusX), (b.y - b.x) * v, (n.y + n.x) * v);
    CongTrans(Val(q.YplusX), (b.y + b.x) * v, (n.y - n.x) * v);
    NegationStands(q.T2d, 2 * d * (b.x * b.y * v), 2 * d * (n.x * n.y * v));
  }

  lemma NegatedPrecompIs(d: int, q: Precomp, b: Point)
    requires IsPrecomp(d, q, b)
    ensures IsPrecomp(d, NegatedPrecomp(q), Neg(b))
  {
    var n := Neg(b);
    NegCoordinate(b);
    NegatedSides(d, b.x, n.x, b.y, 1);
    CongTrans(Val(q.yminusx), b.y - b.x, n.y + n.x);
    CongTrans(Val(q.yplusx), b.y + b.x, n.y - n.x);
    NegationStands(q.xy2d, 2 * d * (b.x * b.y), 2 * d * (n.x * n.y));
  }

  lemma NegatedBack(f: Fe, c: int)
    requires Stands(FeNegation(f), c) && MulOperand(FeNegation(f))
    ensures Stands(f, -c) && MulOperand(f)
  {
    CongRefl(0);
    CongSub(0, 0, Val(FeNegation(f)), c);
  }

  /** A table entry read with its sides exchanged is the entry of the negated point, up to the
      sign of its last coordinate. */
  lemma NegatedCachedSides(d: int, q: Cached, b: Point) returns (plus: int, minus: int, v: int, e: int)
    requires IsCached(d, q, b)
    ensures Stands(q.YminusX, plus) && Stands(q.YplusX, minus) && Stands(q.Z, v) && Stands(q.T2d, e)
    ensures MulOperand(q.YplusX) && MulOperand(q.YminusX) && MulOperand(q.Z) && MulOperand(q.T2d)
    ensures FlippedSides(d, Neg(b), plus, minus, v, e)
  {
    NegatedCachedIs(d, q, b);
    var c;
    plus, minus, v, c := CachedSides(d, NegatedCached(q), Neg(b));
    NegatedBack(q.T2d, c);
    e := -c;
  }

  method GeSub(r: P1P1, p: P3, q: Cached, ghost d: int, ghost a: Point, ghost b: Point)
    requires EdwardsCurve(d) && OnCurve(d, a) && OnCurve(d, b)
    requires p.Is(a) && IsCached(d, q, b)
    modifies r
    ensures r.Is(Add(d, a, Neg(b)))
  {
    hide MulOperand, Stands, Coordinates, FlippedSides, Neg;
    ghost var x, y, u, t := ExtendedCoordinates(p.X, p.Y, p.Z, p.T, a);
    ghost var plus, minus, v, e := NegatedCachedSides(d, q, b);
    hide UpTo, IsCached, Completed;
    r.X := Plus(p.Y, p.X, 1, 1, y, x);
    r.Y := Minus(p.Y, p.X, 1, 1, y, x);
    r.Z := Times(r.X, q.YminusX, y + x, plus);
    r.Y := Times(r.Y, q.YplusX, y - x, minus);
    r.T := Times(q.T2d, p.T, e, t);
    r.X := Times(p.Z, q.Z, u, v);
    var t0 := Plus(r.X, r.X, 1, 1, u * v, u * v);
    r.X := Minus(r.Z, r.Y, 1, 1, (y + x) * plus, (y - x) * minus);
    r.Y := Plus(r.Z, r.Y, 1, 1, (y + x) * plus, (y - x) * minus);
    r.Z := Minus(t0, r.T, 2, 1, u * v + u * v, e * t);
    r.T := Plus(t0, r.T, 2, 1, u * v + u * v, e * t);
    SubtractStands(r.X, r.Y, r.Z, r.T, d, a, b, x, y, u, t, plus, minus, v, e);
  }

  // ---------- ge25519_madd, ge25519_msub ----------

  lemma PrecompSides(d: int, q: Precomp, b: Point) returns (plus: int, minus: int, c: int)
    requires IsPrecomp(d, q, b)
    ensures Stands(q.yplusx, plus) && Stands(q.yminusx, minus) && Stands(q.xy2d, c)
    ensures MulOperand(q.yplusx) && MulOperand(q.yminusx) && MulOperand(q.xy2d)
    ensures Sides(d, b, plus, minus, 1, c)
  {
    plus, minus, c := b.y + b.x, b.y - b.x, 2 * d * (b.x * b.y);
    OneIsNotZero(1);
    UpToIsOperand(2, q.yplusx);
    UpToIsOperand(2, q.yminusx);
    UpToIsOperand(1, q.xy2d);
  }

  lemma NegatedPrecompSides(d: int, q: Precomp, b: Point) returns (plus: int, minus: int, e: int)
    requires IsPrecomp(d, q, b)
    ensures Stands(q.yminusx, plus) && Stands(q.yplusx, minus) && Stands(q.xy2d, e)
    ensures MulOperand(q.yplusx) && MulOperand(q.yminusx) && MulOperand(q.xy2d)
    ensures FlippedSides(d, Neg(b), plus, minus, 1, e)
  {
    NegatedPrecompIs(d, q, b);
    var c;
    plus, minus, c := PrecompSides(d, NegatedPrecomp(q), Neg(b));
    NegatedBack(q.xy2d, c);
    e := -c;
  }

  method GeMadd(r: P1P1, p: P3, q: Precomp, ghost d: int, ghost a: Point, ghost b: Point)
    requires EdwardsCurve(d) && OnCurve(d, a) && OnCurve(d, b)
    requires p.Is(a) && IsPrecomp(d, q, b)
    modifies r
    ensures r.Is(Add(d, a, b))
  {
    hide MulOperand, Stands, Coordinates, Sides;
    ghost var x, y, u, t := ExtendedCoordinates(p.X, p.Y, p.Z, p.T, a);
    ghost var plus, minus, c := PrecompSides(d, q, b);
    hide UpTo, IsPrecomp, Completed;
    r.X := Plus(p.Y, p.X, 1, 1, y, x);
    r.Y := Minus(p.Y, p.X, 1, 1, y, x);
    r.Z := Times(r.X, q.yplusx, y + x, plus);
    r.Y := Times(r.Y, q.yminusx, y - x, minus);
    r.T := Times(q.xy2d, p.T, c, t);
    var t0 := Plus(p.Z, p.Z, 1, 1, u, u);
    r.X := Minus(r.Z, r.Y, 1, 1, (y + x) * plus, (y - x) * minus);
    r.Y := Plus(r.Z, r.Y, 1, 1, (y + x) * plus, (y - x) * minus);
    r.Z := Plus(t0, r.T, 2, 1, u + u, c * t);
    r.T := Minus(t0, r.T, 2, 1, u + u, c * t);
    AddStands(r.X, r.Y, r.Z, r.T, d, a, b, x, y, u, t, plus, minus, 1, c);
  }

  method GeMsub(r: P1P1, p: P3, q: Precomp, ghost d: int, ghost a: Point, ghost b: Point)
    requires EdwardsCurve(d) && OnCurve(d, a) && OnCurve(d, b)
    requires p.Is(a) && IsPrecomp(d, q, b)
    modifies r
    ensures r.Is(Add(d, a, Neg(b)))
  {
    hide MulOperand, Stands, Coordinates, FlippedSides, Neg;
    ghost var x, y, u, t := ExtendedCoordinates(p.X, p.Y, p.Z, p.T, a);
    ghost var plus, minus, e := NegatedPrecompSides(d, q, b);
    hide UpTo, IsPrecomp, Completed;
    r.X := Plus(p.Y, p.X, 1, 1, y, x);
    r.Y := Minus(p.Y, p.X, 1, 1, y, x);
    r.Z := Times(r.X, q.yminusx, y + x, plus);
    r.Y := Times(r.Y, q.yplusx, y - x, minus);
    r.T := Times(q.xy2d, p.T, e, t);
    var t0 := Plus(p.Z, p.Z, 1, 1, u, u);
    r.X := Minus(r.Z, r.Y, 1, 1, (y + x) * plus, (y - x) * minus);
    r.Y := Plus(r.Z, r.Y, 1, 1, (y + x) * plus, (y - x) * minus);
    r.Z := Minus(t0, r.T, 2, 1, u + u, e * t);
    r.T := Plus(t0, r.T, 2, 1, u + u, e * t);
    SubtractStands(r.X, r.Y, r.Z, r.T, d, a, b, x, y, u, t, plus, minus, 1, e);
  }

  // ---------- Doubling ----------

  lemma ProjectiveCoordinates(X: Fe, Y: Fe, Z: Fe, a: Point) returns (x: int, y: int, u: int)
    requires Projective(X, Y, Z, a)
    ensures Stands(X, x) && Stands(Y, y) && Stands(Z, u)
    ensures MulOperand(X) && MulOperand(Y) && MulOperand(Z)
    ensures Coordinates(a, x, y, u, a.x * a.y * u)
  {
    u := Val(Z);
    x, y := a.x * u, a.y * u;
    ValStands(Z);
    UpToIsOperand(1, X);
    UpToIsOperand(1, Y);
    UpToIsOperand(1, Z);
  }

  lemma DoubleIdentity(x: int, y: int, u: int)
    ensures x * u * (x * u) == x * x * (u * u) && y * u * (y * u) == y * y * (u * u)
    ensures (x * u + y * u) * (x * u + y * u) == (x * x + 2 * (x * y) + y * y) * (u * u)
  {
    Exchange(x, u, x, u);
    Exchange(y, u, y, u);
    Exchange(x + y, u, x + y, u);
    SquareOfSum(x, y);
    assert x * u + y * u == (x + y) * u;
  }

  /** On the curve, y^2 - x^2 is the denominator of the doubled x. */
  lemma DoubleDenominators(d: int, a: Point, w: int)
    requires EdwardsCurve(d) && OnCurve(d, a)
    ensures Cong((a.y * a.y - a.x * a.x) * w, DenX(d, a, a) * w)
    ensures Cong((2 - (a.y * a.y - a.x * a.x)) * w, DenY(d, a, a) * w)
  {
    OnCurveMeans(d, a);
    Exchange(a.x, a.y, a.x, a.y);
    var s, t := a.y * a.y - a.x * a.x, DenX(d, a, a);
    CongRefl(w);
    CongMul(s, t, w, w);
    CongRefl(2);
    CongSub(2, 2, s, t);
    CongMul(2 - s, 2 - t, w, w);
  }

  lemma DoubleStands(X: Fe, Y: Fe, Z: Fe, T: Fe, d: int, a: Point, x: int, y: int, u: int)
    requires EdwardsCurve(d) && OnCurve(d, a)
    requires Coordinates(a, x, y, u, a.x * a.y * u)
    requires MulOperand(X) && MulOperand(Y) && MulOperand(Z) && MulOperand(T)
    requires Stands(X, (x + y) * (x + y) - (y * y + x * x)) && Stands(Y, y * y + x * x)
    requires Stands(Z, y * y - x * x) && Stands(T, 2 * (u * u) - (y * y - x * x))
    ensures Completed(X, Y, Z, T, Add(d, a, a))
  {
    hide MulOperand, DenX, DenY;
    var p, q, w := a.x, a.y, u * u;
    DoubleIdentity(p, q, u);
    DoubleDenominators(d, a, w);
    CurvePrime(d);
    NonZeroProduct(u, u);
    var pp, qq, pq := p * p, q * q, p * q;
    DistributeDouble(pp, qq, pq, w);
    assert NumX(a, a) == 2 * pq && NumY(a, a) == qq + pp;
    CongTrans(Val(Z), (qq - pp) * w, DenX(d, a, a) * w);
    CongTrans(Val(T), (2 - (qq - pp)) * w, DenY(d, a, a) * w);
    CompletedSum(X, Y, Z, T, d, a, a, w);
  }

  lemma DistributeDouble(pp: int, qq: int, pq: int, w: int)
    ensures (pp + 2 * pq + qq) * w - (qq * w + pp * w) == 2 * pq * w
    ensures qq * w + pp * w == (qq + pp) * w && qq * w - pp * w == (qq - pp) * w
    ensures 2 * w - (qq * w - pp * w) == (2 - (qq - pp)) * w
  {
  }

  method GeP2Dbl(r: P1P1, p: P2, ghost d: int, ghost a: Point)
    requires EdwardsCurve(d) && OnCurve(d, a)
    requires p.Is(a)
    modifies r
    ensures r.Is(Add(d, a, a))
  {
    hide MulOperand, Stands, Coordinates;
    ghost var x, y, u := ProjectiveCoordinates(p.X, p.Y, p.Z, a);
    hide UpTo, Completed;
    r.X := Squared(p.X, x);
    r.Z := Squared(p.Y, y);
    r.T := SquaredTwice(p.Z, u);
    r.Y := Plus(p.X, p.Y, 1, 1, x, y);
    var t0 := Squared(r.Y, x + y);
    r.Y := Plus(r.Z, r.X, 1, 1, y * y, x * x);
    r.Z := Minus(r.Z, r.X, 1, 1, y * y, x * x);
    r.X := Minus(t0, r.Y, 1, 2, (x + y) * (x + y), y * y + x * x);
    r.T := Minus(r.T, r.Z, 1, 2, 2 * (u * u), y * y - x * x);
    DoubleStands(r.X, r.Y, r.Z, r.T, d, a, x, y, u);
  }

  method Squared(f: Fe, ghost x: int) returns (h: Fe)
    requires MulOperand(f) && Stands(f, x)
    ensures UpTo(1, h) && MulOperand(h) && Stands(h, x * x)
  {
    h := FeSq(f, x);
    UpToIsOperand(1, h);
  }

  method SquaredTwice(f: Fe, ghost x: int) returns (h: Fe)
    requires MulOperand(f) && Stands(f, x)
    ensures UpTo(1, h) && MulOperand(h) && Stands(h, 2 * (x * x))
  {
    h := FeSq2(f, x);
    UpToIsOperand(1, h);
  }

  method GeP3Dbl(r: P1P1, p: P3, ghost d: int, ghost a: Point)
    requires EdwardsCurve(d) && OnCurve(d, a)
    requires p.Is(a)
    modifies r
    ensures r.Is(Add(d, a, a))
  {
    var q := new P2();
    GeP3ToP2(q, p, a);
    GeP2Dbl(r, q, d, a);
  }

  // ---------- Conversions ----------

  method GeP3ToP2(r: P2, p: P3, ghost a: Point)
    requires p.Is(a)
    modifies r
    ensures r.Is(a)
  {
    r.X := p.X;
    r.Y := p.Y;
    r.Z := p.Z;
  }

  /** X = x z and Y = y t: the products X T, Y Z, Z T and X Y are the coordinates at Z = z t. */
  lemma CompletedProducts(X: Fe, Y: Fe, Z: Fe, d: int, a: Point, z: int, t: int)
    requires EdwardsCurve(d) && !Cong(z, 0) && !Cong(t, 0)
    requires UpTo(1, X) && UpTo(1, Y) && UpTo(1, Z)
    requires Stands(X, a.x * z * t) && Stands(Y, a.y * t * z) && Stands(Z, z * t)
    ensures Projective(X, Y, Z, a)
    ensures Cong(a.x * z * (a.y * t), a.x * a.y * Val(Z))
  {
    CurvePrime(d);
    NonZeroProduct(z, t);
    CongSym(Val(Z), z * t);
    NonZeroCong(z * t, Val(Z));
    CongScale(a.x, z * t, Val(Z));
    CongScale(a.y, z * t, Val(Z));
    CongScale(a.x * a.y, z * t, Val(Z));
    Exchange(a.x, z, a.y, t);
    assert a.x * z * t == a.x * (z * t) && a.y * t * z == a.y * (z * t);
    CongTrans(Val(X), a.x * (z * t), a.x * Val(Z));
    CongTrans(Val(Y), a.y * (z * t), a.y * Val(Z));
  }

  method GeP1P1ToP2(r: P2, p: P1P1, ghost d: int, ghost a: Point)
    requires EdwardsCurve(d) && p.Is(a)
    modifies r
    ensures r.Is(a)
  {
    ghost var z, t := Val(p.Z), Val(p.T);
    ValStands(p.Z);
    ValStands(p.T);
    hide UpTo, MulOperand, Stands;
    r.X := Times(p.X, p.T, a.x * z, t);
    r.Y := Times(p.Y, p.Z, a.y * t, z);
    r.Z := Times(p.Z, p.T, z, t);
    CompletedProducts(r.X, r.Y, r.Z, d, a, z, t);
  }

  method GeP1P1ToP3(r: P3, p: P1P1, ghost d: int, ghost a: Point)
    requires EdwardsCurve(d) && p.Is(a)
    modifies r
    ensures r.Is(a)
  {
    ghost var z, t := Val(p.Z), Val(p.T);
    ValStands(p.Z);
    ValStands(p.T);
    hide UpTo, MulOperand;
    r.X := Times(p.X, p.T, a.x * z, t);
    r.Y := Times(p.Y, p.Z, a.y * t, z);
    r.Z := Times(p.Z, p.T, z, t);
    r.T := Times(p.X, p.Y, a.x * z, a.y * t);
    CompletedProducts(r.X, r.Y, r.Z, d, a, z, t);
    CongTrans(Val(r.T), a.x * z * (a.y * t), a.x * a.y * Val(r.Z));
  }

  lemma CachedForms(d: int, a: Point, u: int)
    ensures a.y * u + a.x * u == (a.y + a.x) * u && a.y * u - a.x * u == (a.y - a.x) * u
    ensures a.x * a.y * u * (2 * d) == 2 * d * (a.x * a.y * u)
  {
  }

  method GeP3ToCached(p: P3, ghost d: int, ghost a: Point) returns (r: Cached)
    requires EdwardsCurve(d) && p.Is(a)
    ensures IsCached(d, r, a)
  {
    ghost var u := Val(p.Z);
    StandsForTwiceD(d);
    UpToIsOperand(1, p.T);
    assert MulOperand(FE_D2);
    hide UpTo, MulOperand, Stands;
    var plus := Plus(p.Y, p.X, 1, 1, a.y * u, a.x * u);
    var minus := Minus(p.Y, p.X, 1, 1, a.y * u, a.x * u);
    var t2d := Times(p.T, FE_D2, a.x * a.y * u, 2 * d);
    CachedForms(d, a, u);
    r := Cached(plus, minus, p.Z, t2d);
  }

  // ---------- The neutral element ----------

  lemma OneIsNotZero(n: int)
    requires n == 1
    ensures Cong(n, 1) && !Cong(n, 0)
  {
    CongRefl(1);
    if Cong(n, 0) {
      CongSmall(n, 0);
    }
  }

  lemma OneStands(one: Fe)
    requires Val(one) == 1
    ensures Val(one) == 1 && !Cong(Val(one), 0) && Stands(one, 1)
  {
    ValStands(one);
    OneIsNotZero(Val(one));
  }

  lemma ZeroStands(zero: Fe)
    requires Val(zero) == 0
    ensures Stands(zero, 0)
  {
    CongRefl(0);
  }

  lemma OneValue(f: Fe)
    requires f == FeOne
    ensures Val(f) == 1 && UpTo(1, f) && UpTo(2, f)
  {
    assert UpTo(1, f) && UpTo(2, f);
    hide UpTo;
    ValIs(f);
  }

  lemma ZeroValue(f: Fe)
    requires f == FeZero
    ensures Val(f) == 0 && UpTo(1, f)
  {
    assert UpTo(1, f);
    hide UpTo;
    ValIs(f);
  }

  lemma NothingTimes(d: int, x: int, y: int, m: int)
    requires x == 0
    ensures x * m == 0 && x * y * m == 0 && 2 * d * (x * y * m) == 0 && 2 * d * (x * y) == 0
  {
  }

  lemma ZeroExtended(one: Fe, zero: Fe, a: Point)
    requires Val(one) == 1 && Val(zero) == 0 && UpTo(1, one) && UpTo(1, zero) && a == Zero
    ensures Extended(zero, one, one, zero, a) && Projective(zero, one, one, a)
  {
    OneStands(one);
    ZeroStands(zero);
    NothingTimes(0, a.x, a.y, Val(one));
    hide Stands, UpTo;
  }

  method GeP2Zero(h: P2)
    modifies h
    ensures h.Is(Zero)
  {
    hide Stands, UpTo, Extended, Projective;
    h.X := FeZero;
    h.Y := FeOne;
    h.Z := FeOne;
    OneValue(h.Z);
    ZeroValue(h.X);
    ZeroExtended(h.Z, h.X, Zero);
  }

  method GeP3Zero(h: P3)
    modifies h
    ensures h.Is(Zero)
  {
    hide Stands, UpTo, Extended, Projective;
    h.X := FeZero;
    h.Y := FeOne;
    h.Z := FeOne;
    h.T := FeZero;
    OneValue(h.Z);
    ZeroValue(h.X);
    ZeroExtended(h.Z, h.X, Zero);
  }

  const CachedZero := Cached(FeOne, FeOne, FeOne, FeZero)
  const PrecompZero := Precomp(FeOne, FeOne, FeZero)

  lemma UnitCached(d: int, one: Fe, zero: Fe, b: Point)
    requires Val(one) == 1 && Val(zero) == 0 && UpTo(1, one) && UpTo(2, one) && UpTo(1, zero) && b == Zero
    ensures IsCached(d, Cached(one, one, one, zero), b) && IsPrecomp(d, Precomp(one, one, zero), b)
  {
    OneStands(one);
    ZeroStands(zero);
    NothingTimes(d, b.x, b.y, Val(one));
    hide Stands, UpTo;
  }

  lemma ZeroEntries(d: int, q: Cached, p: Precomp)
    requires q == CachedZero && p == PrecompZero
    ensures IsCached(d, q, Zero) && IsPrecomp(d, p, Zero)
  {
    hide IsCached, IsPrecomp;
    OneValue(q.Z);
    ZeroValue(q.T2d);
    UnitCached(d, q.Z, q.T2d, Zero);
  }
}
