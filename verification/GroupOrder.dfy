/** The order of the curve, from a base point of order L alone: with a point of order 8 it generates
    8 L multiples, there are at most 2 p < 16 L curve points, and so the multiples are all of them. */
module GroupOrder {
  import opened Arithmetic
  import opened Residues
  import opened NonSquare
  import opened SquareRoots
  import opened Edwards
  import opened EdwardsGroup
  import opened ScalarLimbs
  import opened PointEncoding
  import opened SmallOrder

  ghost predicate KilledBy(d: int, n: int, a: Point) {
    Mul(d, n, a) == Zero
  }

  /** The base point is on the curve and has order L. */
  ghost predicate GroupOrders(d: int, base: Point) {
    && OnCurve(d, base) && KilledBy(d, L, base)
    && (forall n {:trigger KilledBy(d, n, base)} :: 0 < n < L ==> !KilledBy(d, n, base))
  }

  // ---------- Multiples ----------

  lemma {:induction false} ZeroMultiples(d: int, n: nat)
    requires EdwardsCurve(d)
    ensures Mul(d, n, Zero) == Zero
  {
    ZeroOnCurve(d);
    if n == 0 {
      MulZero(d, Zero);
    } else {
      ZeroMultiples(d, n - 1);
      MulStep(d, n - 1, Zero);
      AddZero(d, Zero);
    }
  }

  lemma MultipleOfKiller(d: int, q: nat, m: nat, a: Point)
    requires EdwardsCurve(d) && OnCurve(d, a) && KilledBy(d, m, a)
    ensures q * m >= 0 && KilledBy(d, q * m, a)
  {
    MulMulNat(d, q, m, a);
    ZeroMultiples(d, q);
  }

  /** Multiples of a point killed by m only depend on the scalar modulo m. */
  lemma MulMod(d: int, n: nat, m: nat, a: Point)
    requires EdwardsCurve(d) && OnCurve(d, a) && m > 0 && KilledBy(d, m, a)
    ensures Mul(d, n % m, a) == Mul(d, n, a)
  {
    MultipleOfKiller(d, n / m, m, a);
    QuotientTimes(n, m, n / m);
    MulAdd(d, n % m, n / m * m, a);
    MulOnCurve(d, n % m, a);
    AddZero(d, Mul(d, n % m, a));
  }

  lemma QuotientTimes(n: nat, m: nat, q: int)
    requires m > 0 && q == n / m
    ensures n == n % m + q * m && q >= 0
  {
  }

  lemma Interchange(d: int, x: Point, y: Point, u: Point, v: Point)
    requires EdwardsCurve(d) && OnCurve(d, x) && OnCurve(d, y) && OnCurve(d, u) && OnCurve(d, v)
    ensures Add(d, Add(d, x, y), Add(d, u, v)) == Add(d, Add(d, x, u), Add(d, y, v))
  {
    SumOnCurve(d, u, v);
    SumOnCurve(d, y, v);
    AddAssociates(d, x, y, Add(d, u, v));
    AddAssociates(d, y, u, v);
    AddCommutes(d, y, u);
    AddAssociates(d, u, y, v);
    AddAssociates(d, x, u, Add(d, y, v));
  }

  lemma {:induction false} MulOfSum(d: int, k: nat, a: Point, b: Point)
    requires EdwardsCurve(d) && OnCurve(d, a) && OnCurve(d, b)
    ensures Mul(d, k, Add(d, a, b)) == Add(d, Mul(d, k, a), Mul(d, k, b))
  {
    SumOnCurve(d, a, b);
    if k == 0 {
      MulZero(d, a);
      MulZero(d, b);
      MulZero(d, Add(d, a, b));
      ZeroOnCurve(d);
      AddZero(d, Zero);
    } else {
      MulOfSum(d, k - 1, a, b);
      MulStep(d, k - 1, a);
      MulStep(d, k - 1, b);
      MulStep(d, k - 1, Add(d, a, b));
      MulOnCurve(d, k - 1, a);
      MulOnCurve(d, k - 1, b);
      Interchange(d, Mul(d, k - 1, a), Mul(d, k - 1, b), a, b);
    }
  }

  // ---------- A point of order 8 ----------

  /** On the curve with y^2 = -x^2. */
  const Torsion := Point(Canon(I * C), C)

  /** On such a y, i y is an x coordinate for a root i of -1. */
  lemma RootTimes(d: int, y: int, i: int)
    requires Cong(Quartic(d, y * y), 0) && Cong(i * i, -1)
    ensures IsRoot(y * y - 1, y * y * d + 1, i * y)
  {
    var w := y * y;
    Exchange(i, y, i, y);
    CongRefl(w);
    CongMul(i * i, -1, w, w);
    CongScale(w * d + 1, i * i * w, -1 * w);
    QuarticIs(d, w);
    CongRefl(w - 1);
    CongSub(w - 1, w - 1, Quartic(d, w), 0);
    hide Quartic;
    CongTrans((w * d + 1) * (i * i * w), (w * d + 1) * (-1 * w), w - 1);
  }

  lemma QuarticIs(d: int, w: int)
    ensures w - 1 - Quartic(d, w) == (w * d + 1) * (-1 * w)
  {
  }

  lemma TorsionOnCurve(d: int)
    requires EdwardsCurve(d)
    ensures OnCurve(d, Torsion)
  {
    ListedRoots(d, C);
    RootOfMinusOne();
    RootTimes(d, C, I);
    OppositeOfC();
    CongRefl(C);
    CanonUnique(C, C);
    hide Quartic, IsRoot;
    RootGivesPoint(d, I * C, C);
  }

  lemma TorsionOrder(d: int)
    requires EdwardsCurve(d)
    ensures OnCurve(d, Torsion) && KilledBy(d, 8, Torsion) && !KilledBy(d, 4, Torsion)
  {
    TorsionOnCurve(d);
    var b := Add(d, Torsion, Torsion);
    SmallOrderIff(d, Torsion);
    ListedRoots(d, C);
    DoubleHasNoY(d, Torsion);
    Doubled(d, Torsion);
    DoubleIsMinus(d, b);
    Doubled(d, b);
    MulMulNat(d, 2, 2, Torsion);
  }

  /** No multiple below the eighth vanishes. */
  lemma TorsionSurvives(d: int, j: nat)
    requires EdwardsCurve(d) && 0 < j < 8
    ensures !KilledBy(d, j, Torsion)
  {
    TorsionOrder(d);
    if KilledBy(d, j, Torsion) {
      var k := FourOf(j);
      MultipleOfKiller(d, k, j, Torsion);
      MulMod(d, k * j, 8, Torsion);
    }
  }

  lemma FourOf(j: nat) returns (k: nat)
    requires 0 < j < 8
    ensures k * j >= 0 && k * j % 8 == 4
  {
    k := if j % 2 == 1 then 4 else if j == 4 then 1 else 2;
  }

  // ---------- A point of order 8 L ----------

  function Generator(d: int, base: Point): Point {
    Add(d, base, Torsion)
  }

  lemma GeneratorMultiple(d: int, base: Point, k: nat)
    requires EdwardsCurve(d) && OnCurve(d, base)
    ensures OnCurve(d, Torsion) && OnCurve(d, Generator(d, base))
    ensures Mul(d, k, Generator(d, base)) == Add(d, Mul(d, k, base), Mul(d, k, Torsion))
  {
    TorsionOnCurve(d);
    SumOnCurve(d, base, Torsion);
    MulOfSum(d, k, base, Torsion);
  }

  lemma GeneratorKilled(d: int, base: Point)
    requires EdwardsCurve(d) && GroupOrders(d, base)
    ensures KilledBy(d, 8 * L, Generator(d, base))
  {
    GeneratorMultiple(d, base, 8 * L);
    TorsionOrder(d);
    MultipleOfKiller(d, 8, L, base);
    MultipleOfKiller(d, L, 8, Torsion);
    ZeroOnCurve(d);
    AddZero(d, Zero);
  }

  /** L is 5 modulo 8. */
  lemma LOverEight(k: int)
    requires 8 * k % L == 0
    ensures k % L == 0
  {
    var q := 8 * k / L;
    assert 8 * k == L * q;
    assert L == 8 * (L / 8) + 5;
    assert 8 * (k - L / 8 * q) == 5 * q;
    assert q % 8 == 0;
    assert k == L * (q / 8);
  }

  lemma LTimes(j: int)
    requires 0 < j < 8
    ensures 0 < L * j % 8 < 8
  {
  }

  lemma GeneratorInBase(d: int, base: Point, k: nat)
    requires EdwardsCurve(d) && GroupOrders(d, base) && KilledBy(d, k, Generator(d, base))
    ensures k % L == 0
  {
    var g := Generator(d, base);
    GeneratorMultiple(d, base, 8 * k);
    TorsionOrder(d);
    MultipleOfKiller(d, 8, k, g);
    MultipleOfKiller(d, k, 8, Torsion);
    MulOnCurve(d, 8 * k, base);
    AddZero(d, Mul(d, 8 * k, base));
    MulMod(d, 8 * k, L, base);
    assert KilledBy(d, 8 * k % L, base);
    LOverEight(k);
  }

  lemma GeneratorSurvives(d: int, base: Point, k: nat)
    requires EdwardsCurve(d) && GroupOrders(d, base) && 0 < k < 8 * L
    ensures !KilledBy(d, k, Generator(d, base))
  {
    if KilledBy(d, k, Generator(d, base)) {
      GeneratorInBase(d, base, k);
      var j := k / L;
      QuotientTimes(k, L, j);
      GeneratorMultiple(d, base, k);
      MultipleOfKiller(d, j, L, base);
      MulOnCurve(d, k, Torsion);
      AddZero(d, Mul(d, k, Torsion));
      TorsionOrder(d);
      MulMod(d, k, 8, Torsion);
      assert k == L * j;
      LTimes(j);
      TorsionSurvives(d, k % 8);
    }
  }

  // ---------- Counting points ----------

  /** A number below 2 p for every curve point. */
  function Code(a: Point): int {
    2 * a.y + a.x % 2
  }

  lemma CodeIsUnique(d: int, a: Point, b: Point)
    requires EdwardsCurve(d) && OnCurve(d, a) && OnCurve(d, b) && Code(a) == Code(b)
    ensures a == b
  {
    OnCurveMeans(d, a);
    OnCurveMeans(d, b);
    assert a.y == b.y && a.x % 2 == b.x % 2;
    SameRoots(d, a, b);
    if Cong(a.x, b.x) {
      CongSmall(a.x, b.x);
    } else if a.x == 0 {
      CongScale(-1, 0, -b.x);
      CongSmall(0, b.x);
    } else if b.x == 0 {
      CongSmall(a.x, 0);
    } else {
      OppositeParity(a.x, b.x);
    }
  }

  ghost predicate Injective(f: int -> int, n: nat) {
    forall i, j :: 0 <= i < j < n ==> f(i) != f(j)
  }

  ghost function Image(f: int -> int, n: nat): set<int> {
    set i | 0 <= i < n :: f(i)
  }

  lemma ImageStep(f: int -> int, n: nat)
    requires n > 0
    ensures Image(f, n) == Image(f, n - 1) + {f(n - 1)}
  {
    forall x | x in Image(f, n) ensures x in Image(f, n - 1) + {f(n - 1)} {
      var i :| 0 <= i < n && f(i) == x;
    }
  }

  lemma {:induction false} ImageSize(f: int -> int, n: nat)
    requires Injective(f, n)
    ensures |Image(f, n)| == n
  {
    if n > 0 {
      ImageSize(f, n - 1);
      ImageStep(f, n);
      assert f(n - 1) !in Image(f, n - 1);
    } else {
      assert Image(f, n) == {};
    }
  }

  lemma {:induction false} RangeSize(s: set<int>, m: nat)
    requires forall x :: x in s ==> 0 <= x < m
    ensures |s| <= m
  {
    if m == 0 {
      assert forall x :: x in s ==> x in {};
      assert s <= {};
    } else {
      RangeSize(s - {m - 1}, m - 1);
    }
  }

  lemma Pigeonhole(f: int -> int, n: nat, m: nat)
    requires Injective(f, n) && forall i :: 0 <= i < n ==> 0 <= f(i) < m
    ensures n <= m
  {
    ImageSize(f, n);
    RangeSize(Image(f, n), m);
  }

  // ---------- Every point is a multiple of the generator ----------

  lemma CancelLeft(d: int, x: Point, y: Point, z: Point)
    requires EdwardsCurve(d) && OnCurve(d, x) && OnCurve(d, y) && OnCurve(d, z) && Add(d, x, y) == Add(d, x, z)
    ensures y == z
  {
    AddCommutes(d, x, y);
    AddCommutes(d, x, z);
    AddThenSubtract(d, y, x);
    AddThenSubtract(d, z, x);
  }

  lemma MultiplesDiffer(d: int, g: Point, i: nat, j: nat)
    requires EdwardsCurve(d) && OnCurve(d, g) && i < j && !KilledBy(d, j - i, g)
    ensures Mul(d, i, g) != Mul(d, j, g)
  {
    if Mul(d, i, g) == Mul(d, j, g) {
      MulAdd(d, i, j - i, g);
      MulOnCurve(d, i, g);
      MulOnCurve(d, j - i, g);
      ZeroOnCurve(d);
      AddZero(d, Mul(d, i, g));
      CancelLeft(d, Mul(d, i, g), Mul(d, j - i, g), Zero);
    }
  }

  /** The multiples of g, and then those multiples with a added. */
  function Coset(d: int, g: Point, a: Point, i: int): Point {
    if i < 8 * L then Mul(d, i, g) else Add(d, a, Mul(d, i - 8 * L, g))
  }

  ghost predicate IsMultiple(d: int, g: Point, a: Point) {
    exists n :: 0 <= n < 8 * L && Mul(d, n, g) == a
  }

  /** A sum that is a multiple has a multiple for its other part. */
  lemma MultipleFromSum(d: int, g: Point, a: Point, i: nat, j: nat)
    requires EdwardsCurve(d) && OnCurve(d, g) && OnCurve(d, a) && KilledBy(d, 8 * L, g) && i < 8 * L && j < 8 * L
    requires Mul(d, i, g) == Add(d, a, Mul(d, j, g))
    ensures IsMultiple(d, g, a)
  {
    var n := if i >= j then i - j else i - j + 8 * L;
    MulOnCurve(d, j, g);
    MulOnCurve(d, n, g);
    MulOnCurve(d, i, g);
    MulAdd(d, n, j, g);
    if i < j {
      MulAdd(d, i, 8 * L, g);
      AddZero(d, Mul(d, i, g));
      assert n + j == i + 8 * L;
    }
    AddCommutes(d, a, Mul(d, j, g));
    AddCommutes(d, Mul(d, n, g), Mul(d, j, g));
    CancelLeft(d, Mul(d, j, g), a, Mul(d, n, g));
  }

  lemma CosetOnCurve(d: int, g: Point, a: Point, i: nat)
    requires EdwardsCurve(d) && OnCurve(d, g) && OnCurve(d, a)
    ensures OnCurve(d, Coset(d, g, a, i)) && 0 <= Code(Coset(d, g, a, i)) < 2 * P
  {
    MulOnCurve(d, i, g);
    MulOnCurve(d, i - 8 * L, g);
    SumOnCurve(d, a, Mul(d, i - 8 * L, g));
    OnCurveMeans(d, Coset(d, g, a, i));
  }

  ghost predicate HasOrder(d: int, g: Point) {
    OnCurve(d, g) && KilledBy(d, 8 * L, g) && forall k :: 0 < k < 8 * L ==> !KilledBy(d, k, g)
  }

  lemma CosetDiffers(d: int, g: Point, a: Point, i: nat, j: nat)
    requires EdwardsCurve(d) && HasOrder(d, g) && OnCurve(d, a) && !IsMultiple(d, g, a) && i < j < 16 * L
    ensures Coset(d, g, a, i) != Coset(d, g, a, j)
  {
    if j < 8 * L {
      MultiplesDiffer(d, g, i, j);
    } else if i < 8 * L {
      if Mul(d, i, g) == Add(d, a, Mul(d, j - 8 * L, g)) {
        MultipleFromSum(d, g, a, i, j - 8 * L);
      }
    } else {
      MultiplesDiffer(d, g, i - 8 * L, j - 8 * L);
      MulOnCurve(d, i - 8 * L, g);
      MulOnCurve(d, j - 8 * L, g);
      if Coset(d, g, a, i) == Coset(d, g, a, j) {
        CancelLeft(d, a, Mul(d, i - 8 * L, g), Mul(d, j - 8 * L, g));
      }
    }
  }

  /** 16 L points would be too many. */
  lemma OneCoset(d: int, g: Point, a: Point)
    requires EdwardsCurve(d) && HasOrder(d, g) && OnCurve(d, a)
    ensures IsMultiple(d, g, a)
  {
    if !IsMultiple(d, g, a) {
      var f := (i: int) => Code(Coset(d, g, a, i));
      hide Code, Coset;
      forall i, j | 0 <= i < j < 16 * L ensures f(i) != f(j) {
        CosetOnCurve(d, g, a, i);
        CosetOnCurve(d, g, a, j);
        CosetDiffers(d, g, a, i, j);
        if f(i) == f(j) {
          CodeIsUnique(d, Coset(d, g, a, i), Coset(d, g, a, j));
        }
      }
      forall i | 0 <= i < 16 * L ensures 0 <= f(i) < 2 * P {
        CosetOnCurve(d, g, a, i);
      }
      Pigeonhole(f, 16 * L, 2 * P);
    }
  }

  /** The curve has exponent 8 L. */
  lemma CurveExponent(d: int, base: Point, a: Point)
    requires EdwardsCurve(d) && GroupOrders(d, base) && OnCurve(d, a)
    ensures KilledBy(d, 8 * L, a)
  {
    var g := Generator(d, base);
    GeneratorMultiple(d, base, 0);
    GeneratorKilled(d, base);
    forall k | 0 < k < 8 * L ensures !KilledBy(d, k, g) {
      GeneratorSurvives(d, base, k);
    }
    OneCoset(d, g, a);
    var n :| 0 <= n < 8 * L && Mul(d, n, g) == a;
    MultipleOfKiller(d, n, 8 * L, g);
    MulMulNat(d, 8 * L, n, g);
    assert 8 * L * n == n * (8 * L);
  }
}
