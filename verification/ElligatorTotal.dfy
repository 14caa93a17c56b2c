/** The Elligator map never aborts: every octet string maps to a point of the curve. */
module ElligatorTotal {
  import opened Arithmetic
  import opened Bytes
  import opened Residues
  import opened PrimeField
  import opened NonSquare
  import opened SquareRoots
  import opened FieldBytes
  import opened Edwards
  import EdwardsGroup
  import opened PointEncoding
  import opened PointStrings
  import opened Elligator

  const HALF: int := (P - 1) / 2

  // ---------- Euler's criterion ----------

  /** The product of the exponents (p - 1) / 4 and (p + 3) / 8, doubled. */
  lemma RootPowers(z: int)
    ensures Pow(z, (P - 1) / 4) * Pow(z, (P - 1) / 4) == Pow(z, HALF)
    ensures Pow(z, (P + 3) / 8) * Pow(z, (P + 3) / 8) == z * Pow(z, (P - 1) / 4)
  {
    PowAdd(z, (P - 1) / 4, (P - 1) / 4);
    PowAdd(z, (P + 3) / 8, (P + 3) / 8);
    assert (P + 3) / 8 + (P + 3) / 8 == (P - 1) / 4 + 1;
  }

  /** An element with character 1 has a root. */
  lemma EulerRoot(z: int) returns (r: int)
    requires PIsPrime() && Cong(Pow(z, HALF), 1)
    ensures Cong(r * r, z)
  {
    RootPowers(z);
    hide Pow;
    var t := Pow(z, (P - 1) / 4);
    r := Pow(z, (P + 3) / 8);
    SquareOneOrMinusOne(t);
    if Cong(t, 1) {
      CongScale(z, t, 1);
    } else {
      RootOfMinusOne();
      CongScale(z, t, -1);
      CongMul(r * r, -z, I * I, -1);
      Exchange(r, I, r, I);
      r := r * I;
    }
  }

  lemma CharacterOfTwo()
    requires PIsPrime()
    ensures Cong(Pow(2, HALF), -1)
  {
    SmallNonZero(2);
    HalfPower(2);
    hide Pow;
    if Cong(Pow(2, HALF), 1) {
      var r := EulerRoot(2);
      TwoIsNoSquare(r);
    }
  }

  lemma CharacterOfSquare(r: int)
    requires PIsPrime() && !Cong(r, 0)
    ensures Cong(Pow(r * r, HALF), 1)
  {
    SquaredPower(r, HALF);
    assert FermatAt(r);
    assert 2 * HALF == P - 1;
  }

  /** Twice a square times a non-square is a square. */
  lemma CharacterFlips(r: int, g: int)
    requires PIsPrime() && !Cong(r, 0) && Cong(Pow(g, HALF), -1)
    ensures Cong(Pow(2 * (r * r) * g, HALF), 1)
  {
    PowOfProduct(2 * (r * r), g, HALF);
    PowOfProduct(2, r * r, HALF);
    CharacterOfTwo();
    CharacterOfSquare(r);
    var two, square := Pow(2, HALF), Pow(r * r, HALF);
    CongMul(two, -1, square, 1);
    CongMul(two * square, -1, Pow(g, HALF), -1);
  }

  // ---------- The curve test of the chosen x ----------

  /** 2 r^2 + 1 is never zero: 2 would be a square. */
  lemma DenominatorIsUnit(r: int)
    requires PIsPrime()
    ensures !Cong(2 * (r * r) + 1, 0)
  {
    if Cong(2 * (r * r) + 1, 0) {
      CongRefl(-1);
      CongAdd(2 * (r * r) + 1, 0, -1, -1);
      if Cong(r, 0) {
        CongMul(r, 0, r, 0);
        CongScale(2, r * r, 0);
        CongSym(2 * (r * r), -1);
        CongTrans(-1, 2 * (r * r), 0);
        SmallNonZero(-1);
      } else {
        RootOfMinusOne();
        CongSym(2 * (r * r), -1);
        CongTrans(I * I, -1, 2 * (r * r));
        RatioIsRoot(2, I, r);
        TwoIsNoSquare(I * Inv(r));
      }
    }
  }

  /** -x - A = 2 r^2 x. */
  lemma OtherX(r: int)
    requires PIsPrime()
    ensures Cong(-FirstX(r) - MONTGOMERY_A, 2 * (r * r) * FirstX(r))
  {
    var n, j := 2 * (r * r) + 1, Inv(2 * (r * r) + 1);
    DenominatorIsUnit(r);
    InverseWorks(n);
    CongScale(-MONTGOMERY_A, n * j, 1);
    assert -MONTGOMERY_A * (n * j) == n * FirstX(r);
    CongSym(n * FirstX(r), -MONTGOMERY_A);
    CongRefl(-FirstX(r));
    CongAdd(-FirstX(r), -FirstX(r), -MONTGOMERY_A, n * FirstX(r));
    assert -FirstX(r) + n * FirstX(r) == 2 * (r * r) * FirstX(r);
  }

  /** x^2 + A x + 1. */
  function Cofactor(x: int): int {
    x * x + MONTGOMERY_A * x + 1
  }

  lemma CurveTestIs(x: int)
    ensures CurveTest(x) == x * Cofactor(x)
    ensures Cofactor(-x - MONTGOMERY_A) == Cofactor(x)
  {
  }

  lemma OtherTest(r: int)
    requires PIsPrime()
    ensures var x := FirstX(r);
            Cong(CurveTest(-x - MONTGOMERY_A), 2 * (r * r) * CurveTest(x))
  {
    var x := FirstX(r);
    OtherX(r);
    CurveTestIs(x);
    CurveTestIs(-x - MONTGOMERY_A);
    CongRefl(Cofactor(x));
    CongMul(-x - MONTGOMERY_A, 2 * (r * r) * x, Cofactor(x), Cofactor(x));
    assert 2 * (r * r) * x * Cofactor(x) == 2 * (r * r) * (x * Cofactor(x));
  }

  lemma ZeroRoot(g: int)
    requires Cong(g, 0)
    ensures Cong(0 * 0, g)
  {
    CongSym(g, 0);
  }

  /** The x chosen is that of a point on the Montgomery curve. */
  lemma ChosenIsOnCurve(r: int) returns (t: int)
    requires PIsPrime()
    ensures Cong(t * t, CurveTest(MontgomeryX(r)))
  {
    var x := FirstX(r);
    var g := CurveTest(x);
    hide FirstX, CurveTest, Pow;
    if Cong(Character(x), -1) {
      OtherTest(r);
      var h := CurveTest(-x - MONTGOMERY_A);
      if Cong(r, 0) {
        CongMul(r, 0, r, 0);
        CongScale(2 * g, r * r, 0);
        assert 2 * g * (r * r) == 2 * (r * r) * g;
        CongTrans(h, 2 * (r * r) * g, 0);
        ZeroRoot(h);
        t := 0;
      } else {
        CharacterFlips(r, g);
        t := EulerRoot(2 * (r * r) * g);
        CongSym(h, 2 * (r * r) * g);
        CongTrans(t * t, 2 * (r * r) * g, h);
      }
    } else if Cong(g, 0) {
      ZeroRoot(g);
      t := 0;
    } else {
      UnitCharacter(x);
      t := EulerRoot(g);
    }
  }

  // ---------- From the Montgomery curve to the Edwards curve ----------

  /** A root of -(A + 2). */
  const S: int := 0x0f26_edf4_60a0_06bb_d27b_08dc_03fc_4f7e_c5a1_d3d1_4b7d_1a82_cc6e_04aa_ff45_7e06

  lemma RootOfS()
    ensures Cong(S * S, -486664)
  {
    CongBy(S * S, -486664, 0x01cb_2b9c_4a1b_a8f9_48d3_d4cd_7713_7638_805a_e97c_b5e6_41a3_935f_34d8_fe3f_4c5c);
  }

  lemma CurveConstant(d: int)
    requires Cong(121666 * d, -121665)
    ensures Cong(486664 * d, -486660)
  {
    CongScale(4, 121666 * d, -121665);
  }

  lemma SquareOfProduct(y: int, w: int)
    requires Cong(y * (w + 1), w - 1)
    ensures Cong(y * y * ((w + 1) * (w + 1)), (w - 1) * (w - 1))
  {
    CongMul(y * (w + 1), w - 1, y * (w + 1), w - 1);
    Exchange(y, w + 1, y, w + 1);
  }

  /** (A + 2) (d y^2 + 1) (w + 1)^2 = 4 (w^2 + A w + 1). */
  lemma Denominator(d: int, y: int, w: int)
    requires Cong(121666 * d, -121665) && Cong(y * (w + 1), w - 1)
    ensures Cong(486664 * ((y * y * d + 1) * ((w + 1) * (w + 1))), 4 * Cofactor(w))
  {
    var yy, p, m := y * y, (w + 1) * (w + 1), (w - 1) * (w - 1);
    SquareOfProduct(y, w);
    CurveConstant(d);
    CongMul(486664 * d, -486660, yy * p, m);
    CongRefl(486664 * p);
    CongAdd(486664 * d * (yy * p), -486660 * m, 486664 * p, 486664 * p);
    assert 486664 * ((yy * d + 1) * p) == 486664 * d * (yy * p) + 486664 * p;
    Expanded(w);
  }

  lemma Expanded(w: int)
    ensures -486660 * ((w - 1) * (w - 1)) + 486664 * ((w + 1) * (w + 1)) == 4 * Cofactor(w)
    ensures (w - 1) * (w - 1) - (w + 1) * (w + 1) == -4 * w
  {
  }

  /** (y^2 - 1) (w + 1)^2 = -4 w. */
  lemma Numerator(y: int, w: int)
    requires Cong(y * (w + 1), w - 1)
    ensures Cong((y * y - 1) * ((w + 1) * (w + 1)), -4 * w)
  {
    var p := (w + 1) * (w + 1);
    SquareOfProduct(y, w);
    CongRefl(p);
    CongSub(y * y * p, (w - 1) * (w - 1), p, p);
    Expanded(w);
    assert (y * y - 1) * p == y * y * p - p;
  }

  /** w = -1: the code's inverse of zero is zero, and y = 0 is on the curve. */
  lemma RootAtPole(d: int, w: int, y: int)
    requires PIsPrime() && Cong(w + 1, 0) && y == (w - 1) * Inv(w + 1)
    ensures IsRoot(y * y - 1, y * y * d + 1, I)
  {
    PowOfZero(w + 1, P - 2);
    hide Pow;
    CongScale(w - 1, Inv(w + 1), 0);
    CongMul(y, 0, y, 0);
    CongRefl(d);
    CongMul(y * y, 0, d, d);
    CongRefl(1);
    CongAdd(y * y * d, 0, 1, 1);
    RootOfMinusOne();
    CongMul(y * y * d + 1, 1, I * I, -1);
    CongSub(y * y, 0, 1, 1);
    CongSym(y * y - 1, -1);
    CongTrans((y * y * d + 1) * (I * I), -1, y * y - 1);
  }

  /** w = 0 maps to y = -1, where x = 0. */
  lemma RootAtZero(d: int, w: int, y: int)
    requires PIsPrime() && Cong(w, 0) && !Cong(w + 1, 0) && Cong(y * (w + 1), w - 1)
    ensures IsRoot(y * y - 1, y * y * d + 1, 0)
  {
    Numerator(y, w);
    CongScale(-4, w, 0);
    CongTrans((y * y - 1) * ((w + 1) * (w + 1)), -4 * w, 0);
    NonZeroProduct(w + 1, w + 1);
    NoZeroDivisors(y * y - 1, (w + 1) * (w + 1));
    CongSym(y * y - 1, 0);
    assert (y * y * d + 1) * (0 * 0) == 0;
  }

  lemma PointsAreUnits(d: int, w: int, y: int, t: int)
    requires EdwardsCurve(d) && !Cong(w, 0) && !Cong(w + 1, 0)
    requires Cong(y * (w + 1), w - 1) && Cong(t * t, CurveTest(w))
    ensures !Cong(t, 0)
  {
    CurveMeans(d);
    Denominator(d, y, w);
    RatioDefined(d, y);
    var v, k, f := y * y * d + 1, (w + 1) * (w + 1), Cofactor(w);
    NonZeroProduct(w + 1, w + 1);
    NonZeroProduct(v, k);
    SmallNonZero(486664);
    NonZeroProduct(486664, v * k);
    if Cong(t, 0) {
      CurveTestIs(w);
      CongMul(t, 0, t, 0);
      CongSym(t * t, w * f);
      CongTrans(w * f, t * t, 0);
      NoZeroDivisors(w, f);
      CongScale(4, f, 0);
      CongTrans(486664 * (v * k), 4 * f, 0);
    }
  }

  /** (486664 v k) (s w i)^2 = 486664 (-4 w), for 486664 v k = 4 f, s^2 = -486664, w f = t^2, t i = 1. */
  lemma SquaredX(v: int, k: int, w: int, f: int, s: int, t: int, i: int)
    requires Cong(486664 * (v * k), 4 * f) && Cong(s * s, -486664) && Cong(t * t, w * f) && Cong(t * i, 1)
    ensures Cong(486664 * (v * k) * (s * w * i * (s * w * i)), 486664 * (-4 * w))
  {
    CongMul(t * i, 1, t * i, 1);
    Exchange(t, i, t, i);
    CongSym(t * t * (i * i), 1);
    CongRefl(i * i);
    CongMul(t * t, w * f, i * i, i * i);
    CongTrans(1, t * t * (i * i), w * f * (i * i));
    CongScale(486664 * (-4 * w), 1, w * f * (i * i));
    var ww := w * w * (i * i);
    CongRefl(ww);
    CongMul(s * s, -486664, ww, ww);
    Exchange(s * w, i, s * w, i);
    Exchange(s, w, s, w);
    assert s * w * i * (s * w * i) == s * s * ww;
    CongMul(486664 * (v * k), 4 * f, s * s * ww, -486664 * ww);
    var goal := 486664 * (-4 * w);
    assert goal * (w * f * (i * i)) == 4 * f * (-486664 * ww) by {
      Rearranged(w, f, i * i);
    }
    CongSym(goal, goal * (w * f * (i * i)));
    CongTrans(486664 * (v * k) * (s * s * ww), goal * (w * f * (i * i)), goal);
  }

  lemma Rearranged(w: int, f: int, j: int)
    ensures 486664 * (-4 * w) * (w * f * j) == 4 * f * (-486664 * (w * w * j))
  {
    assert w * (w * f * j) == f * (w * w * j);
  }

  lemma RootElsewhere(d: int, w: int, y: int, t: int) returns (x: int)
    requires EdwardsCurve(d) && !Cong(w, 0) && !Cong(w + 1, 0)
    requires Cong(y * (w + 1), w - 1) && Cong(t * t, CurveTest(w))
    ensures IsRoot(y * y - 1, y * y * d + 1, x)
  {
    CurveMeans(d);
    PointsAreUnits(d, w, y, t);
    InverseWorks(t);
    CurveTestIs(w);
    Denominator(d, y, w);
    Numerator(y, w);
    RootOfS();
    var i, v, k, u := Inv(t), y * y * d + 1, (w + 1) * (w + 1), y * y - 1;
    hide Pow, Inv, CurveTest;
    x := S * w * i;
    SquaredX(v, k, w, Cofactor(w), S, t, i);
    CongScale(486664, u * k, -4 * w);
    CongSym(486664 * (u * k), 486664 * (-4 * w));
    CongTrans(486664 * (v * k) * (x * x), 486664 * (-4 * w), 486664 * (u * k));
    assert 486664 * (v * k) * (x * x) == v * (x * x) * (486664 * k);
    assert 486664 * (u * k) == u * (486664 * k);
    NonZeroProduct(w + 1, w + 1);
    SmallNonZero(486664);
    NonZeroProduct(486664, k);
    Cancel(v * (x * x), u, 486664 * k);
  }

  /** y = (w - 1) / (w + 1) has a curve point for every w on the Montgomery curve. */
  lemma EdwardsRoot(d: int, w: int, t: int) returns (x: int)
    requires EdwardsCurve(d) && Cong(t * t, CurveTest(w))
    ensures var y := (w - 1) * Inv(w + 1); IsRoot(y * y - 1, y * y * d + 1, x)
  {
    CurvePrime(d);
    var y := (w - 1) * Inv(w + 1);
    if Cong(w + 1, 0) {
      RootAtPole(d, w, y);
      x := I;
    } else {
      InverseWorks(w + 1);
      CongScale(w - 1, (w + 1) * Inv(w + 1), 1);
      assert (w - 1) * ((w + 1) * Inv(w + 1)) == y * (w + 1);
      hide Inv, CurveTest;
      if Cong(w, 0) {
        RootAtZero(d, w, y);
        x := 0;
      } else {
        x := RootElsewhere(d, w, y, t);
      }
    }
  }

  // ---------- Decoding ----------

  lemma FlippedParity(x: int)
    requires 0 < x < P
    ensures Canon(-x) == P - x && (P - x) % 2 != x % 2
  {
    CongBy(-x, P - x, -1);
    CanonUnique(-x, P - x);
  }

  /** A string whose y has a root decodes, whatever its sign. */
  lemma RootDecodes(d: int, s: seq<byte>, x: int, y: int)
    requires EdwardsCurve(d) && |s| == 32 && NamedY(s) == Canon(y) && IsRoot(y * y - 1, y * y * d + 1, x)
    ensures Decoded(d, s).Some?
  {
    RootGivesPoint(d, x, y);
    var a := Point(Canon(x), Canon(y));
    OnCurveMeans(d, a);
    assert 0 <= SignBit(s) <= 1;
    if a.x == 0 || a.x % 2 == SignBit(s) {
      DecodedIs(d, s, a);
    } else {
      EdwardsGroup.NegOnCurve(d, a);
      FlippedParity(a.x);
      DecodedIs(d, s, Neg(a));
    }
  }

  lemma StringNames(y: int, b: int)
    requires 0 <= y < P && 0 <= b <= 1
    ensures NamedY(ToOctets(y + TWO_255 * b, 32)) == y
  {
    var s := ToOctets(y + TWO_255 * b, 32);
    Weight32();
    hide LeVal, Pow256, ToOctets;
    ToOctetsValue(y + TWO_255 * b, 32);
    EncodingParts(s, y, b);
    CongRefl(y);
    CanonUnique(y, y);
  }

  lemma MappedStringNames(r: seq<byte>)
    requires |r| == 32
    ensures NamedY(MappedString(r)) == Canon(MappedY(LeVal(r) % TWO_255))
  {
    hide MappedY, LeVal, ToOctets, NamedY;
    StringNames(Canon(MappedY(LeVal(r) % TWO_255)), SignBit(r));
  }

  /** The abort in ge25519_from_uniform is never reached. */
  lemma NeverAborts(d: int, r: seq<byte>)
    requires EdwardsCurve(d) && |r| == 32
    ensures Mapped(d, r).Some?
  {
    CurvePrime(d);
    var z := LeVal(r) % TWO_255;
    hide LeVal, CurveTest;
    var t := ChosenIsOnCurve(z);
    var x := EdwardsRoot(d, MontgomeryX(z), t);
    MappedStringNames(r);
    hide MontgomeryX, MappedString, NamedY;
    RootDecodes(d, MappedString(r), x, MappedY(z));
  }
}
