/** The curve points that eight times themselves add up to nothing, by their y coordinate: 0, 1, -1
    and the two roots of d y^4 + 2 y^2 = 1. */
module SmallOrder {
  import opened Residues
  import opened PrimeField
  import opened NonSquare
  import opened Edwards
  import opened EdwardsGroup
  import opened PointEncoding

  /** The point of order 2. */
  const Minus := Point(0, P - 1)

  /** A y of order 8, and its square. */
  const C: int := 0x05fc_536d_8802_38b1_3933_c6d3_05ac_dfd5_f098_eff2_89f4_c345_b027_b2c2_8f95_e826
  const W: int := 0x76b9_125b_8bd5_b257_c2c2_ebc2_ba60_9c05_6bdf_9e34_b4f0_a103_ae47_9185_9c15_5291

  predicate IsSmallY(y: int) {
    y == 0 || y == 1 || y == P - 1 || y == C || y == P - C
  }

  // ---------- Points with x = 0 ----------

  lemma MinusOne()
    ensures Cong(P - 1, -1) && Cong((P - 1) * (P - 1), 1)
  {
    CongBy(P - 1, -1, 1);
    CongMul(P - 1, -1, P - 1, -1);
  }

  lemma ZeroSquare(x: int)
    requires PIsPrime() && Cong(x * x, 0) && 0 <= x < P
    ensures x == 0
  {
    NoZeroDivisors(x, x);
    CongSmall(x, 0);
  }

  /** With y^2 = 1 the curve equation leaves (d + 1) x^2 = 0. */
  lemma UnitY(d: int, xx: int, yy: int)
    requires Cong(121666 * d, -121665) && Cong(yy, 1) && Cong(yy - xx, 1 + d * (xx * yy))
    ensures Cong(xx, 0)
  {
    CongScale(d * xx, yy, 1);
    assert d * xx * yy == d * (xx * yy);
    CongRefl(1);
    CongAdd(1, 1, d * (xx * yy), d * xx * 1);
    CongTrans(yy - xx, 1 + d * (xx * yy), 1 + d * xx);
    CongSub(yy - xx, 1 + d * xx, yy, 1);
    CongScale(121666, yy - xx - yy, 1 + d * xx - 1);
    CongRefl(xx);
    CongMul(121666 * d, -121665, xx, xx);
    assert 121666 * (1 + d * xx - 1) == 121666 * d * xx;
    CongTrans(121666 * -xx, 121666 * d * xx, -121665 * xx);
    CongRefl(121666 * xx);
    CongAdd(121666 * -xx, -121665 * xx, 121666 * xx, 121666 * xx);
    CongSym(0, xx);
  }

  /** x = 0 exactly for y = 1 and y = -1. */
  lemma OnTheAxis(d: int, a: Point)
    requires EdwardsCurve(d) && OnCurve(d, a)
    ensures a.x == 0 <==> a.y == 1 || a.y == P - 1
    ensures a.x == 0 ==> a == Zero || a == Minus
  {
    CurveMeans(d);
    OnCurveMeans(d, a);
    MinusOne();
    CongRefl(1);
    if a.x == 0 {
      CongRefl(-1);
      CongAdd(a.y * a.y, 1, -1, -1);
      EqualSquares(a.y, 1);
      if Cong(a.y, 1) {
        CongSmall(a.y, 1);
      } else {
        CongSym(P - 1, -1);
        CongTrans(a.y, -1, P - 1);
        CongSmall(a.y, P - 1);
      }
    } else if a.y == 1 || a.y == P - 1 {
      UnitY(d, a.x * a.x, a.y * a.y);
      ZeroSquare(a.x);
    }
  }

  // ---------- What doubles to what ----------

  lemma AxisDoubles(d: int, a: Point)
    requires EdwardsCurve(d) && OnCurve(d, a) && a.x == 0
    ensures Add(d, a, a) == Zero
  {
    OnCurveMeans(d, a);
    CongSym(a.y * a.y, 1);
    CongRefl(0);
    assert Cross(d, a, a) == 0 && NumX(a, a) == 0 && NumY(a, a) == a.y * a.y;
    hide NumX, NumY, Cross;
    SumIs(d, a, a, Zero);
  }

  lemma DoubleIsZero(d: int, a: Point)
    requires EdwardsCurve(d) && OnCurve(d, a)
    ensures Add(d, a, a) == Zero <==> a.x == 0
  {
    if a.x == 0 {
      AxisDoubles(d, a);
    } else if Add(d, a, a) == Zero {
      CurvePrime(d);
      OnCurveMeans(d, a);
      NegUnique(d, a, a);
      CanonIs(-a.x);
      CongRefl(a.x);
      CongAdd(a.x, -a.x, a.x, a.x);
      TwoIsNotZero();
      NoZeroDivisors(2, a.x);
      CongSmall(a.x, 0);
    }
  }

  lemma DoubleIsMinus(d: int, a: Point)
    requires EdwardsCurve(d) && OnCurve(d, a)
    ensures Add(d, a, a) == Minus <==> a.y == 0
  {
    CurvePrime(d);
    OnCurveMeans(d, a);
    if a.y == 0 {
      assert Cross(d, a, a) == 0 && NumX(a, a) == 0 && NumY(a, a) == a.x * a.x;
      CongRefl(0);
      CongScale(-1, -(a.x * a.x), 1);
      MinusOne();
      CongSym(a.x * a.x, -1);
      CongTrans(P - 1, -1, a.x * a.x);
      SumIs(d, a, a, Minus);
    }
    if Add(d, a, a) == Minus {
      SumEquations(d, a, a);
      CongSym(0, NumX(a, a));
      assert NumX(a, a) == 2 * (a.x * a.y);
      TwoIsNotZero();
      NoZeroDivisors(2, a.x * a.y);
      NoZeroDivisors(a.x, a.y);
      if Cong(a.x, 0) {
        CongSmall(a.x, 0);
        DoubleIsZero(d, a);
      } else {
        CongSmall(a.y, 0);
      }
    }
  }

  /** d w^2 + 2 w - 1, at w = y^2. */
  function Quartic(d: int, w: int): int {
    d * (w * w) + 2 * w - 1
  }

  /** (y^2 + x^2) (d y^2 + 1) = d y^4 + 2 y^2 - 1 on the curve. */
  lemma QuarticOnCurve(d: int, xx: int, yy: int)
    requires Cong(yy - xx, 1 + d * (xx * yy))
    ensures Cong((yy + xx) * (yy * d + 1), Quartic(d, yy))
  {
    var rest := d * (yy * yy) + yy + xx + d * (xx * yy) - (yy - xx);
    CongRefl(d * (yy * yy) + yy + xx - 1);
    CongSym(yy - xx, 1 + d * (xx * yy));
    CongAdd(1 + d * (xx * yy), yy - xx, d * (yy * yy) + yy + xx - 1, d * (yy * yy) + yy + xx - 1);
    assert (yy + xx) * (yy * d + 1) == d * (yy * yy) + d * (xx * yy) + yy + xx;
  }

  lemma DoubleHasNoY(d: int, a: Point)
    requires EdwardsCurve(d) && OnCurve(d, a)
    ensures Add(d, a, a).y == 0 <==> Cong(Quartic(d, a.y * a.y), 0)
  {
    CurvePrime(d);
    OnCurveMeans(d, a);
    var xx, yy, b := a.x * a.x, a.y * a.y, Add(d, a, a);
    SumEquations(d, a, a);
    DenominatorsNonZero(d, a, a);
    RatioDefined(d, a.y);
    QuarticOnCurve(d, xx, yy);
    assert NumY(a, a) == yy + xx;
    if b.y == 0 {
      CongSym(0, yy + xx);
      CongRefl(yy * d + 1);
      CongMul(yy + xx, 0, yy * d + 1, yy * d + 1);
      CongSym((yy + xx) * (yy * d + 1), Quartic(d, yy));
      CongTrans(Quartic(d, yy), (yy + xx) * (yy * d + 1), 0);
    }
    if Cong(Quartic(d, yy), 0) {
      CongTrans((yy + xx) * (yy * d + 1), Quartic(d, yy), 0);
      NoZeroDivisors(yy + xx, yy * d + 1);
      CongTrans(b.y * DenY(d, a, a), yy + xx, 0);
      NoZeroDivisors(b.y, DenY(d, a, a));
      CongSmall(b.y, 0);
    }
  }

  // ---------- The two roots ----------

  lemma SquareOfC()
    ensures Cong(C * C, W)
  {
    CongBy(C * C, W, 0x0047_a7ed_4448_1f4a_281c_63ee_6593_fc7c_2b48_38fa_0364_fa6d_4760_1bb9_d8e9_7eff);
  }

  lemma RootConstant()
    ensures Cong(-121665 * (W * W) + 243332 * W - 121666, 0)
  {
    CongBy(-121665 * (W * W) + 243332 * W - 121666, 0,
           -0xcc6e_2086_309b_a4d0_366a_c8b5_fe0d_2978_ed5c_9876_b760_40d7_8452_c7f3_d514_4ce1_697b);
  }

  lemma RootOfQuartic(d: int, w: int)
    requires PIsPrime() && Cong(121666 * d, -121665)
    requires Cong(-121665 * (w * w) + 243332 * w - 121666, 0)
    ensures Cong(Quartic(d, w), 0)
  {
    CongRefl(w * w);
    CongMul(121666 * d, -121665, w * w, w * w);
    var rest := 243332 * w - 121666;
    CongRefl(rest);
    CongAdd(121666 * d * (w * w), -121665 * (w * w), rest, rest);
    assert 121666 * Quartic(d, w) == 121666 * d * (w * w) + rest;
    CongTrans(121666 * Quartic(d, w), -121665 * (w * w) + rest, 0);
    SmallNonZero(121666);
    NoZeroDivisors(121666, Quartic(d, w));
  }

  lemma QuarticRespects(d: int, w: int, v: int)
    requires Cong(w, v)
    ensures Cong(Quartic(d, w), Quartic(d, v))
  {
    CongMul(w, v, w, v);
    CongScale(d, w * w, v * v);
    CongScale(2, w, v);
    CongAdd(d * (w * w), d * (v * v), 2 * w, 2 * v);
    CongRefl(1);
    CongSub(d * (w * w) + 2 * w, d * (v * v) + 2 * v, 1, 1);
  }

  /** Two roots of the quartic are equal or have product -1/d. */
  lemma RootsOfQuartic(d: int, w: int, v: int)
    requires PIsPrime() && Cong(Quartic(d, w), 0) && Cong(Quartic(d, v), 0)
    ensures Cong(w, v) || Cong(d * (w * v), -1)
  {
    CongSub(Quartic(d, w), 0, Quartic(d, v), 0);
    Factors(d, w, v);
    NoZeroDivisors(w - v, d * (w + v) + 2);
    CongRefl(v);
    if Cong(w - v, 0) {
      CongAdd(w - v, 0, v, v);
    } else {
      CongMul(d * (w + v) + 2, 0, v, v);
      CongSub((d * (w + v) + 2) * v, 0, Quartic(d, v), 0);
      assert (d * (w + v) + 2) * v - Quartic(d, v) == d * (w * v) + 1;
      CongRefl(-1);
      CongAdd(d * (w * v) + 1, 0, -1, -1);
    }
  }

  lemma Factors(d: int, w: int, v: int)
    ensures Quartic(d, w) - Quartic(d, v) == (w - v) * (d * (w + v) + 2)
  {
    assert (w - v) * (d * (w + v)) == d * (w * w) - d * (v * v);
  }

  /** A product -1/d of two squares would make d a square. */
  lemma NoSuchProduct(d: int, y: int, c: int)
    requires EdwardsCurve(d)
    ensures !Cong(d * (y * y * (c * c)), -1)
  {
    if Cong(d * (y * y * (c * c)), -1) {
      CurvePrime(d);
      var r := y * c;
      assert y * y * (c * c) == r * r;
      if Cong(r, 0) {
        CongMul(r, 0, r, 0);
        CongScale(d, r * r, 0);
        CongSym(d * (r * r), -1);
        CongTrans(-1, d * (r * r), 0);
        SmallNonZero(-1);
      } else {
        RootOfMinusOne();
        CongSym(d * (r * r), -1);
        CongTrans(I * I, -1, d * (r * r));
        RatioIsRoot(d, I, r);
        NotASquare(d, I * Inv(r));
      }
    }
  }

  lemma OppositeOfC()
    ensures Cong(P - C, -C) && 0 < C < P
  {
    CongBy(P - C, -C, 1);
  }

  lemma ListedRoots(d: int, y: int)
    requires EdwardsCurve(d) && (y == C || y == P - C)
    ensures Cong(Quartic(d, y * y), 0)
  {
    CurveMeans(d);
    SquareOfC();
    OppositeOfC();
    if y != C {
      CongMul(P - C, -C, P - C, -C);
      assert -C * -C == C * C;
      CongTrans(y * y, C * C, W);
    }
    RootConstant();
    RootOfQuartic(d, W);
    QuarticRespects(d, y * y, W);
    CongTrans(Quartic(d, y * y), Quartic(d, W), 0);
  }

  lemma OnlyRoots(d: int, y: int)
    requires EdwardsCurve(d) && 0 <= y < P && Cong(Quartic(d, y * y), 0)
    ensures y == C || y == P - C
  {
    CurvePrime(d);
    ListedRoots(d, C);
    RootsOfQuartic(d, y * y, C * C);
    NoSuchProduct(d, y, C);
    CongRefl(C * C);
    CongSub(y * y, C * C, C * C, C * C);
    EqualSquares(y, C);
    OppositeOfC();
    if Cong(y, C) {
      CongSmall(y, C);
    } else {
      CongSym(P - C, -C);
      CongTrans(y, -C, P - C);
      CongSmall(y, P - C);
    }
  }

  // ---------- Eight times a point ----------

  lemma Doubled(d: int, a: Point)
    requires EdwardsCurve(d) && OnCurve(d, a)
    ensures Mul(d, 2, a) == Add(d, a, a) && OnCurve(d, Add(d, a, a))
  {
    MulOne(d, a);
    MulStep(d, 1, a);
    SumOnCurve(d, a, a);
  }

  lemma EightTimes(d: int, a: Point)
    requires EdwardsCurve(d) && OnCurve(d, a)
    ensures var b := Add(d, a, a);
            OnCurve(d, b) && OnCurve(d, Add(d, b, b)) &&
            Mul(d, 8, a) == Add(d, Add(d, b, b), Add(d, b, b))
  {
    var b := Add(d, a, a);
    Doubled(d, a);
    Doubled(d, b);
    Doubled(d, Add(d, b, b));
    MulMulNat(d, 2, 2, a);
    MulMulNat(d, 2, 4, a);
  }

  /** The curve points killed by the cofactor are those with one of five y coordinates. */
  lemma SmallOrderIff(d: int, a: Point)
    requires EdwardsCurve(d) && OnCurve(d, a)
    ensures Mul(d, 8, a) == Zero <==> IsSmallY(a.y)
  {
    var b := Add(d, a, a);
    var c := Add(d, b, b);
    EightTimes(d, a);
    DoubleIsZero(d, c);
    OnTheAxis(d, c);
    DoubleIsZero(d, b);
    DoubleIsMinus(d, b);
    OnTheAxis(d, b);
    DoubleIsZero(d, a);
    DoubleIsMinus(d, a);
    OnTheAxis(d, a);
    DoubleHasNoY(d, a);
    OnCurveMeans(d, a);
    hide Quartic;
    if a.y == C || a.y == P - C {
      ListedRoots(d, a.y);
    } else if Cong(Quartic(d, a.y * a.y), 0) {
      OnlyRoots(d, a.y);
    }
  }
}
