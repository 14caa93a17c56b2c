/** d = -121665/121666 is not a square modulo p, from the primality of p alone.  Twice
    -121665 * 121666 is a square, with the root given below, and 2 is none: a root of 2 would give
    an element of order 8, which p - 1 = 4 modulo 8 does not allow. */
module NonSquare {
  import opened Arithmetic
  import opened Residues
  import opened PrimeField

  /** A root of -1, the constant sqrtm1 of the code. */
  const I: int := 0x2b83_2480_4fc1_df0b_2b4d_0099_3dfb_d7a7_2f43_1806_ad2f_e478_c4ee_1b27_4a0e_a0b0

  /** A root of 2 * -121665 * 121666. */
  const T: int := 0x15f7_cef3_c4d8_7e80_8a69_914c_ebb5_bfee_327b_e0b2_8355_2f15_9601_5e5d_fb64_4459

  lemma RootOfMinusOne()
    ensures Cong(I * I, -1)
  {
    CongBy(I * I, -1, 0x0eca_a2e2_f6a2_302c_cedb_31ac_0572_0688_238c_ed20_78f3_eb0e_c9f2_2e8f_6219_72e5);
  }

  lemma RootOfT()
    ensures Cong(T * T, 2 * (-121665 * 121666))
  {
    CongBy(T * T, 2 * (-121665 * 121666), 0x03c5_2fa9_fffd_2ee1_d167_5240_6d74_9e06_100d_0e2d_8ce8_2f05_6ab4_7c1b_1c81_b3a9);
  }

  lemma SmallNonZero(x: int)
    requires -1_000_000 < x < 1_000_000 && x != 0
    ensures !Cong(x, 0)
  {
    if Cong(x, 0) {
      var k := Multiplier(x, 0);
    }
  }

  lemma FourthPower(w: int)
    ensures Pow(w, 4) == w * w * (w * w)
  {
    assert Pow(w, 1) == w * Pow(w, 0);
    assert Pow(w, 2) == w * Pow(w, 1);
    PowAdd(w, 2, 2);
  }

  /** Nothing has fourth power -1: its order would be 8. */
  lemma NoOrderEight(w: int)
    requires PIsPrime()
    ensures !Cong(w * w * (w * w), -1)
  {
    if Cong(w * w * (w * w), -1) {
      FourthPower(w);
      hide Pow;
      var k := (P - 5) / 8;
      PowAdd(w, 4, 4);
      CongMul(Pow(w, 4), -1, Pow(w, 4), -1);
      PowCong(Pow(w, 8), 1, k);
      PowOfOne(k);
      PowOfPow(w, 8, k);
      PowAdd(w, 4, 8 * k);
      CongMul(Pow(w, 4), -1, Pow(w, 8 * k), 1);
      assert 4 + 8 * k == P - 1;
      assert FermatAt(w);
      if Cong(w, 0) {
        ZeroFourth(w);
      } else {
        CongSym(Pow(w, P - 1), 1);
        CongTrans(1, Pow(w, P - 1), -1);
        DifferByTwo();
      }
    }
  }

  lemma {:induction false} PowOfOne(k: nat)
    ensures Pow(1, k) == 1
  {
    if k > 0 {
      PowOfOne(k - 1);
    }
  }

  lemma ZeroFourth(w: int)
    requires Cong(w, 0)
    ensures !Cong(w * w * (w * w), -1)
  {
    CongMul(w, 0, w, 0);
    CongMul(w * w, 0, w * w, 0);
    if Cong(w * w * (w * w), -1) {
      CongSym(w * w * (w * w), -1);
      CongTrans(-1, w * w * (w * w), 0);
      SmallNonZero(-1);
    }
  }

  lemma DifferByTwo()
    ensures !Cong(1, -1)
  {
    if Cong(1, -1) {
      var k := Multiplier(1, -1);
    }
  }

  /** (1 + i)^2 = 2 i. */
  lemma OnePlusI()
    ensures Cong((1 + I) * (1 + I), 2 * I) && !Cong(1 + I, 0)
  {
    RootOfMinusOne();
    CongRefl(1 + 2 * I);
    CongAdd(1 + 2 * I, 1 + 2 * I, I * I, -1);
    if Cong(1 + I, 0) {
      var k := Multiplier(1 + I, 0);
    }
  }

  /** 2 is not a square: a root r of it makes r / (1 + i) a root of -i. */
  lemma TwoIsNoSquare(r: int)
    requires PIsPrime()
    ensures !Cong(r * r, 2)
  {
    if Cong(r * r, 2) {
      OnePlusI();
      hide Pow;
      var j := Inv(1 + I);
      InverseWorks(1 + I);
      RootOverOnePlusI(r, j);
      NoOrderEight(r * j);
    }
  }

  lemma RootOverOnePlusI(r: int, j: int)
    requires PIsPrime() && Cong(r * r, 2) && Cong((1 + I) * j, 1)
    ensures Cong(r * j * (r * j) * (r * j * (r * j)), -1)
  {
    OnePlusI();
    RootOfMinusOne();
    var v := r * j * (r * j);
    ScaledRoot(r, j, 1 + I);
    CongSym(v * ((1 + I) * (1 + I)), r * r);
    CongRefl(v);
    CongMul(v, v, (1 + I) * (1 + I), 2 * I);
    CongTrans(r * r, v * ((1 + I) * (1 + I)), v * (2 * I));
    CongSym(r * r, v * (2 * I));
    CongTrans(v * (2 * I), r * r, 2);
    HalfOfIt(v, I);
  }

  lemma ScaledRoot(r: int, j: int, s: int)
    requires Cong(s * j, 1)
    ensures Cong(r * j * (r * j) * (s * s), r * r)
  {
    CongMul(s * j, 1, s * j, 1);
    CongScale(r * r, s * j * (s * j), 1);
    Exchange(r, j, r, j);
    Exchange(s, j, s, j);
    assert r * r * (s * s * (j * j)) == r * r * (j * j) * (s * s);
  }

  /** From 2 i v = 2 to v^2 = -1. */
  lemma HalfOfIt(v: int, i: int)
    requires PIsPrime() && Cong(v * (2 * i), 2) && Cong(i * i, -1)
    ensures Cong(v * v, -1)
  {
    SmallNonZero(2);
    assert v * (2 * i) == v * i * 2;
    Cancel(v * i, 1, 2);
    CongMul(v * i, 1, v * i, 1);
    Exchange(v, i, v, i);
    CongScale(v * v, i * i, -1);
    CongSym(v * v * (i * i), 1);
    assert v * v * -1 == -(v * v);
    CongSym(v * v * (i * i), -(v * v));
    CongTrans(-(v * v), v * v * (i * i), 1);
    CongScale(-1, -(v * v), 1);
  }

  /** No r squares to -121665/121666. */
  lemma NoRootOfD(d: int, r: int)
    requires PIsPrime() && Cong(121666 * d, -121665)
    ensures !Cong(r * r, d)
  {
    if Cong(r * r, d) {
      var s := 121666 * r;
      SquareOfS(d, r, s);
      RootOfT();
      if Cong(s, 0) {
        CongMul(s, 0, s, 0);
        CongSym(s * s, -121665 * 121666);
        CongTrans(-121665 * 121666, s * s, 0);
        NotDivisible();
      } else {
        hide Pow;
        var j := Inv(s);
        InverseWorks(s);
        TwiceSquare(s, j);
        TwoIsNoSquare(T * j);
      }
    }
  }

  lemma NotDivisible()
    ensures !Cong(-121665 * 121666, 0)
  {
    if Cong(-121665 * 121666, 0) {
      var k := Multiplier(-121665 * 121666, 0);
    }
  }

  lemma SquareOfS(d: int, r: int, s: int)
    requires Cong(r * r, d) && Cong(121666 * d, -121665) && s == 121666 * r
    ensures Cong(s * s, -121665 * 121666)
  {
    CongScale(121666, r * r, d);
    CongTrans(121666 * (r * r), 121666 * d, -121665);
    CongScale(121666, 121666 * (r * r), -121665);
    assert s * s == 121666 * (121666 * (r * r));
  }

  lemma TwiceSquare(s: int, j: int)
    requires Cong(s * s, -121665 * 121666) && Cong(T * T, 2 * (-121665 * 121666)) && Cong(s * j, 1)
    ensures Cong(T * j * (T * j), 2)
  {
    CongScale(2, s * s, -121665 * 121666);
    CongSym(2 * (s * s), 2 * (-121665 * 121666));
    CongTrans(T * T, 2 * (-121665 * 121666), 2 * (s * s));
    CongScale(j * j, T * T, 2 * (s * s));
    CongMul(s * j, 1, s * j, 1);
    CongScale(2, s * j * (s * j), 1);
    Exchange(s, j, s, j);
    Exchange(T, j, T, j);
    assert j * j * (2 * (s * s)) == 2 * (s * s * (j * j));
    assert j * j * (T * T) == T * T * (j * j);
    CongTrans(T * j * (T * j), 2 * (s * s * (j * j)), 2);
  }
}
