/** The addition chains of ed25519_ref10.c: inversion, the square root exponent and the
    quadratic character exponent.  Each chain is followed with the exponent it has reached. */
module PowerChains {
  import opened Bits
  import opened Residues
  import opened FieldLimbs
  import opened PrimeField

  /** f is as small as a product and stands for z^e. */
  ghost predicate IsPower(f: Fe, z: int, e: nat) {
    Tight(f) && Stands(f, Pow(z, e))
  }

  lemma TightIsOperand(f: Fe)
    requires Tight(f)
    ensures MulOperand(f)
  {
  }

  method MulPowers(f: Fe, g: Fe, ghost z: int, ghost a: nat, ghost b: nat) returns (h: Fe)
    requires MulOperand(f) && Stands(f, Pow(z, a))
    requires MulOperand(g) && Stands(g, Pow(z, b))
    ensures IsPower(h, z, a + b)
  {
    h := FeMul(f, g, Pow(z, a), Pow(z, b));
    PowAdd(z, a, b);
  }

  method SqPower(f: Fe, ghost z: int, ghost a: nat) returns (h: Fe)
    requires MulOperand(f) && Stands(f, Pow(z, a))
    ensures IsPower(h, z, 2 * a)
  {
    h := FeSq(f, Pow(z, a));
    PowAdd(z, a, a);
  }

  /** 2^n * a, the exponent n squarings reach from a. */
  function Doubled(a: nat, n: nat): nat {
    if n == 0 then a else 2 * Doubled(a, n - 1)
  }

  lemma {:induction false} DoubledIs(a: nat, n: nat)
    ensures Doubled(a, n) == TwoTo(n) * a
  {
    if n > 0 {
      DoubledIs(a, n - 1);
      assert 2 * TwoTo(n - 1) * a == 2 * (TwoTo(n - 1) * a);
    }
  }

  lemma SmallDoublings()
    ensures TwoTo(4) == 16 && TwoTo(5) == 32 && TwoTo(10) == 1024
  {
    assert TwoTo(2) == 4;
    TwoToAdd(2, 2);
    assert TwoTo(5) == 2 * TwoTo(4);
    TwoToAdd(5, 5);
  }

  lemma LargeDoublings()
    ensures TwoTo(20) == 0x10_0000 && TwoTo(50) == 0x4_0000_0000_0000
    ensures TwoTo(100) == 0x10_0000_0000_0000_0000_0000_0000
  {
    SmallDoublings();
    hide TwoTo;
    TwoToAdd(10, 10);
    TwoToAdd(20, 20);
    TwoToAdd(40, 10);
    TwoToAdd(50, 50);
  }

  /** One squaring followed by the loop `for (i = 1; i < n; ++i)` of squarings. */
  method SqRepeatedly(f: Fe, n: nat, ghost z: int, ghost a: nat, ghost b: nat) returns (h: Fe)
    requires n >= 1 && IsPower(f, z, a) && b == TwoTo(n) * a
    ensures IsPower(h, z, b)
  {
    TightIsOperand(f);
    h := SqPower(f, z, a);
    assert Doubled(a, 1) == 2 * Doubled(a, 0);
    for i := 1 to n
      invariant IsPower(h, z, Doubled(a, i))
    {
      TightIsOperand(h);
      h := SqPower(h, z, Doubled(a, i));
    }
    DoubledIs(a, n);
  }

  lemma OneIsPower(f: Fe, z: int)
    requires Stands(f, z)
    ensures Stands(f, Pow(z, 1))
  {
    assert Pow(z, 1) == z * Pow(z, 0);
  }

  /** z^(2^255 - 21), which is z^(p - 2). */
  method FeInvert(f: Fe, ghost z: int) returns (h: Fe)
    requires MulOperand(f) && Stands(f, z)
    ensures IsPower(h, z, P - 2) && Stands(h, Inv(z))
  {
    OneIsPower(f, z);
    SmallDoublings();
    LargeDoublings();
    var t0 := SqPower(f, z, 1);
    var t1 := SqPower(t0, z, 2);
    t1 := SqPower(t1, z, 4);
    t1 := MulPowers(f, t1, z, 1, 8);
    t0 := MulPowers(t0, t1, z, 2, 9);
    var t2 := SqPower(t0, z, 11);
    t1 := MulPowers(t1, t2, z, 9, 22);
    t2 := SqRepeatedly(t1, 5, z, 31, 992);
    t1 := MulPowers(t2, t1, z, 992, 31);
    t2 := SqRepeatedly(t1, 10, z, 1023, 0xf_fc00);
    t2 := MulPowers(t2, t1, z, 0xf_fc00, 1023);
    var t3 := SqRepeatedly(t2, 20, z, 0xf_ffff, 0xff_fff0_0000);
    t2 := MulPowers(t3, t2, z, 0xff_fff0_0000, 0xf_ffff);
    t2 := SqRepeatedly(t2, 10, z, 0xff_ffff_ffff, 0x3_ffff_ffff_fc00);
    t1 := MulPowers(t2, t1, z, 0x3_ffff_ffff_fc00, 1023);
    t2 := SqRepeatedly(t1, 50, z, 0x3_ffff_ffff_ffff, 0xf_ffff_ffff_fffc_0000_0000_0000);
    t2 := MulPowers(t2, t1, z, 0xf_ffff_ffff_fffc_0000_0000_0000, 0x3_ffff_ffff_ffff);
    t3 := SqRepeatedly(t2, 100, z, 0xf_ffff_ffff_ffff_ffff_ffff_ffff, 0xff_ffff_ffff_ffff_ffff_ffff_fff0_0000_0000_0000_0000_0000_0000);
    t2 := MulPowers(t3, t2, z, 0xff_ffff_ffff_ffff_ffff_ffff_fff0_0000_0000_0000_0000_0000_0000, 0xf_ffff_ffff_ffff_ffff_ffff_ffff);
    t2 := SqRepeatedly(t2, 50, z, 0xff_ffff_ffff_ffff_ffff_ffff_ffff_ffff_ffff_ffff_ffff_ffff_ffff, 0x3ff_ffff_ffff_ffff_ffff_ffff_ffff_ffff_ffff_ffff_ffff_ffff_fffc_0000_0000_0000);
    t1 := MulPowers(t2, t1, z, 0x3ff_ffff_ffff_ffff_ffff_ffff_ffff_ffff_ffff_ffff_ffff_ffff_fffc_0000_0000_0000, 0x3_ffff_ffff_ffff);
    t1 := SqRepeatedly(t1, 5, z, 0x3ff_ffff_ffff_ffff_ffff_ffff_ffff_ffff_ffff_ffff_ffff_ffff_ffff_ffff_ffff_ffff, 0x7fff_ffff_ffff_ffff_ffff_ffff_ffff_ffff_ffff_ffff_ffff_ffff_ffff_ffff_ffff_ffe0);
    h := MulPowers(t1, t0, z, 0x7fff_ffff_ffff_ffff_ffff_ffff_ffff_ffff_ffff_ffff_ffff_ffff_ffff_ffff_ffff_ffe0, 11);
  }

  /** z^(2^252 - 3), which is z^((p - 5) / 8). */
  method FePow22523(f: Fe, ghost z: int) returns (h: Fe)
    requires MulOperand(f) && Stands(f, z)
    ensures IsPower(h, z, (P - 5) / 8)
  {
    OneIsPower(f, z);
    SmallDoublings();
    LargeDoublings();
    var t0 := SqPower(f, z, 1);
    var t1 := SqPower(t0, z, 2);
    t1 := SqPower(t1, z, 4);
    t1 := MulPowers(f, t1, z, 1, 8);
    t0 := MulPowers(t0, t1, z, 2, 9);
    t0 := SqPower(t0, z, 11);
    t0 := MulPowers(t1, t0, z, 9, 22);
    t1 := SqRepeatedly(t0, 5, z, 31, 992);
    t0 := MulPowers(t1, t0, z, 992, 31);
    t1 := SqRepeatedly(t0, 10, z, 1023, 0xf_fc00);
    t1 := MulPowers(t1, t0, z, 0xf_fc00, 1023);
    var t2 := SqRepeatedly(t1, 20, z, 0xf_ffff, 0xff_fff0_0000);
    t1 := MulPowers(t2, t1, z, 0xff_fff0_0000, 0xf_ffff);
    t1 := SqRepeatedly(t1, 10, z, 0xff_ffff_ffff, 0x3_ffff_ffff_fc00);
    t0 := MulPowers(t1, t0, z, 0x3_ffff_ffff_fc00, 1023);
    t1 := SqRepeatedly(t0, 50, z, 0x3_ffff_ffff_ffff, 0xf_ffff_ffff_fffc_0000_0000_0000);
    t1 := MulPowers(t1, t0, z, 0xf_ffff_ffff_fffc_0000_0000_0000, 0x3_ffff_ffff_ffff);
    t2 := SqRepeatedly(t1, 100, z, 0xf_ffff_ffff_ffff_ffff_ffff_ffff, 0xff_ffff_ffff_ffff_ffff_ffff_fff0_0000_0000_0000_0000_0000_0000);
    t1 := MulPowers(t2, t1, z, 0xff_ffff_ffff_ffff_ffff_ffff_fff0_0000_0000_0000_0000_0000_0000, 0xf_ffff_ffff_ffff_ffff_ffff_ffff);
    t1 := SqRepeatedly(t1, 50, z, 0xff_ffff_ffff_ffff_ffff_ffff_ffff_ffff_ffff_ffff_ffff_ffff_ffff, 0x3ff_ffff_ffff_ffff_ffff_ffff_ffff_ffff_ffff_ffff_ffff_ffff_fffc_0000_0000_0000);
    t0 := MulPowers(t1, t0, z, 0x3ff_ffff_ffff_ffff_ffff_ffff_ffff_ffff_ffff_ffff_ffff_ffff_fffc_0000_0000_0000, 0x3_ffff_ffff_ffff);
    t0 := SqPower(t0, z, 0x3ff_ffff_ffff_ffff_ffff_ffff_ffff_ffff_ffff_ffff_ffff_ffff_ffff_ffff_ffff_ffff);
    t0 := SqPower(t0, z, 0x7ff_ffff_ffff_ffff_ffff_ffff_ffff_ffff_ffff_ffff_ffff_ffff_ffff_ffff_ffff_fffe);
    h := MulPowers(t0, f, z, 0xfff_ffff_ffff_ffff_ffff_ffff_ffff_ffff_ffff_ffff_ffff_ffff_ffff_ffff_ffff_fffc, 1);
  }

  /** z^(2^254 - 10), which is z^((p - 1) / 2). */
  method FeChi(f: Fe, ghost z: int) returns (h: Fe)
    requires MulOperand(f) && Stands(f, z)
    ensures IsPower(h, z, (P - 1) / 2)
  {
    OneIsPower(f, z);
    SmallDoublings();
    LargeDoublings();
    var t0 := SqPower(f, z, 1);
    var t1 := MulPowers(t0, f, z, 2, 1);
    t0 := SqPower(t1, z, 3);
    var t2 := SqPower(t0, z, 6);
    t2 := SqPower(t2, z, 12);
    t2 := MulPowers(t2, t0, z, 24, 6);
    t1 := MulPowers(t2, f, z, 30, 1);
    t2 := SqRepeatedly(t1, 5, z, 31, 992);
    t1 := MulPowers(t2, t1, z, 992, 31);
    t2 := SqRepeatedly(t1, 10, z, 1023, 0xf_fc00);
    t2 := MulPowers(t2, t1, z, 0xf_fc00, 1023);
    var t3 := SqRepeatedly(t2, 20, z, 0xf_ffff, 0xff_fff0_0000);
    t2 := MulPowers(t3, t2, z, 0xff_fff0_0000, 0xf_ffff);
    t2 := SqRepeatedly(t2, 10, z, 0xff_ffff_ffff, 0x3_ffff_ffff_fc00);
    t1 := MulPowers(t2, t1, z, 0x3_ffff_ffff_fc00, 1023);
    t2 := SqRepeatedly(t1, 50, z, 0x3_ffff_ffff_ffff, 0xf_ffff_ffff_fffc_0000_0000_0000);
    t2 := MulPowers(t2, t1, z, 0xf_ffff_ffff_fffc_0000_0000_0000, 0x3_ffff_ffff_ffff);
    t3 := SqRepeatedly(t2, 100, z, 0xf_ffff_ffff_ffff_ffff_ffff_ffff, 0xff_ffff_ffff_ffff_ffff_ffff_fff0_0000_0000_0000_0000_0000_0000);
    t2 := MulPowers(t3, t2, z, 0xff_ffff_ffff_ffff_ffff_ffff_fff0_0000_0000_0000_0000_0000_0000, 0xf_ffff_ffff_ffff_ffff_ffff_ffff);
    t2 := SqRepeatedly(t2, 50, z, 0xff_ffff_ffff_ffff_ffff_ffff_ffff_ffff_ffff_ffff_ffff_ffff_ffff, 0x3ff_ffff_ffff_ffff_ffff_ffff_ffff_ffff_ffff_ffff_ffff_ffff_fffc_0000_0000_0000);
    t1 := MulPowers(t2, t1, z, 0x3ff_ffff_ffff_ffff_ffff_ffff_ffff_ffff_ffff_ffff_ffff_ffff_fffc_0000_0000_0000, 0x3_ffff_ffff_ffff);
    t1 := SqRepeatedly(t1, 4, z, 0x3ff_ffff_ffff_ffff_ffff_ffff_ffff_ffff_ffff_ffff_ffff_ffff_ffff_ffff_ffff_ffff, 0x3fff_ffff_ffff_ffff_ffff_ffff_ffff_ffff_ffff_ffff_ffff_ffff_ffff_ffff_ffff_fff0);
    h := MulPowers(t1, t0, z, 0x3fff_ffff_ffff_ffff_ffff_ffff_ffff_ffff_ffff_ffff_ffff_ffff_ffff_ffff_ffff_fff0, 6);
  }
}
