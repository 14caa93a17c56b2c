/** Powers, inverses and zero divisors modulo p, from the assumption that p is prime.

    Primality of 2^255 - 19 is not proved here.  It enters as Fermat's little theorem, the only
    consequence of it that the field code relies on. */
module PrimeField {
  import opened Arithmetic
  import opened Bits
  import opened Residues

  function Pow(z: int, e: nat): int
    decreases e, z
  {
    if e == 0 then 1 else z * Pow(z, e - 1)
  }

  lemma {:induction false} PowAdd(z: int, a: nat, b: nat)
    ensures Pow(z, a + b) == Pow(z, a) * Pow(z, b)
  {
    if a == 0 {
      assert Pow(z, 0) == 1;
    } else {
      PowAdd(z, a - 1, b);
      assert Pow(z, a + b) == z * Pow(z, a - 1 + b);
      assert z * (Pow(z, a - 1) * Pow(z, b)) == z * Pow(z, a - 1) * Pow(z, b);
    }
  }

  lemma {:induction false} PowOfPow(z: int, a: nat, b: nat)
    ensures a * b >= 0 && Pow(Pow(z, a), b) == Pow(z, a * b)
  {
    if b == 0 {
      assert a * b == 0;
    } else {
      PowOfPow(z, a, b - 1);
      assert a * b == a + a * (b - 1);
      PowAdd(z, a, a * (b - 1));
    }
  }

  lemma {:induction false} PowOfProduct(x: int, y: int, e: nat)
    ensures Pow(x * y, e) == Pow(x, e) * Pow(y, e)
  {
    if e > 0 {
      PowOfProduct(x, y, e - 1);
      Exchange(x, y, Pow(x, e - 1), Pow(y, e - 1));
    }
  }

  lemma {:induction false} PowCong(x: int, y: int, e: nat)
    requires Cong(x, y)
    ensures Cong(Pow(x, e), Pow(y, e))
  {
    if e == 0 {
      CongRefl(1);
    } else {
      PowCong(x, y, e - 1);
      CongMul(x, y, Pow(x, e - 1), Pow(y, e - 1));
    }
  }

  lemma {:induction false} TwoToAdd(a: nat, b: nat)
    ensures TwoTo(a + b) == TwoTo(a) * TwoTo(b)
  {
    if a > 0 {
      TwoToAdd(a - 1, b);
      TwiceProduct(TwoTo(a - 1), TwoTo(b));
    }
  }

  lemma TwiceProduct(x: int, y: int)
    ensures 2 * (x * y) == 2 * x * y
  {
  }

  // ---------- Fermat ----------

  ghost predicate FermatAt(z: int) {
    !Cong(z, 0) ==> Cong(Pow(z, P - 1), 1)
  }

  /** p is prime, as far as this development needs it. */
  ghost predicate PIsPrime() {
    forall z :: FermatAt(z)
  }

  /** The inverse the code computes: z^(p-2). */
  function Inv(z: int): int {
    Pow(z, P - 2)
  }

  lemma InverseWorks(z: int)
    requires PIsPrime() && !Cong(z, 0)
    ensures Cong(z * Inv(z), 1)
  {
    assert FermatAt(z);
    assert Pow(z, P - 1) == z * Pow(z, P - 2);
  }

  lemma NoZeroDivisors(a: int, b: int)
    requires PIsPrime() && Cong(a * b, 0)
    ensures Cong(a, 0) || Cong(b, 0)
  {
    if !Cong(a, 0) {
      InverseWorks(a);
      var i := Inv(a);
      CongRefl(i);
      CongMul(a * b, 0, i, i);
      CongRefl(b);
      CongMul(a * i, 1, b, b);
      assert a * b * i == a * i * b;
      CongSym(a * i * b, b);
      CongTrans(b, a * i * b, 0);
    }
  }

  /** A nonzero factor can be cancelled. */
  lemma Cancel(a: int, b: int, c: int)
    requires PIsPrime() && !Cong(c, 0) && Cong(a * c, b * c)
    ensures Cong(a, b)
  {
    CongRefl(b * c);
    CongSub(a * c, b * c, b * c, b * c);
    assert a * c - b * c == (a - b) * c;
    NoZeroDivisors(a - b, c);
    CongRefl(b);
    CongAdd(a - b, 0, b, b);
  }

  lemma NonZeroProduct(a: int, b: int)
    requires PIsPrime() && !Cong(a, 0) && !Cong(b, 0)
    ensures !Cong(a * b, 0)
  {
    if Cong(a * b, 0) {
      NoZeroDivisors(a, b);
    }
  }

  lemma NonZeroCong(a: int, b: int)
    requires Cong(a, b) && !Cong(a, 0)
    ensures !Cong(b, 0)
  {
    if Cong(b, 0) {
      CongTrans(a, b, 0);
    }
  }
}
