/** Bitwise operations on numbers, bit by bit, and what they amount to where the source uses them
    as masks, as selections or to join fields that do not overlap. */
module Bits {
  import opened Arithmetic
  import opened Bytes

  function TwoTo(k: nat): (p: nat)
    ensures p > 0
  {
    if k == 0 then 1 else 2 * TwoTo(k - 1)
  }

  /** The low k bits of x & y. */
  function AndBits(x: nat, y: nat, k: nat): nat
    decreases k, x, y
  {
    if k == 0 then 0 else (if x % 2 == 1 && y % 2 == 1 then 1 else 0) + 2 * AndBits(x / 2, y / 2, k - 1)
  }

  /** The low k bits of x ^ y. */
  function XorBits(x: nat, y: nat, k: nat): nat
    decreases k, x, y
  {
    if k == 0 then 0 else (x + y) % 2 + 2 * XorBits(x / 2, y / 2, k - 1)
  }

  /** The low k bits of x | y. */
  function OrBits(x: nat, y: nat, k: nat): nat
    decreases k, x, y
  {
    if k == 0 then 0 else (if x % 2 == 1 || y % 2 == 1 then 1 else 0) + 2 * OrBits(x / 2, y / 2, k - 1)
  }

  lemma {:induction false} BitsBound(x: nat, y: nat, k: nat)
    ensures AndBits(x, y, k) < TwoTo(k) && XorBits(x, y, k) < TwoTo(k) && OrBits(x, y, k) < TwoTo(k)
  {
    if k > 0 {
      BitsBound(x / 2, y / 2, k - 1);
    }
  }

  lemma Halved(x: nat, k: nat)
    requires k > 0 && x < TwoTo(k)
    ensures x / 2 < TwoTo(k - 1) && x == x % 2 + 2 * (x / 2)
  {
  }

  lemma {:induction false} XorBitsZero(x: nat, y: nat, k: nat)
    requires x < TwoTo(k) && y < TwoTo(k)
    ensures XorBits(x, y, k) == 0 <==> x == y
  {
    if k > 0 {
      Halved(x, k);
      Halved(y, k);
      XorBitsZero(x / 2, y / 2, k - 1);
      hide TwoTo;
      var u := XorBits(x / 2, y / 2, k - 1);
      assert XorBits(x, y, k) == (x + y) % 2 + 2 * u;
    }
  }

  lemma {:induction false} OrBitsZero(x: nat, y: nat, k: nat)
    requires x < TwoTo(k) && y < TwoTo(k)
    ensures OrBits(x, y, k) == 0 <==> x == 0 && y == 0
  {
    if k > 0 {
      OrBitsZero(x / 2, y / 2, k - 1);
    }
  }

  lemma XorDigits(x: nat, y: nat, k: nat)
    requires k > 0
    ensures XorBits(x, y, k) % 2 == (x + y) % 2 && XorBits(x, y, k) / 2 == XorBits(x / 2, y / 2, k - 1)
  {
    LowDigit((x + y) % 2, XorBits(x / 2, y / 2, k - 1));
  }

  lemma LowDigit(b: nat, u: nat)
    requires b < 2
    ensures (b + 2 * u) % 2 == b && (b + 2 * u) / 2 == u
  {
  }

  lemma TwiceParity(x: nat, y: nat, z: nat)
    requires z % 2 == (x + y) % 2
    ensures (x + z) % 2 == y % 2
  {
  }

  /** x ^ (x ^ y) is y. */
  lemma {:induction false} XorTwice(x: nat, y: nat, k: nat)
    requires x < TwoTo(k) && y < TwoTo(k)
    ensures XorBits(x, XorBits(x, y, k), k) == y
  {
    if k > 0 {
      var z := XorBits(x, y, k);
      Halved(x, k);
      Halved(y, k);
      XorTwice(x / 2, y / 2, k - 1);
      XorDigits(x, y, k);
      XorDigits(x, z, k);
      TwiceParity(x, y, z);
      hide XorBits, TwoTo;
      var w := XorBits(x, z, k);
      assert w == w % 2 + 2 * (w / 2);
    }
  }

  lemma {:induction false} XorWithZero(x: nat, k: nat)
    requires x < TwoTo(k)
    ensures XorBits(x, 0, k) == x
  {
    if k > 0 {
      XorWithZero(x / 2, k - 1);
    }
  }

  lemma {:induction false} AndWithZero(x: nat, k: nat)
    ensures AndBits(x, 0, k) == 0
  {
    if k > 0 {
      AndWithZero(x / 2, k - 1);
    }
  }

  lemma HalveMod(x: nat, m: nat)
    requires m > 0
    ensures x % (2 * m) == x % 2 + 2 * (x / 2 % m)
  {
    var q, r := x / 2 / m, x / 2 % m;
    assert x / 2 == m * q + r;
    assert x == 2 * m * q + (x % 2 + 2 * r);
    DivUnique(x, 2 * m, q, x % 2 + 2 * r);
  }

  lemma AndOddStep(x: nat, m: nat, k: nat)
    requires k > 0 && m > 0 && AndBits(x / 2, m - 1, k - 1) == x / 2 % m
    ensures AndBits(x, 2 * m - 1, k) == x % (2 * m)
  {
    HalveMod(x, m);
    assert (2 * m - 1) % 2 == 1 && (2 * m - 1) / 2 == m - 1;
    assert AndBits(x, 2 * m - 1, k) == x % 2 + 2 * AndBits(x / 2, m - 1, k - 1);
  }

  /** A mask of e ones keeps the e low bits. */
  lemma {:induction false} AndLow(x: nat, e: nat, k: nat)
    requires e <= k
    ensures AndBits(x, TwoTo(e) - 1, k) == x % TwoTo(e)
  {
    if e == 0 {
      AndWithZero(x, k);
    } else {
      AndLow(x / 2, e - 1, k - 1);
      AndOddStep(x, TwoTo(e - 1), k);
    }
  }

  lemma AndDigits(x: nat, y: nat, k: nat)
    requires k > 0 && y % 2 == 0
    ensures AndBits(x, y, k) == 2 * AndBits(x / 2, y / 2, k - 1)
  {
  }

  lemma AndHighStep(x: nat, m: nat, n: nat, k: nat)
    requires k > 0 && n > 0 && m >= n && AndBits(x / 2, m - n, k - 1) == x / 2 - x / 2 % n
    ensures AndBits(x, 2 * m - 2 * n, k) == x - x % (2 * n)
  {
    AndDigits(x, 2 * m - 2 * n, k);
    HalveMod(x, n);
    hide AndBits;
    assert (2 * m - 2 * n) / 2 == m - n;
  }

  /** A mask of ones from bit e up clears the e low bits. */
  lemma {:induction false} AndHigh(x: nat, e: nat, k: nat)
    requires e <= k && x < TwoTo(k)
    ensures TwoTo(k) >= TwoTo(e) && AndBits(x, TwoTo(k) - TwoTo(e), k) == x - x % TwoTo(e)
  {
    if e == 0 {
      AndLow(x, k, k);
      SmallMod(x, TwoTo(k));
    } else {
      Halved(x, k);
      AndHigh(x / 2, e - 1, k - 1);
      AndHighStep(x, TwoTo(k - 1), TwoTo(e - 1), k);
    }
  }

  lemma SmallMod(x: nat, m: nat)
    requires x < m
    ensures x % m == x
  {
  }

  lemma SumParity(x: nat, y: nat)
    requires !(x % 2 == 1 && y % 2 == 1)
    ensures (x + y) % 2 == x % 2 + y % 2
    ensures (if x % 2 == 1 || y % 2 == 1 then 1 else 0) == x % 2 + y % 2
  {
  }

  lemma JoinDigits(x: nat, y: nat, k: nat)
    requires k > 0 && !(x % 2 == 1 && y % 2 == 1)
    ensures OrBits(x, y, k) == (x % 2 + y % 2) + 2 * OrBits(x / 2, y / 2, k - 1)
    ensures XorBits(x, y, k) == (x % 2 + y % 2) + 2 * XorBits(x / 2, y / 2, k - 1)
  {
    SumParity(x, y);
  }

  lemma EvenMultiple(y: nat, m: nat)
    requires m > 0 && y % (2 * m) == 0
    ensures y % 2 == 0 && y / 2 % m == 0
  {
    HalveMod(y, m);
  }

  /** Fields that do not overlap can be joined by addition. */
  lemma {:induction false} Disjoint(x: nat, y: nat, e: nat, k: nat)
    requires e <= k && x < TwoTo(e) && y < TwoTo(k) && y % TwoTo(e) == 0
    ensures OrBits(x, y, k) == x + y && XorBits(x, y, k) == x + y
  {
    if k > 0 {
      Halved(y, k);
      if e == 0 {
        Disjoint(0, y / 2, 0, k - 1);
        JoinDigits(0, y, k);
      } else {
        Halved(x, e);
        EvenMultiple(y, TwoTo(e - 1));
        Disjoint(x / 2, y / 2, e - 1, k - 1);
        JoinDigits(x, y, k);
      }
      hide TwoTo, OrBits, XorBits;
    }
  }

  /** Setting bit e of a number whose bits end there. */
  lemma {:induction false} SetTop(x: nat, e: nat, k: nat)
    requires e < k && x < TwoTo(e + 1)
    ensures OrBits(x, TwoTo(e), k) == x % TwoTo(e) + TwoTo(e)
  {
    if e == 0 {
      assert TwoTo(1) == 2;
      OrWithZero(k - 1);
    } else {
      SetTop(x / 2, e - 1, k - 1);
      HalveMod(x, TwoTo(e - 1));
    }
  }

  lemma {:induction false} OrWithZero(k: nat)
    ensures OrBits(0, 0, k) == 0
  {
    if k > 0 {
      OrWithZero(k - 1);
    }
  }

  // ---------- Octets ----------

  lemma EightBits()
    ensures TwoTo(8) == 256
  {
    assert TwoTo(4) == 16;
  }

  function Xor(x: byte, y: byte): (r: byte)
    ensures r == 0 <==> x == y
  {
    EightBits();
    BitsBound(x, y, 8);
    XorBitsZero(x, y, 8);
    XorBits(x, y, 8)
  }

  function Or(x: byte, y: byte): (r: byte)
    ensures r == 0 <==> x == 0 && y == 0
  {
    EightBits();
    BitsBound(x, y, 8);
    OrBitsZero(x, y, 8);
    OrBits(x, y, 8)
  }

  function And(x: byte, y: byte): (r: byte) {
    EightBits();
    BitsBound(x, y, 8);
    AndBits(x, y, 8)
  }

  /** An all-ones or all-zeros mask keeps an octet or clears it. */
  lemma MaskOctet(x: byte, m: byte)
    requires m == 255 || m == 0
    ensures And(x, m) == if m == 255 then x else 0
  {
    EightBits();
    hide AndBits, TwoTo;
    if m == 255 {
      AndLow(x, 8, 8);
      SmallMod(x, 256);
    } else {
      AndWithZero(x, 8);
    }
  }

  lemma OrBit(x: byte, y: byte)
    requires x <= 1 && y <= 1
    ensures Or(x, y) == if x == 1 || y == 1 then 1 else 0
  {
    OrWithZero(7);
  }

  /** Joining the sign to an octet whose top bit is clear. */
  lemma JoinTopBit(x: byte, b: int)
    requires x < 128 && 0 <= b <= 1
    ensures Xor(x, 128 * b) == Or(x, 128 * b) == x + 128 * b
  {
    EightBits();
    assert TwoTo(7) == 128;
    Disjoint(x, 128 * b, 7, 8);
  }

  lemma SmallPowers()
    ensures TwoTo(3) == 8 && TwoTo(6) == 64 && TwoTo(7) == 128 && TwoTo(8) == 256
  {
    EightBits();
  }

  /** The three clamping masks: & 248, & 127 and | 64. */
  lemma ClampOctets(low: byte, high: byte)
    ensures And(low, 248) == low - low % 8
    ensures And(high, 127) == high % 128
    ensures Or(And(high, 127), 64) == high % 64 + 64
  {
    SmallPowers();
    hide AndBits, OrBits, TwoTo;
    AndHigh(low, 3, 8);
    AndLow(high, 7, 8);
    SetTop(high % 128, 6, 8);
    assert high % 128 % 64 == high % 64;
  }

  /** A divisor of a power of two is a power of two. */
  lemma {:induction false} PowerOfTwo(s: nat, r: nat, k: nat) returns (e: nat)
    requires s * r == TwoTo(k)
    ensures e <= k && s == TwoTo(e)
    decreases k
  {
    if k == 0 {
      OneTimes(s, r);
      e := 0;
    } else if s % 2 == 0 {
      assert (s / 2) * r == TwoTo(k - 1) by {
        assert s * r == 2 * ((s / 2) * r);
      }
      e := PowerOfTwo(s / 2, r, k - 1);
      e := e + 1;
    } else {
      EvenFactor(s, r, TwoTo(k - 1));
      e := PowerOfTwo(s, r / 2, k - 1);
    }
  }

  lemma OneTimes(s: nat, r: nat)
    requires s * r == 1
    ensures s == 1
  {
    if r >= 1 {
      assert (s - 1) * (r - 1) >= 0 || s == 0;
    }
  }

  lemma EvenFactor(s: nat, r: nat, h: nat)
    requires s % 2 == 1 && s * r == 2 * h
    ensures r % 2 == 0 && s * (r / 2) == h
  {
    var u := s / 2;
    assert s == 2 * u + 1;
    assert s * r == 2 * (u * r) + r;
    assert r == 2 * (h - u * r);
    assert s * r == 2 * (s * (r / 2));
  }
}
