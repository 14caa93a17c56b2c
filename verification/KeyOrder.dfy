/** Which keys the test against the low-order list refuses: exactly the points the cofactor kills,
    and never a key derived from a seed. */
module KeyOrder {
  import opened Bits
  import opened Wrappers
  import opened Bytes
  import opened Residues
  import opened FieldBytes
  import opened Edwards
  import opened EdwardsGroup
  import opened GroupOrder
  import opened ScalarLimbs
  import opened PointEncoding
  import opened PointStrings
  import opened VrfSpec
  import opened SmallOrder
  import opened Vrf

  // ---------- The list ----------

  /** The numbers listed: the five y coordinates, and 0 and 1 once more as p and p + 1. */
  function ListedValue(i: nat): int
    requires i < 7
  {
    [0, 1, C, P - C, P - 1, P, P + 1][i]
  }

  lemma Row0()
    ensures LeVal(BLACKLIST[0]) == ListedValue(0)
  {
    hide LeVal, Octets;
    EightFours([0x00, 0x00, 0x00, 0x00], [0x00, 0x00, 0x00, 0x00], [0x00, 0x00, 0x00, 0x00], [0x00, 0x00, 0x00, 0x00],
               [0x00, 0x00, 0x00, 0x00], [0x00, 0x00, 0x00, 0x00], [0x00, 0x00, 0x00, 0x00], [0x00, 0x00, 0x00, 0x00]);
    FourOctets(0x00, 0x00, 0x00, 0x00);
  }

  lemma Row1()
    ensures LeVal(BLACKLIST[1]) == ListedValue(1)
  {
    hide LeVal, Octets;
    EightFours([0x01, 0x00, 0x00, 0x00], [0x00, 0x00, 0x00, 0x00], [0x00, 0x00, 0x00, 0x00], [0x00, 0x00, 0x00, 0x00],
               [0x00, 0x00, 0x00, 0x00], [0x00, 0x00, 0x00, 0x00], [0x00, 0x00, 0x00, 0x00], [0x00, 0x00, 0x00, 0x00]);
    FourOctets(0x01, 0x00, 0x00, 0x00);
    FourOctets(0x00, 0x00, 0x00, 0x00);
  }

  lemma Row2()
    ensures LeVal(BLACKLIST[2]) == ListedValue(2)
  {
    hide LeVal, Octets;
    EightFours([0x26, 0xe8, 0x95, 0x8f], [0xc2, 0xb2, 0x27, 0xb0], [0x45, 0xc3, 0xf4, 0x89], [0xf2, 0xef, 0x98, 0xf0],
               [0xd5, 0xdf, 0xac, 0x05], [0xd3, 0xc6, 0x33, 0x39], [0xb1, 0x38, 0x02, 0x88], [0x6d, 0x53, 0xfc, 0x05]);
    FourOctets(0x26, 0xe8, 0x95, 0x8f);
    FourOctets(0xc2, 0xb2, 0x27, 0xb0);
    FourOctets(0x45, 0xc3, 0xf4, 0x89);
    FourOctets(0xf2, 0xef, 0x98, 0xf0);
    FourOctets(0xd5, 0xdf, 0xac, 0x05);
    FourOctets(0xd3, 0xc6, 0x33, 0x39);
    FourOctets(0xb1, 0x38, 0x02, 0x88);
    FourOctets(0x6d, 0x53, 0xfc, 0x05);
  }

  lemma Row3()
    ensures LeVal(BLACKLIST[3]) == ListedValue(3)
  {
    hide LeVal, Octets;
    EightFours([0xc7, 0x17, 0x6a, 0x70], [0x3d, 0x4d, 0xd8, 0x4f], [0xba, 0x3c, 0x0b, 0x76], [0x0d, 0x10, 0x67, 0x0f],
               [0x2a, 0x20, 0x53, 0xfa], [0x2c, 0x39, 0xcc, 0xc6], [0x4e, 0xc7, 0xfd, 0x77], [0x92, 0xac, 0x03, 0x7a]);
    FourOctets(0xc7, 0x17, 0x6a, 0x70);
    FourOctets(0x3d, 0x4d, 0xd8, 0x4f);
    FourOctets(0xba, 0x3c, 0x0b, 0x76);
    FourOctets(0x0d, 0x10, 0x67, 0x0f);
    FourOctets(0x2a, 0x20, 0x53, 0xfa);
    FourOctets(0x2c, 0x39, 0xcc, 0xc6);
    FourOctets(0x4e, 0xc7, 0xfd, 0x77);
    FourOctets(0x92, 0xac, 0x03, 0x7a);
  }

  lemma Row4()
    ensures LeVal(BLACKLIST[4]) == ListedValue(4)
  {
    hide LeVal, Octets;
    EightFours([0xec, 0xff, 0xff, 0xff], [0xff, 0xff, 0xff, 0xff], [0xff, 0xff, 0xff, 0xff], [0xff, 0xff, 0xff, 0xff],
               [0xff, 0xff, 0xff, 0xff], [0xff, 0xff, 0xff, 0xff], [0xff, 0xff, 0xff, 0xff], [0xff, 0xff, 0xff, 0x7f]);
    FourOctets(0xec, 0xff, 0xff, 0xff);
    FourOctets(0xff, 0xff, 0xff, 0xff);
    FourOctets(0xff, 0xff, 0xff, 0x7f);
  }

  lemma Row5()
    ensures LeVal(BLACKLIST[5]) == ListedValue(5)
  {
    hide LeVal, Octets;
    EightFours([0xed, 0xff, 0xff, 0xff], [0xff, 0xff, 0xff, 0xff], [0xff, 0xff, 0xff, 0xff], [0xff, 0xff, 0xff, 0xff],
               [0xff, 0xff, 0xff, 0xff], [0xff, 0xff, 0xff, 0xff], [0xff, 0xff, 0xff, 0xff], [0xff, 0xff, 0xff, 0x7f]);
    FourOctets(0xed, 0xff, 0xff, 0xff);
    FourOctets(0xff, 0xff, 0xff, 0xff);
    FourOctets(0xff, 0xff, 0xff, 0x7f);
  }

  lemma Row6()
    ensures LeVal(BLACKLIST[6]) == ListedValue(6)
  {
    hide LeVal, Octets;
    EightFours([0xee, 0xff, 0xff, 0xff], [0xff, 0xff, 0xff, 0xff], [0xff, 0xff, 0xff, 0xff], [0xff, 0xff, 0xff, 0xff],
               [0xff, 0xff, 0xff, 0xff], [0xff, 0xff, 0xff, 0xff], [0xff, 0xff, 0xff, 0xff], [0xff, 0xff, 0xff, 0x7f]);
    FourOctets(0xee, 0xff, 0xff, 0xff);
    FourOctets(0xff, 0xff, 0xff, 0xff);
    FourOctets(0xff, 0xff, 0xff, 0x7f);
  }

  lemma RowValue(i: nat)
    requires i < 7
    ensures LeVal(BLACKLIST[i]) == ListedValue(i)
  {
    Row0();
    Row1();
    Row2();
    Row3();
    Row4();
    Row5();
    Row6();
    hide LeVal, ListedValue;
  }

  /** A string is listed if its y, reduced or not, is one of the numbers. */
  lemma ListedIff(s: seq<byte>)
    requires |s| == 32
    ensures IsSmallOrder(s) <==> exists i :: 0 <= i < 7 && LeVal(s) % TWO_255 == ListedValue(i)
  {
    var t := WithoutTopBit(s);
    ClearedTop(s, t);
    hide LeVal, ListedValue;
    forall i | 0 <= i < 7 ensures BLACKLIST[i] == t <==> LeVal(t) == ListedValue(i) {
      RowLength(i);
      RowValue(i);
      if LeVal(t) == ListedValue(i) {
        LeValInjective(BLACKLIST[i], t);
      }
    }
  }

  lemma SmallOrReduced(y: int)
    requires y < P
    ensures IsSmallY(y) <==> exists i :: 0 <= i < 7 && y == ListedValue(i)
  {
    assert ListedValue(0) == 0 && ListedValue(1) == 1 && ListedValue(2) == C && ListedValue(3) == P - C
        && ListedValue(4) == P - 1;
  }

  /** The list refuses a point string exactly when the cofactor kills the point. */
  lemma ListedPoints(d: int, s: seq<byte>, a: Point)
    requires EdwardsCurve(d) && |s| == 32 && StringPoint(d, s) == Some(a)
    ensures IsSmallOrder(s) <==> KilledBy(d, 8, a)
  {
    var y := LeVal(s) % TWO_255;
    CongRefl(y);
    CanonUnique(y, y);
    ListedIff(s);
    hide IsSmallOrder, ListedValue, IsSmallY, LeVal;
    SmallOrReduced(y);
    SmallOrderIff(d, a);
  }

  /** Key validation accepts exactly the point strings of points that survive the cofactor. */
  lemma ValidKeys(d: int, pk: seq<byte>, a: Point)
    requires EdwardsCurve(d) && |pk| == 32
    ensures ValidKey(d, IsSmallOrder, pk) == Some(a) <==> StringPoint(d, pk) == Some(a) && !KilledBy(d, 8, a)
  {
    hide StringPoint, IsSmallOrder;
    if StringPoint(d, pk) == Some(a) {
      ListedPoints(d, pk, a);
    }
  }

  // ---------- Clamped scalars ----------

  lemma ClampedEnds(h: seq<byte>)
    requires |h| == 64
    ensures Clamped(h)[0] % 8 == 0 && 64 <= Clamped(h)[31] <= 127
  {
    ClampOctets(h[0], h[31]);
    DroppedBits(h[0]);
    hide And, Or;
  }

  lemma DroppedBits(x: int)
    ensures (x - x % 8) % 8 == 0
  {
  }

  /** A clamped scalar is a multiple of 8 strictly between 0 and 8 L. */
  lemma ClampedRange(h: seq<byte>) returns (m: int)
    requires |h| == 64
    ensures LeVal(Clamped(h)) == 8 * m && 0 < m < L
  {
    var s := Clamped(h);
    ClampedEnds(h);
    hide Clamped;
    LastOctet(s);
    LeValBound(s[..31]);
    ThirtyOne();
    assert LeVal(s) == s[0] + 256 * LeVal(s[1..]);
    m := s[0] / 8 + 32 * LeVal(s[1..]);
    hide LeVal, Pow256;
  }

  // ---------- Keys ----------

  /** 64 U = 1 modulo L. */
  const U: int := 0x06c0_0000_0000_0000_0000_0000_0000_0000_08ce_1169_ecc0_762a_6d27_c1cf_1f37_b568

  lemma InverseOf64(m: int)
    requires m > 0
    ensures m == U * (64 * m) + -(27 * m * L) && 27 * m > 0
  {
    assert 64 * U == 27 * L + 1;
  }

  /** L is odd: what 64 kills in the subgroup is zero. */
  lemma KilledByCofactors(d: int, base: Point, m: int)
    requires EdwardsCurve(d) && OnCurve(d, base) && KilledBy(d, L, base) && m > 0
    requires KilledBy(d, 8, Mul(d, 8 * m, base))
    ensures KilledBy(d, m, base)
  {
    MulMulNat(d, 8, 8 * m, base);
    MultipleOfKiller(d, U, 64 * m, base);
    InverseOf64(m);
    MultipleOfKiller(d, 27 * m, L, base);
    MulNeg(d, 27 * m * L, base);
    MulAdd(d, U * (64 * m), -(27 * m * L), base);
    ZeroOnCurve(d);
    AddZero(d, Zero);
    NegZero();
  }

  lemma SurvivesCofactor(d: int, base: Point, m: int)
    requires EdwardsCurve(d) && GroupOrders(d, base) && 0 < m < L
    ensures !KilledBy(d, 8, Mul(d, 8 * m, base))
  {
    hide KilledBy;
    if KilledBy(d, 8, Mul(d, 8 * m, base)) {
      KilledByCofactors(d, base, m);
      assert false;
    }
  }

  /** Every derived public key is valid. */
  lemma DerivedKeysAreValid(d: int, base: Point, hash: Hash, seed: seq<byte>)
    requires EdwardsCurve(d) && GroupOrders(d, base) && IsHash(hash)
    ensures !IsSmallOrder(PublicKey(d, base, hash, seed))
    ensures ValidKey(d, IsSmallOrder, PublicKey(d, base, hash, seed)) == Some(Mul(d, SecretScalar(hash, seed), base))
  {
    PublicKeyDecodes(d, base, hash, seed);
    var m := ClampedRange(hash(seed));
    hide Clamped, LeVal, StringPoint, IsSmallOrder, PublicKey;
    SurvivesCofactor(d, base, m);
    ListedPoints(d, PublicKey(d, base, hash, seed), Mul(d, SecretScalar(hash, seed), base));
  }
}
