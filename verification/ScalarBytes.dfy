/** Octet strings to 21-bit limbs and back.  Eight limbs are exactly 21 octets, so both
    directions repeat one pattern. */
module ScalarBytes {
  import opened Arithmetic
  import opened Bytes
  import opened FieldBytes
  import opened Recoding
  import opened ScalarLimbs

  // ---------- One limb out of three or four octets ----------

  lemma ShiftRight(w: int, v: int, p: int, r: int)
    requires p > 0 && p * r == 256
    ensures (w + 256 * v) / p == w / p + r * v
  {
    assert p * (w / p + r * v) == p * (w / p) + p * r * v;
    DivUnique(w + 256 * v, p, w / p + r * v, w % p);
  }

  lemma MaskHigh(n: int, m: int, z: int, q: int)
    requires 0 <= n < m && q > 0 && m * q == LIMB
    ensures (n + m * z) % LIMB == n + m * (z % q)
  {
    DigitBelow(m, q, z % q, n);
    assert m * z == m * (q * (z / q) + z % q);
    assert m * (q * (z / q)) == LIMB * (z / q);
    DivUnique(n + m * z, LIMB, z / q, n + m * (z % q));
  }

  lemma DivBelow(w: int, p: int, r: int)
    requires p > 0 && 0 <= w < p * r
    ensures 0 <= w / p < r
  {
    if w / p >= r {
      ProductNonNegative(p, w / p - r);
    }
  }

  /** The 21 bits of limb, starting inside the octet w and ending inside the octet z, with u the
      whole octets between. */
  lemma Extract(w: int, u: int, k: int, z: int, p: int, r: int, q: int)
    requires 0 <= w < 256 && 0 <= u < k && p > 0 && p * r == 256 && r > 0 && q > 0 && r * k * q == LIMB
    ensures (w + 256 * (u + k * z)) / p % LIMB == w / p + r * u + r * k * (z % q)
  {
    ShiftRight(w, u + k * z, p, r);
    DivBelow(w, p, r);
    DigitBelow(r, k, u, w / p);
    assert r * (u + k * z) == r * u + r * k * z;
    MaskHigh(w / p + r * u, r * k, z, q);
  }

  // ---------- Eight limbs out of 21 octets ----------

  function At(s: seq<int>, k: nat): int
    requires k < |s|
  {
    s[k]
  }

  function Limb0(s: seq<byte>, j: nat): int
    requires j + 3 <= |s|
  {
    Load3(s, j) % LIMB
  }

  lemma Limb0Is(s: seq<byte>, j: nat)
    requires j + 3 <= |s|
    ensures Limb0(s, j) == At(s, j) + 256 * At(s, j + 1) + 0x1_0000 * (At(s, j + 2) % 32)
  {
    Extract(At(s, j), At(s, j + 1), 256, At(s, j + 2), 1, 256, 32);
  }

  function Limb1(s: seq<byte>, j: nat): int
    requires j + 4 <= |s|
  {
    Load4(s, j) / 32 % LIMB
  }

  lemma Limb1Is(s: seq<byte>, j: nat)
    requires j + 4 <= |s|
    ensures Limb1(s, j) == At(s, j) / 32 + 8 * (At(s, j + 1) + 256 * At(s, j + 2)) + 0x8_0000 * (At(s, j + 3) % 4)
  {
    Extract(At(s, j), (At(s, j + 1) + 256 * At(s, j + 2)), 65536, At(s, j + 3), 32, 8, 4);
  }

  function Limb2(s: seq<byte>, j: nat): int
    requires j + 3 <= |s|
  {
    Load3(s, j) / 4 % LIMB
  }

  lemma Limb2Is(s: seq<byte>, j: nat)
    requires j + 3 <= |s|
    ensures Limb2(s, j) == At(s, j) / 4 + 64 * At(s, j + 1) + 0x4000 * (At(s, j + 2) % 128)
  {
    Extract(At(s, j), At(s, j + 1), 256, At(s, j + 2), 4, 64, 128);
  }

  function Limb3(s: seq<byte>, j: nat): int
    requires j + 4 <= |s|
  {
    Load4(s, j) / 128 % LIMB
  }

  lemma Limb3Is(s: seq<byte>, j: nat)
    requires j + 4 <= |s|
    ensures Limb3(s, j) == At(s, j) / 128 + 2 * (At(s, j + 1) + 256 * At(s, j + 2)) + 0x2_0000 * (At(s, j + 3) % 16)
  {
    Extract(At(s, j), (At(s, j + 1) + 256 * At(s, j + 2)), 65536, At(s, j + 3), 128, 2, 16);
  }

  function Limb4(s: seq<byte>, j: nat): int
    requires j + 4 <= |s|
  {
    Load4(s, j) / 16 % LIMB
  }

  lemma Limb4Is(s: seq<byte>, j: nat)
    requires j + 4 <= |s|
    ensures Limb4(s, j) == At(s, j) / 16 + 16 * (At(s, j + 1) + 256 * At(s, j + 2)) + 0x10_0000 * (At(s, j + 3) % 2)
  {
    Extract(At(s, j), (At(s, j + 1) + 256 * At(s, j + 2)), 65536, At(s, j + 3), 16, 16, 2);
  }

  function Limb5(s: seq<byte>, j: nat): int
    requires j + 3 <= |s|
  {
    Load3(s, j) / 2 % LIMB
  }

  lemma Limb5Is(s: seq<byte>, j: nat)
    requires j + 3 <= |s|
    ensures Limb5(s, j) == At(s, j) / 2 + 128 * At(s, j + 1) + 0x8000 * (At(s, j + 2) % 64)
  {
    Extract(At(s, j), At(s, j + 1), 256, At(s, j + 2), 2, 128, 64);
  }

  function Limb6(s: seq<byte>, j: nat): int
    requires j + 4 <= |s|
  {
    Load4(s, j) / 64 % LIMB
  }

  lemma Limb6Is(s: seq<byte>, j: nat)
    requires j + 4 <= |s|
    ensures Limb6(s, j) == At(s, j) / 64 + 4 * (At(s, j + 1) + 256 * At(s, j + 2)) + 0x4_0000 * (At(s, j + 3) % 8)
  {
    Extract(At(s, j), (At(s, j + 1) + 256 * At(s, j + 2)), 65536, At(s, j + 3), 64, 4, 8);
  }

  function Limb7(s: seq<byte>, j: nat): int
    requires j + 3 <= |s|
  {
    Load3(s, j) / 8 % LIMB
  }

  lemma Limb7Is(s: seq<byte>, j: nat)
    requires j + 3 <= |s|
    ensures Limb7(s, j) == At(s, j) / 8 + 32 * At(s, j + 1) + 0x2000 * (At(s, j + 2) % 256)
  {
    Extract(At(s, j), At(s, j + 1), 256, At(s, j + 2), 8, 32, 256);
  }

  /** The value of 21 octets. */
  function Octets21(s: seq<int>, i: nat): int
    requires i + 21 <= |s|
  {
    Quad(s, i) + TWO_128 * Word(s, i + 16) + 0x1_0000_0000 * TWO_128 * s[i + 20]
  }

  lemma LeValStep21(s: seq<byte>, i: nat)
    requires i + 21 <= |s|
    ensures LeVal(s[i..]) == Octets21(s, i) + 0x100_0000_0000 * TWO_128 * LeVal(s[i + 21..])
  {
    hide LeVal, Quad, Word;
    LeValStepQuad(s, i);
    LeValStepWord(s, i + 16);
    LeValStep(s, i + 20);
  }

  /** Eight consecutive limbs. */
  function Eight(a: int, b: int, c: int, d: int, e: int, f: int, g: int, h: int): int {
    a + 0x20_0000 * b + 0x400_0000_0000 * c + 0x8000_0000_0000_0000 * d +
    0x10_0000_0000_0000_0000_0000 * e + 0x200_0000_0000_0000_0000_0000_0000 * f +
    0x4000_0000_0000_0000_0000_0000_0000_0000 * g +
    0x8_0000_0000_0000_0000_0000_0000_0000_0000_0000 * h
  }

  lemma SplitAt(x: int, q: int)
    requires q > 0
    ensures x == x % q + q * (x / q)
  {
  }

  /** The eight limbs of a block of 21 octets have its value. */
  lemma BlockLimbs(s: seq<byte>, i: nat)
    requires i + 21 <= |s|
    ensures Eight(Limb0(s, i), Limb1(s, i + 2), Limb2(s, i + 5), Limb3(s, i + 7), Limb4(s, i + 10),
                  Limb5(s, i + 13), Limb6(s, i + 15), Limb7(s, i + 18)) == Octets21(s, i)
  {
    hide Limb0, Limb1, Limb2, Limb3, Limb4, Limb5, Limb6, Limb7;
    Limb0Is(s, i);
    Limb1Is(s, i + 2);
    Limb2Is(s, i + 5);
    Limb3Is(s, i + 7);
    Limb4Is(s, i + 10);
    Limb5Is(s, i + 13);
    Limb6Is(s, i + 15);
    Limb7Is(s, i + 18);
    SplitAt(At(s, i + 2), 32);
    SplitAt(At(s, i + 5), 4);
    SplitAt(At(s, i + 7), 128);
    SplitAt(At(s, i + 10), 16);
    SplitAt(At(s, i + 13), 2);
    SplitAt(At(s, i + 15), 64);
    SplitAt(At(s, i + 18), 8);
    assert At(s, i + 20) % 256 == At(s, i + 20);
  }

  // ---------- Loading 32 and 64 octets ----------

  lemma EightSteps(b: seq<int>, k: nat)
    requires k + 8 <= |b|
    ensures LimbValue(b[k..]) == Eight(b[k], b[k + 1], b[k + 2], b[k + 3], b[k + 4], b[k + 5], b[k + 6], b[k + 7])
                                 + 0x100_0000_0000 * TWO_128 * LimbValue(b[k + 8..])
  {
    hide LimbValue;
    Steps(b, k);
    Steps(b, k + 3);
    LastSteps(b, k + 6);
  }

  lemma LastSteps(b: seq<int>, k: nat)
    requires k + 2 <= |b|
    ensures LimbValue(b[k..]) == b[k] + LIMB * b[k + 1] + LIMB * LIMB * LimbValue(b[k + 2..])
  {
    WeightedStep(LIMB, b, k);
    WeightedStep(LIMB, b, k + 1);
  }

  /** The last limb of a 32-octet scalar keeps the bits above 2^252. */
  function LastOf32(s: seq<byte>): int
    requires |s| == 32
  {
    Load4(s, 28) / 128
  }

  function LastOf64(s: seq<byte>): int
    requires |s| == 64
  {
    Load4(s, 60) / 8
  }

  lemma LastOf32Is(s: seq<byte>)
    requires |s| == 32
    ensures LastOf32(s) == At(s, 28) / 128 + 2 * (At(s, 29) + 0x100 * At(s, 30) + 0x1_0000 * At(s, 31))
  {
    ShiftRight(At(s, 28), At(s, 29) + 0x100 * At(s, 30) + 0x1_0000 * At(s, 31), 128, 2);
  }

  lemma LastOf64Is(s: seq<byte>)
    requires |s| == 64
    ensures LastOf64(s) == At(s, 60) / 8 + 32 * (At(s, 61) + 0x100 * At(s, 62) + 0x1_0000 * At(s, 63))
  {
    ShiftRight(At(s, 60), At(s, 61) + 0x100 * At(s, 62) + 0x1_0000 * At(s, 63), 8, 32);
  }

  /** Octets 21 .. 31. */
  lemma Tail32(s: seq<byte>)
    requires |s| == 32
    ensures Eight(Limb0(s, 21), Limb1(s, 23), Limb2(s, 26), LastOf32(s), 0, 0, 0, 0) == LeVal(s[21..])
  {
    LeValStepWord(s, 21);
    LeValStepWord(s, 25);
    LeValStep(s, 29);
    LeValStep(s, 30);
    LeValStep(s, 31);
    assert s[32..] == [];
    Limb0Is(s, 21);
    Limb1Is(s, 23);
    Limb2Is(s, 26);
    LastOf32Is(s);
    hide Limb0, Limb1, Limb2, LastOf32, LeVal;
    SplitAt(At(s, 23), 32);
    SplitAt(At(s, 26), 4);
    SplitAt(At(s, 28), 128);
  }

  lemma LastOf64Splits(s: seq<byte>)
    requires |s| == 64
    ensures LastOf64(s) == Limb7(s, 60) + LIMB * At(s, 63)
  {
    Limb7Is(s, 60);
    LastOf64Is(s);
    hide Limb7, LastOf64;
    assert At(s, 62) % 256 == At(s, 62);
  }

  lemma EightGrows(a: int, b: int, c: int, d: int, e: int, f: int, g: int, h: int, x: int)
    ensures Eight(a, b, c, d, e, f, g, h + LIMB * x)
         == Eight(a, b, c, d, e, f, g, h) + 0x100_0000_0000 * TWO_128 * x
  {
  }

  lemma OneOctet(s: seq<byte>)
    requires |s| == 1
    ensures LeVal(s) == s[0]
  {
    assert s[1..] == [];
  }

  /** Octets 42 .. 63. */
  lemma Tail64(s: seq<byte>)
    requires |s| == 64
    ensures Eight(Limb0(s, 42), Limb1(s, 44), Limb2(s, 47), Limb3(s, 49), Limb4(s, 52), Limb5(s, 55), Limb6(s, 57),
                  LastOf64(s)) == LeVal(s[42..])
  {
    hide Limb0, Limb1, Limb2, Limb3, Limb4, Limb5, Limb6, Limb7, LastOf64, LeVal, Octets21, Eight;
    BlockLimbs(s, 42);
    LeValStep21(s, 42);
    OneOctet(s[63..]);
    LastOf64Splits(s);
    EightGrows(Limb0(s, 42), Limb1(s, 44), Limb2(s, 47), Limb3(s, 49), Limb4(s, 52), Limb5(s, 55), Limb6(s, 57),
               Limb7(s, 60), At(s, 63));
  }

  /** The twelve limbs of a 32-octet scalar. */
  function Limbs32(s: seq<byte>): (t: seq<int>)
    requires |s| == 32
    ensures |t| == 12
  {
    [Limb0(s, 0), Limb1(s, 2), Limb2(s, 5), Limb3(s, 7), Limb4(s, 10), Limb5(s, 13), Limb6(s, 15), Limb7(s, 18),
     Limb0(s, 21), Limb1(s, 23), Limb2(s, 26), LastOf32(s)]
  }

  /** The twenty-four limbs of a 64-octet string. */
  function Limbs64(s: seq<byte>): (t: seq<int>)
    requires |s| == 64
    ensures |t| == 24
  {
    [Limb0(s, 0), Limb1(s, 2), Limb2(s, 5), Limb3(s, 7), Limb4(s, 10), Limb5(s, 13), Limb6(s, 15), Limb7(s, 18),
     Limb0(s, 21), Limb1(s, 23), Limb2(s, 26), Limb3(s, 28), Limb4(s, 31), Limb5(s, 34), Limb6(s, 36), Limb7(s, 39),
     Limb0(s, 42), Limb1(s, 44), Limb2(s, 47), Limb3(s, 49), Limb4(s, 52), Limb5(s, 55), Limb6(s, 57), LastOf64(s)]
  }

  lemma FourMore(t: seq<int>, z: seq<int>)
    requires |t| == 12 && z == t + [0, 0, 0, 0]
    ensures LimbValue(z) == LimbValue(t)
  {
    hide LimbValue;
    DropZero(t);
    DropZero(t + [0]);
    DropZero(t + [0] + [0]);
    DropZero(t + [0] + [0] + [0]);
    assert z == t + [0] + [0] + [0] + [0];
  }

  lemma TwelveLimbs(t: seq<int>)
    requires |t| == 12
    ensures LimbValue(t) == Eight(t[0], t[1], t[2], t[3], t[4], t[5], t[6], t[7])
                            + 0x100_0000_0000 * TWO_128 * Eight(t[8], t[9], t[10], t[11], 0, 0, 0, 0)
  {
    hide LimbValue, Eight;
    var z := t + [0, 0, 0, 0];
    FourMore(t, z);
    EightSteps(z, 0);
    EightSteps(z, 8);
    EmptyLimbs(z[16..]);
    assert z[0..] == z;
  }

  lemma Limbs32Value(s: seq<byte>)
    requires |s| == 32
    ensures LimbValue(Limbs32(s)) == LeVal(s)
  {
    hide Limb0, Limb1, Limb2, Limb3, Limb4, Limb5, Limb6, Limb7, LastOf32, LimbValue, LeVal, Octets21, Eight;
    TwelveLimbs(Limbs32(s));
    BlockLimbs(s, 0);
    LeValStep21(s, 0);
    Tail32(s);
    assert s[0..] == s;
  }

  lemma EmptyLimbs(s: seq<int>)
    requires s == []
    ensures LimbValue(s) == 0
  {
  }

  lemma Limbs64Value(s: seq<byte>)
    requires |s| == 64
    ensures LimbValue(Limbs64(s)) == LeVal(s)
  {
    hide Limb0, Limb1, Limb2, Limb3, Limb4, Limb5, Limb6, Limb7, LastOf64, LimbValue, LeVal, Octets21, Eight;
    var t := Limbs64(s);
    EightSteps(t, 0);
    EightSteps(t, 8);
    EightSteps(t, 16);
    EmptyLimbs(t[24..]);
    BlockLimbs(s, 0);
    LeValStep21(s, 0);
    BlockLimbs(s, 21);
    LeValStep21(s, 21);
    Tail64(s);
    assert s[0..] == s && t[0..] == t;
  }

  lemma LimbRanges(s: seq<byte>)
    requires |s| == 32
    ensures forall k :: 0 <= k < 11 ==> 0 <= Limbs32(s)[k] < LIMB
    ensures 0 <= Limbs32(s)[11] < 0x200_0000
  {
  }

  lemma LimbRanges64(s: seq<byte>)
    requires |s| == 64
    ensures forall k :: 0 <= k < 23 ==> 0 <= Limbs64(s)[k] < LIMB
    ensures 0 <= Limbs64(s)[23] < 0x2000_0000
  {
  }

  // ---------- Storing the canonical twelve limbs ----------

  /** Three octets: all of x, whose top bits leave room in the last octet, and the low bits of y. */
  function Three(x: int, y: nat, w: nat): (g: seq<byte>)
    requires 0 < w && 256 % w == 0 && 0 <= x < 0x1_0000 * w
    ensures |g| == 3
  {
    [x % 256, x / 0x100 % 256, PackByte(x / 0x1_0000, w, y)]
  }

  /** Two octets, likewise. */
  function Two(x: int, y: nat, w: nat): (g: seq<byte>)
    requires 0 < w && 256 % w == 0 && 0 <= x < 0x100 * w
    ensures |g| == 2
  {
    [x % 256, PackByte(x / 0x100, w, y)]
  }

  lemma OctetsValue(g: seq<byte>)
    ensures |g| == 2 ==> LeVal(g) == At(g, 0) + 0x100 * At(g, 1)
    ensures |g| == 3 ==> LeVal(g) == At(g, 0) + 0x100 * At(g, 1) + 0x1_0000 * At(g, 2)
  {
    if |g| >= 2 {
      assert g[0..] == g;
      LeValStep(g, 0);
      LeValStep(g, 1);
      if |g| == 3 {
        LeValStep(g, 2);
        assert g[3..] == [];
      } else if |g| == 2 {
        assert g[2..] == [];
      }
    }
  }

  lemma ThreeValue(x: int, y: nat, w: nat, m: nat)
    requires 0 < w && w * m == 256 && 0 <= x < 0x1_0000 * w
    ensures 256 % w == 0 && LeVal(Three(x, y, w)) == x + 0x1_0000 * (w * (y % m))
  {
    DivUnique(256, w, m, 0);
    DivBelow(x, 0x1_0000, w);
    PackByteIs(x / 0x1_0000, w, y, m);
    OctetsValue(Three(x, y, w));
    DivDiv(x, 256, 256);
    SplitAt(x, 256);
    SplitAt(x / 256, 256);
  }

  lemma TwoValue(x: int, y: nat, w: nat, m: nat)
    requires 0 < w && w * m == 256 && 0 <= x < 0x100 * w
    ensures 256 % w == 0 && LeVal(Two(x, y, w)) == x + 0x100 * (w * (y % m))
  {
    DivUnique(256, w, m, 0);
    DivBelow(x, 0x100, w);
    PackByteIs(x / 0x100, w, y, m);
    OctetsValue(Two(x, y, w));
    SplitAt(x, 256);
  }

  function Pack21(a: int, b: int, c: int, d: int, e: int, f: int, g: int, h: int): (s: seq<byte>)
    requires 0 <= a < LIMB && 0 <= b < LIMB && 0 <= c < LIMB && 0 <= d < LIMB
    requires 0 <= e < LIMB && 0 <= f < LIMB && 0 <= g < LIMB && 0 <= h < LIMB
    ensures |s| == 21
  {
    Three(a, b, 32) + (Three(b / 8, c, 4) + (Two(c / 64, d, 128) + (Three(d / 2, e, 16) +
    (Three(e / 16, f, 2) + (Two(f / 128, g, 64) + (Three(g / 4, h, 8) + Two(h / 32, 0, 256)))))))
  }

  lemma Prepend(g: seq<byte>, rest: seq<byte>)
    ensures |g| == 2 ==> LeVal(g + rest) == LeVal(g) + 0x1_0000 * LeVal(rest)
    ensures |g| == 3 ==> LeVal(g + rest) == LeVal(g) + 0x100_0000 * LeVal(rest)
  {
    LeValConcat(g, rest);
    assert Pow256(2) == 0x1_0000 && Pow256(3) == 0x100_0000;
  }

  lemma PackTelescopes(a: int, b: int, c: int, d: int, e: int, f: int, g: int, h: int)
    ensures a + 0x1_0000 * (32 * (b % 8)) +
            0x100_0000 * (b / 8 + 0x1_0000 * (4 * (c % 64)) +
            0x100_0000 * (c / 64 + 0x100 * (128 * (d % 2)) +
            0x1_0000 * (d / 2 + 0x1_0000 * (16 * (e % 16)) +
            0x100_0000 * (e / 16 + 0x1_0000 * (2 * (f % 128)) +
            0x100_0000 * (f / 128 + 0x100 * (64 * (g % 4)) +
            0x1_0000 * (g / 4 + 0x1_0000 * (8 * (h % 32)) +
            0x100_0000 * (h / 32))))))) == Eight(a, b, c, d, e, f, g, h)
  {
    SplitAt(b, 8);
    SplitAt(c, 64);
    SplitAt(d, 2);
    SplitAt(e, 16);
    SplitAt(f, 128);
    SplitAt(g, 4);
    SplitAt(h, 32);
  }

  lemma Joined(g0: seq<byte>, g1: seq<byte>, g2: seq<byte>, g3: seq<byte>,
               g4: seq<byte>, g5: seq<byte>, g6: seq<byte>, g7: seq<byte>)
    requires |g0| == |g1| == |g3| == |g4| == |g6| == 3 && |g2| == |g5| == |g7| == 2
    ensures LeVal(g0 + (g1 + (g2 + (g3 + (g4 + (g5 + (g6 + g7)))))))
         == LeVal(g0) + 0x100_0000 * (LeVal(g1) + 0x100_0000 * (LeVal(g2) + 0x1_0000 * (LeVal(g3) +
            0x100_0000 * (LeVal(g4) + 0x100_0000 * (LeVal(g5) + 0x1_0000 * (LeVal(g6) + 0x100_0000 * LeVal(g7)))))))
  {
    hide LeVal;
    Prepend(g0, g1 + (g2 + (g3 + (g4 + (g5 + (g6 + g7))))));
    Prepend(g1, g2 + (g3 + (g4 + (g5 + (g6 + g7)))));
    Prepend(g2, g3 + (g4 + (g5 + (g6 + g7))));
    Prepend(g3, g4 + (g5 + (g6 + g7)));
    Prepend(g4, g5 + (g6 + g7));
    Prepend(g5, g6 + g7);
    Prepend(g6, g7);
  }

  lemma Pack21Value(a: int, b: int, c: int, d: int, e: int, f: int, g: int, h: int)
    requires 0 <= a < LIMB && 0 <= b < LIMB && 0 <= c < LIMB && 0 <= d < LIMB
    requires 0 <= e < LIMB && 0 <= f < LIMB && 0 <= g < LIMB && 0 <= h < LIMB
    ensures LeVal(Pack21(a, b, c, d, e, f, g, h)) == Eight(a, b, c, d, e, f, g, h)
  {
    hide Three, Two, LeVal, Eight;
    ThreeValue(a, b, 32, 8);
    ThreeValue(b / 8, c, 4, 64);
    TwoValue(c / 64, d, 128, 2);
    ThreeValue(d / 2, e, 16, 16);
    ThreeValue(e / 16, f, 2, 128);
    TwoValue(f / 128, g, 64, 4);
    ThreeValue(g / 4, h, 8, 32);
    TwoValue(h / 32, 0, 256, 1);
    Joined(Three(a, b, 32), Three(b / 8, c, 4), Two(c / 64, d, 128), Three(d / 2, e, 16),
           Three(e / 16, f, 2), Two(f / 128, g, 64), Three(g / 4, h, 8), Two(h / 32, 0, 256));
    PackTelescopes(a, b, c, d, e, f, g, h);
  }

  /** Octets 21 .. 31: the last three limbs whole and a twelfth that may be exactly 2^21. */
  function Pack11(a: int, b: int, c: int, d: int): (s: seq<byte>)
    requires 0 <= a < LIMB && 0 <= b < LIMB && 0 <= c < LIMB && 0 <= d <= LIMB
    ensures |s| == 11
  {
    Three(a, b, 32) + (Three(b / 8, c, 4) + (Two(c / 64, d, 128) + Three(d / 2, 0, 256)))
  }

  lemma Pack11Telescopes(a: int, b: int, c: int, d: int)
    ensures a + 0x1_0000 * (32 * (b % 8)) +
            0x100_0000 * (b / 8 + 0x1_0000 * (4 * (c % 64)) +
            0x100_0000 * (c / 64 + 0x100 * (128 * (d % 2)) +
            0x1_0000 * (d / 2))) == Eight(a, b, c, d, 0, 0, 0, 0)
  {
    SplitAt(b, 8);
    SplitAt(c, 64);
    SplitAt(d, 2);
  }

  lemma Pack11Value(a: int, b: int, c: int, d: int)
    requires 0 <= a < LIMB && 0 <= b < LIMB && 0 <= c < LIMB && 0 <= d <= LIMB
    ensures LeVal(Pack11(a, b, c, d)) == Eight(a, b, c, d, 0, 0, 0, 0)
  {
    ThreeValue(a, b, 32, 8);
    ThreeValue(b / 8, c, 4, 64);
    TwoValue(c / 64, d, 128, 2);
    ThreeValue(d / 2, 0, 256, 1);
    var g0, g1, g2, g3 := Three(a, b, 32), Three(b / 8, c, 4), Two(c / 64, d, 128), Three(d / 2, 0, 256);
    hide Three, Two, LeVal, Eight;
    Prepend(g0, g1 + (g2 + g3));
    Prepend(g1, g2 + g3);
    Prepend(g2, g3);
    Pack11Telescopes(a, b, c, d);
  }

  predicate CanonicalLimbs(t: seq<int>) {
    |t| == 12 && (forall k :: 0 <= k < 11 ==> 0 <= t[k] < LIMB) && 0 <= t[11] <= LIMB
  }

  /** The thirty-two octets the reductions write. */
  function PackScalar(t: seq<int>): (s: seq<byte>)
    requires CanonicalLimbs(t)
    ensures |s| == 32
  {
    Pack21(t[0], t[1], t[2], t[3], t[4], t[5], t[6], t[7]) + Pack11(t[8], t[9], t[10], t[11])
  }

  lemma PrependBlock(g: seq<byte>, rest: seq<byte>)
    requires |g| == 21
    ensures LeVal(g + rest) == LeVal(g) + 0x100_0000_0000 * TWO_128 * LeVal(rest)
  {
    hide Pow256, LeVal;
    LeValConcat(g, rest);
    BlockWeight();
  }

  lemma BlockWeight()
    ensures Pow256(21) == 0x100_0000_0000 * TWO_128
  {
    assert Pow256(7) == 0x100_0000_0000_0000;
    assert Pow256(14) == 0x1_0000_0000_0000_0000_0000_0000_0000;
  }

  lemma PackScalarValue(t: seq<int>)
    requires CanonicalLimbs(t)
    ensures LeVal(PackScalar(t)) == LimbValue(t)
  {
    Pack21Value(t[0], t[1], t[2], t[3], t[4], t[5], t[6], t[7]);
    Pack11Value(t[8], t[9], t[10], t[11]);
    hide Pack21, Pack11, LimbValue, LeVal, Eight;
    PrependBlock(Pack21(t[0], t[1], t[2], t[3], t[4], t[5], t[6], t[7]), Pack11(t[8], t[9], t[10], t[11]));
    TwelveLimbs(t);
  }
}
