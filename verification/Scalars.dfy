/** Scalar arithmetic modulo the group order: sc25519_reduce, sc25519_muladd and
    sc25519_is_canonical. */
module Scalars {
  import opened Bits
  import opened Arithmetic
  import opened PrimeField
  import opened Bytes
  import opened FieldLimbs
  import opened Recoding
  import opened ScalarLimbs
  import opened ScalarBytes

  // ---------- Remainders modulo L ----------

  function ModLAt(depth: nat, x: int): (r: int)
    ensures 0 <= r < L
    decreases depth, x
  {
    if depth == 0 then x % L else ModLAt(depth - 1, x)
  }

  /** x mod L, folded up like congruence. */
  function ModL(x: int): (r: int)
    ensures 0 <= r < L
  {
    ModLAt(4, x)
  }

  lemma ModLIs(x: int)
    ensures ModL(x) == x % L
  {
    assert ModLAt(2, x) == ModLAt(0, x);
    assert ModLAt(4, x) == ModLAt(2, x);
  }

  lemma ModLUnique(x: int, q: int, r: int)
    requires r == x - L * q && 0 <= r < L
    ensures ModL(x) == r
  {
    ModLIs(x);
    DivUnique(x, L, q, r);
  }

  // ---------- sc25519_reduce ----------

  method LoadReduce(s: array<byte>) returns (t: array<int64>)
    requires s.Length >= 64
    ensures fresh(t) && t.Length == 24 && Bounded(t[..], 0, 24, M35)
    ensures Value(t[..], 24) == LeVal(s[..64])
  {
    var octets := s[..64];
    LimbRanges64(octets);
    Limbs64Value(octets);
    hide Limbs64, LimbValue;
    var limbs := Limbs64(octets);
    t := new int64[24];
    for i := 0 to 24
      invariant forall k :: 0 <= k < i ==> t[k] == limbs[k]
    {
      t[i] := limbs[i];
    }
    assert t[..24] == limbs && t[..][..24] == limbs;
  }

  /** The first 32 of the 64 octets become the canonical residue. */
  method ScReduce(s: array<byte>)
    requires s.Length >= 64
    modifies s
    ensures LeVal(s[..32]) == ModL(old(LeVal(s[..64])))
    ensures s[32..] == old(s[32..])
  {
    var t := LoadReduce(s);
    ghost var x := Value(t[..], 24);
    hide Value, LeVal;
    ghost var q := ReduceLimbs(t);
    ModLUnique(x, q, Value(t[..], 12));
    var out := Store(t);
    for i := 0 to 32
      invariant forall k :: 0 <= k < i ==> s[k] == out[k]
      invariant s[32..] == old(s[32..])
    {
      s[i] := out[i];
    }
    assert s[..32] == out;
  }

  method Store(t: array<int64>) returns (s: seq<byte>)
    requires t.Length == 24 && (forall k :: 0 <= k < 11 ==> 0 <= t[k] < LIMB) && 0 <= t[11] <= LIMB
    ensures |s| == 32 && LeVal(s) == Value(t[..], 12)
  {
    var limbs := t[..12];
    assert CanonicalLimbs(limbs);
    PackScalarValue(limbs);
    hide PackScalar, LeVal, LimbValue;
    s := PackScalar(limbs);
    assert t[..][..12] == limbs;
  }

  // ---------- sc25519_muladd ----------

  /** The largest limb of a scalar, and a bound on one product. */
  const SCALAR_LIMB: int := 0x200_0000
  const PRODUCT: int := 0x4_0000_0000_0000

  predicate Sums(t: seq<int>, n: nat) {
    |t| == 24 && (forall k :: 0 <= k < 24 ==> 0 <= t[k] <= SCALAR_LIMB + n * PRODUCT) && t[23] == 0
  }

  lemma ProductFits(x: int, y: int)
    requires 0 <= x <= SCALAR_LIMB && 0 <= y <= SCALAR_LIMB
    ensures 0 <= x * y <= PRODUCT
  {
    ProductNonNegative(x, y);
    ProductNonNegative(SCALAR_LIMB - x, y);
  }

  lemma CellUpdate(t: seq<int>, i: nat, j: nat, x: int, y: int)
    requires i + j < |t|
    ensures LimbValue(t[i + j := t[i + j] + x * y]) == LimbValue(t) + Pow(LIMB, i) * (x * (Pow(LIMB, j) * y))
  {
    WeightedUpdate(LIMB, t, i + j, t[i + j] + x * y);
    PowAdd(LIMB, i, j);
    hide Weighted, Pow;
    Reorder(Pow(LIMB, i), Pow(LIMB, j), x, y);
  }

  lemma Reorder(p: int, q: int, x: int, y: int)
    ensures p * q * (x * y) == p * (x * (q * y))
  {
    Exchange(p, q, x, y);
    assert p * x * (q * y) == p * (x * (q * y));
  }

  lemma RowStep(p: int, x: int, u: int, q: int, y: int)
    ensures p * (x * u) + p * (x * (q * y)) == p * (x * (u + q * y))
  {
  }

  lemma CellStep(t: seq<int>, i: nat, j: nat, x: int, b: seq<int>)
    requires i + j < |t| && j < |b|
    ensures LimbValue(t[i + j := t[i + j] + x * b[j]]) - Pow(LIMB, i) * (x * LimbValue(b[..j + 1]))
         == LimbValue(t) - Pow(LIMB, i) * (x * LimbValue(b[..j]))
  {
    hide LimbValue, Pow;
    CellUpdate(t, i, j, x, b[j]);
    assert b[..j + 1] == b[..j] + [b[j]];
    SnocValue(b[..j], b[j]);
    RowStep(Pow(LIMB, i), x, LimbValue(b[..j]), Pow(LIMB, j), b[j]);
  }

  /** Add x times the limbs of b, i places up. */
  method AddRow(t: array<int64>, x: int64, b: seq<int>, i: nat)
    requires t.Length == 24 && i < 12 && |b| == 12 && 0 <= x <= SCALAR_LIMB
    requires forall k :: 0 <= k < 12 ==> 0 <= b[k] <= SCALAR_LIMB
    requires Sums(t[..], i)
    modifies t
    ensures Sums(t[..], i + 1)
    ensures LimbValue(t[..]) == old(LimbValue(t[..])) + Pow(LIMB, i) * (x * LimbValue(b))
  {
    hide LimbValue, Pow;
    ghost var start := t[..];
    NoRow(b[..0], Pow(LIMB, i), x);
    for j := 0 to 12
      invariant LimbValue(t[..]) == LimbValue(start) + Pow(LIMB, i) * (x * LimbValue(b[..j]))
      invariant forall k :: 0 <= k < 24 && (k < i || i + j <= k) ==> t[k] == start[k]
      invariant forall k :: i <= k < i + j ==> 0 <= t[k] <= start[k] + PRODUCT
    {
      ghost var u := t[..];
      ProductFits(x, b[j]);
      t[i + j] := t[i + j] + x * b[j];
      assert t[..] == u[i + j := u[i + j] + x * b[j]];
      CellStep(u, i, j, x, b);
    }
    assert b[..12] == b;
  }

  lemma SnocValue(s: seq<int>, x: int)
    ensures LimbValue(s + [x]) == LimbValue(s) + Pow(LIMB, |s|) * x
  {
    WeightedSnoc(LIMB, s, x);
  }

  lemma NoRow(s: seq<int>, p: int, x: int)
    requires s == []
    ensures LimbValue(s) == 0 && p * (x * LimbValue(s)) == 0
  {
  }

  lemma RowsAdd(c: int, u: int, p: int, x: int, v: int)
    ensures c + u * v + p * (x * v) == c + (u + p * x) * v
  {
  }

  /** s = c + a * b, limb by limb and without carrying. */
  method MultiplyLimbs(a: seq<int>, b: seq<int>, c: seq<int>) returns (t: array<int64>)
    requires |a| == |b| == |c| == 12
    requires forall k :: 0 <= k < 12 ==> 0 <= a[k] <= SCALAR_LIMB && 0 <= b[k] <= SCALAR_LIMB && 0 <= c[k] <= SCALAR_LIMB
    ensures fresh(t) && t.Length == 24 && Sums(t[..], 12)
    ensures LimbValue(t[..]) == LimbValue(c) + LimbValue(a) * LimbValue(b)
  {
    hide LimbValue, Pow;
    t := Spread24(c);
    NoRow(a[..0], 0, 0);
    for i := 0 to 12
      invariant Sums(t[..], i)
      invariant LimbValue(t[..]) == LimbValue(c) + LimbValue(a[..i]) * LimbValue(b)
    {
      AddRow(t, a[i], b, i);
      assert a[..i + 1] == a[..i] + [a[i]];
      SnocValue(a[..i], a[i]);
      RowsAdd(LimbValue(c), LimbValue(a[..i]), Pow(LIMB, i), a[i], LimbValue(b));
    }
    assert a[..12] == a;
  }

  lemma {:induction false} TrailingZeros(c: seq<int>, z: seq<int>)
    requires forall k :: 0 <= k < |z| ==> z[k] == 0
    ensures LimbValue(c + z) == LimbValue(c)
    decreases |z|
  {
    if z == [] {
      assert c + z == c;
    } else {
      var y := z[..|z| - 1];
      TrailingZeros(c, y);
      hide LimbValue;
      assert c + z == (c + y) + [0];
      DropZero(c + y);
    }
  }

  method Spread24(c: seq<int>) returns (t: array<int64>)
    requires |c| == 12 && forall k :: 0 <= k < 12 ==> 0 <= c[k] <= SCALAR_LIMB
    ensures fresh(t) && t.Length == 24 && Sums(t[..], 0) && LimbValue(t[..]) == LimbValue(c)
  {
    hide LimbValue;
    t := new int64[24](_ => 0);
    for k := 0 to 12
      invariant forall j :: 0 <= j < k ==> t[j] == c[j]
      invariant forall j :: k <= j < 24 ==> t[j] == 0
    {
      t[k] := c[k];
    }
    assert t[..] == c + t[12..];
    TrailingZeros(c, t[12..]);
  }

  const FIRST_CARRY: int := 0x2_0010_0000

  /** The carries before the first fold bring every limb within the reduction's reach. */
  method CarryProducts(t: array<int64>)
    requires t.Length == 24 && Sums(t[..], 12)
    modifies t
    ensures Value(t[..], 24) == old(Value(t[..], 24)) && Bounded(t[..], 0, 24, M35)
  {
    hide Value;
    ghost var b := SCALAR_LIMB + 12 * PRODUCT;
    Spread(t[..], 0, 22, b, b, b);
    RoundPass(t, 0, 22, 24, b, b, FIRST_CARRY);
    ghost var u := t[..];
    ghost var d := CarryRound(t, 22, b, 0, FIRST_CARRY);
    CarriedValue(u, 22, d, 24);
    AfterFirst(u, t[..], d, b);
    RoundPass(t, 1, 23, 24, b + FIRST_CARRY, 0x10_0000, FIRST_CARRY);
  }

  lemma AfterFirst(u: seq<int>, v: seq<int>, d: int, b: nat)
    requires |u| == 24 && v == Carried(u, 22, d) && Balanced(v[22])
    requires Rounded(u, 0, 22, b + FIRST_CARRY)
    ensures Alternating(v, 1, 23, b + FIRST_CARRY, 0x10_0000)
  {
    forall k | 1 <= k < 23
      ensures Abs(v[k], if (k - 1) % 2 == 0 then b + FIRST_CARRY else 0x10_0000)
    {
      assert (k - 1) % 2 == 0 <==> (k - 0) % 2 == 1;
    }
  }

  /** a * b + c modulo L. */
  method ScMuladd(a: seq<byte>, b: seq<byte>, c: seq<byte>) returns (s: seq<byte>)
    requires |a| == 32 && |b| == 32 && |c| == 32
    ensures |s| == 32 && LeVal(s) == ModL(LeVal(a) * LeVal(b) + LeVal(c))
  {
    LimbRanges(a);
    LimbRanges(b);
    LimbRanges(c);
    Limbs32Value(a);
    Limbs32Value(b);
    Limbs32Value(c);
    hide Limbs32, LimbValue, LeVal;
    var t := MultiplyLimbs(Limbs32(a), Limbs32(b), Limbs32(c));
    assert t[..][..24] == t[..];
    ghost var x := LeVal(a) * LeVal(b) + LeVal(c);
    assert Value(t[..], 24) == x;
    hide Value;
    CarryProducts(t);
    ghost var q := ReduceLimbs(t);
    ModLUnique(x, q, Value(t[..], 12));
    s := Store(t);
  }

  // ---------- sc25519_is_canonical ----------

  const L_OCTETS: seq<byte> :=
    Octets([0xed, 0xd3, 0xf5, 0x5c], [0x1a, 0x63, 0x12, 0x58], [0xd6, 0x9c, 0xf7, 0xa2], [0xde, 0xf9, 0xde, 0x14],
           [0x00, 0x00, 0x00, 0x00], [0x00, 0x00, 0x00, 0x00], [0x00, 0x00, 0x00, 0x00], [0x00, 0x00, 0x00, 0x10])

  lemma OctetsOfL()
    ensures LeVal(L_OCTETS) == L
  {
    hide LeVal, Octets;
    EightFours([0xed, 0xd3, 0xf5, 0x5c], [0x1a, 0x63, 0x12, 0x58], [0xd6, 0x9c, 0xf7, 0xa2], [0xde, 0xf9, 0xde, 0x14],
               [0x00, 0x00, 0x00, 0x00], [0x00, 0x00, 0x00, 0x00], [0x00, 0x00, 0x00, 0x00], [0x00, 0x00, 0x00, 0x10]);
    FourOctets(0xed, 0xd3, 0xf5, 0x5c);
    FourOctets(0x1a, 0x63, 0x12, 0x58);
    FourOctets(0xd6, 0x9c, 0xf7, 0xa2);
    FourOctets(0xde, 0xf9, 0xde, 0x14);
    FourOctets(0x00, 0x00, 0x00, 0x00);
    FourOctets(0x00, 0x00, 0x00, 0x10);
  }

  /** x >> 8 of a difference of two octets, as an octet: all ones below zero, all zeros otherwise. */
  function SignMask(x: int): (m: byte)
    requires -256 <= x < 256
    ensures m == if x < 0 then 255 else 0
  {
    x / 256 % 256
  }

  /** One octet of the comparison: c becomes 1 at the first difference if it is downwards, n stays 1
      as long as there is none. */
  method CompareOctet(c: byte, n: byte, x: byte, y: byte) returns (c': byte, n': byte)
    requires c <= 1 && n <= 1
    ensures c' == (if n == 1 && x < y then 1 else c) && n' == if x == y then n else 0
  {
    MaskOctet(n, SignMask(x - y));
    MaskOctet(n, SignMask(Xor(x, y) - 1));
    OrBit(c, And(n, SignMask(x - y)));
    hide And, Or, Xor;
    c' := Or(c, And(n, SignMask(x - y)));
    n' := And(n, SignMask(Xor(x, y) - 1));
  }

  /** Constant-time comparison from the top octet down: true exactly below L. */
  /** The top octets decide, and then those below. */
  lemma OctetOrder(s: seq<byte>, t: seq<byte>, i: nat)
    requires |s| == |t| && i < |s|
    ensures LeVal(s[i..]) == LeVal(t[i..]) <==> LeVal(s[i + 1..]) == LeVal(t[i + 1..]) && s[i] == t[i]
    ensures LeVal(s[i..]) < LeVal(t[i..]) <==>
              LeVal(s[i + 1..]) < LeVal(t[i + 1..]) || (LeVal(s[i + 1..]) == LeVal(t[i + 1..]) && s[i] < t[i])
  {
    LeValStep(s, i);
    LeValStep(t, i);
    hide LeVal;
  }

  method ScIsCanonical(s: seq<byte>) returns (ok: bool)
    requires |s| == 32
    ensures ok <==> LeVal(s) < L
  {
    hide LeVal, Octets;
    var c: byte, n: byte := 0, 1;
    var i := 32;
    assert s[32..] == L_OCTETS[32..];
    while i != 0
      invariant 0 <= i <= 32 && c <= 1 && n <= 1
      invariant n == 1 <==> LeVal(s[i..]) == LeVal(L_OCTETS[i..])
      invariant c == 1 <==> LeVal(s[i..]) < LeVal(L_OCTETS[i..])
    {
      i := i - 1;
      OctetOrder(s, L_OCTETS, i);
      var x, y := s[i], L_OCTETS[i];
      c, n := CompareOctet(c, n, x, y);
    }
    ok := c != 0;
    OctetsOfL();
    assert s[0..] == s && L_OCTETS[0..] == L_OCTETS;
  }
}
