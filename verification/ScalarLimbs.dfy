/** Signed 21-bit limbs modulo the group order: the folds and carries that sc25519_reduce and
    sc25519_muladd are made of.  The runs of identical statements are written as loops over the
    limb index. */
module ScalarLimbs {
  import opened PrimeField
  import opened FieldLimbs
  import opened Recoding

  const LIMB: int := 0x20_0000

  /** The prime order of the main subgroup. */
  const L: int := 0x1000_0000_0000_0000_0000_0000_0000_0000_14de_f9de_a2f7_9cd6_5812_631a_5cf5_d3ed

  /** The number the limbs stand for. */
  function LimbValue(s: seq<int>): int {
    Weighted(LIMB, s)
  }

  // ---------- Folding the limb at 2^252 and above ----------

  /** t with limb i folded twelve places down: 2^252 is congruent to 2^252 - L. */
  function Folded(t: seq<int>, i: nat): seq<int>
    requires 12 <= i < |t|
  {
    var x := t[i];
    t[i - 12 := t[i - 12] + x * 666643]
     [i - 11 := t[i - 11] + x * 470296]
     [i - 10 := t[i - 10] + x * 654183]
     [i - 9 := t[i - 9] - x * 997805]
     [i - 8 := t[i - 8] + x * 136657]
     [i - 7 := t[i - 7] - x * 683901]
  }

  /** Thirteen limbs, written out. */
  function Thirteen(b: seq<int>): int
    requires |b| == 13
  {
    b[0] + 0x20_0000 * b[1] + 0x400_0000_0000 * b[2] + 0x8000_0000_0000_0000 * b[3] +
    0x10_0000_0000_0000_0000_0000 * b[4] + 0x200_0000_0000_0000_0000_0000_0000 * b[5] +
    0x4000_0000_0000_0000_0000_0000_0000_0000 * b[6] +
    0x8_0000_0000_0000_0000_0000_0000_0000_0000_0000 * b[7] +
    0x100_0000_0000_0000_0000_0000_0000_0000_0000_0000_0000 * b[8] +
    0x2000_0000_0000_0000_0000_0000_0000_0000_0000_0000_0000_0000 * b[9] +
    0x4_0000_0000_0000_0000_0000_0000_0000_0000_0000_0000_0000_0000_0000 * b[10] +
    0x80_0000_0000_0000_0000_0000_0000_0000_0000_0000_0000_0000_0000_0000_0000 * b[11] +
    0x1000_0000_0000_0000_0000_0000_0000_0000_0000_0000_0000_0000_0000_0000_0000_0000 * b[12]
  }

  lemma Steps(b: seq<int>, k: nat)
    requires k + 3 <= |b|
    ensures LimbValue(b[k..]) == b[k] + LIMB * b[k + 1] + LIMB * LIMB * b[k + 2]
                                 + LIMB * LIMB * LIMB * LimbValue(b[k + 3..])
  {
    WeightedStep(LIMB, b, k);
    WeightedStep(LIMB, b, k + 1);
    WeightedStep(LIMB, b, k + 2);
  }

  lemma ThirteenIs(b: seq<int>)
    requires |b| == 13
    ensures LimbValue(b) == Thirteen(b)
  {
    assert b[0..] == b;
    Steps(b, 0);
    Steps(b, 3);
    Steps(b, 6);
    Steps(b, 9);
    WeightedStep(LIMB, b, 12);
    assert b[13..] == [];
  }

  lemma FoldedBlock(b: seq<int>)
    requires |b| == 13
    ensures Thirteen(Folded(b, 12)[12 := 0]) == Thirteen(b) - L * b[12]
  {
  }

  lemma FoldedSlices(t: seq<int>, i: nat)
    requires 12 <= i < |t|
    ensures t[..i + 1] == t[..i - 12] + t[i - 12..i + 1]
    ensures Folded(t, i)[..i] + [0] == t[..i - 12] + Folded(t[i - 12..i + 1], 12)[12 := 0]
  {
  }

  lemma FoldedTail(b: seq<int>)
    requires |b| == 13
    ensures LimbValue(Folded(b, 12)[12 := 0]) == LimbValue(b) - L * b[12]
  {
    FoldedBlock(b);
    ThirteenIs(b);
    ThirteenIs(Folded(b, 12)[12 := 0]);
  }

  /** Folding limb i subtracts a multiple of L and leaves nothing above limb i - 1. */
  lemma FoldedValue(t: seq<int>, i: nat)
    requires 12 <= i < |t|
    ensures LimbValue(Folded(t, i)[..i]) == LimbValue(t[..i + 1]) - L * (Pow(LIMB, i - 12) * t[i])
  {
    var low, block := t[..i - 12], t[i - 12..i + 1];
    var after := Folded(block, 12)[12 := 0];
    FoldedSlices(t, i);
    assert block[12] == t[i];
    hide Folded, LimbValue, Pow;
    FoldedTail(block);
    ConcatValue(low, block);
    ConcatValue(low, after);
    DropZero(Folded(t, i)[..i]);
    Distribute(Pow(LIMB, i - 12), LimbValue(after), LimbValue(block), L, t[i]);
  }

  lemma Distribute(p: int, u: int, v: int, l: int, x: int)
    requires u == v - l * x
    ensures p * u == p * v - l * (p * x)
  {
  }

  lemma ConcatValue(s: seq<int>, t: seq<int>)
    ensures LimbValue(s + t) == LimbValue(s) + Pow(LIMB, |s|) * LimbValue(t)
  {
    WeightedConcat(LIMB, s, t);
  }

  lemma DropZero(s: seq<int>)
    ensures LimbValue(s + [0]) == LimbValue(s)
  {
    WeightedSnoc(LIMB, s, 0);
  }

  /** The value of the first n limbs; what lies above is stale. */
  function Value(t: seq<int>, n: nat): int
    requires n <= |t|
  {
    LimbValue(t[..n])
  }

  predicate Bounded(s: seq<int>, from: nat, to: nat, m: nat)
    requires to <= |s|
  {
    forall k :: from <= k < to ==> Abs(s[k], m)
  }

  /** The six statements that fold limb i; limb i itself keeps its stale value. */
  method Fold(s: array<int64>, i: nat, ghost m: nat, ghost b: nat)
    requires 12 <= i < s.Length && Abs(s[i], m) && Bounded(s[..], i - 12, i - 6, b)
    requires b + 997805 * m < 0x4000_0000_0000_0000
    modifies s
    ensures s[..] == Folded(old(s[..]), i)
    ensures Bounded(s[..], i - 12, i - 6, b + 997805 * m)
  {
    var x := s[i];
    s[i - 12] := s[i - 12] + x * 666643;
    s[i - 11] := s[i - 11] + x * 470296;
    s[i - 10] := s[i - 10] + x * 654183;
    s[i - 9] := s[i - 9] - x * 997805;
    s[i - 8] := s[i - 8] + x * 136657;
    s[i - 7] := s[i - 7] - x * 683901;
    assert s[..] == Folded(old(s[..]), i);
  }

  // ---------- Carries ----------

  function Carried(t: seq<int>, i: nat, c: int): seq<int>
    requires i + 1 < |t|
  {
    t[i := t[i] - c * LIMB][i + 1 := t[i + 1] + c]
  }

  lemma CarryCancels(p: int, q: int, c: int, x: int, y: int, u: int, v: int)
    requires q == LIMB * p && u == x - c * LIMB && v == y + c
    ensures p * (u - x) + q * (v - y) == 0
  {
    assert u - x == -(c * LIMB) && v - y == c;
    assert p * -(c * LIMB) == -(LIMB * (p * c));
  }

  /** Moving c from limb i + 1's worth of limb i keeps the value of any prefix that holds both. */
  lemma CarriedValue(t: seq<int>, i: nat, c: int, n: nat)
    requires i + 1 < n <= |t|
    ensures Value(Carried(t, i, c), n) == Value(t, n)
  {
    var s := t[..n];
    var u, v := s[i] - c * LIMB, s[i + 1] + c;
    WeightedUpdate(LIMB, s, i, u);
    WeightedUpdate(LIMB, s[i := u], i + 1, v);
    assert Carried(t, i, c)[..n] == s[i := u][i + 1 := v];
    assert Pow(LIMB, i + 1) == LIMB * Pow(LIMB, i);
    hide Weighted, Pow, Carried;
    CarryCancels(Pow(LIMB, i), Pow(LIMB, i + 1), c, s[i], s[i + 1], u, v);
  }

  /** A limb in the balanced range. */
  predicate Balanced(x: int) {
    -0x10_0000 <= x < 0x10_0000
  }

  /** carry = (s[i] + 2^20) >> 21, moved up. */
  method CarryRound(s: array<int64>, i: nat, ghost b: nat, ghost e: nat, ghost c: nat) returns (ghost d: int)
    requires i + 1 < s.Length && Abs(s[i], b) && Abs(s[i + 1], e)
    requires b + LIMB <= c * LIMB && b + c < 0x4000_0000_0000_0000 && e + c < 0x4000_0000_0000_0000
    modifies s
    ensures s[..] == Carried(old(s[..]), i, d)
    ensures Balanced(s[i]) && Abs(s[i + 1], e + c)
  {
    var x := s[i];
    var carry := RoundedQuotient(x, b, c);
    s[i + 1] := s[i + 1] + carry;
    s[i] := x - carry * LIMB;
    d := carry;
    assert s[..] == Carried(old(s[..]), i, d);
  }

  method RoundedQuotient(x: int64, ghost b: nat, ghost c: nat) returns (q: int64)
    requires Abs(x, b) && b + LIMB <= c * LIMB && b + c < 0x4000_0000_0000_0000
    ensures Balanced(x - q * LIMB) && Abs(q, c)
  {
    q := (x + 0x10_0000) / 0x20_0000;
  }

  /** carry = s[i] >> 21, moved up. */
  method CarryFloor(s: array<int64>, i: nat, ghost b: nat, ghost c: nat) returns (ghost d: int)
    requires i + 1 < s.Length && Abs(s[i], b) && Abs(s[i + 1], b)
    requires b + LIMB <= c * LIMB && b + c < 0x4000_0000_0000_0000
    modifies s
    ensures s[..] == Carried(old(s[..]), i, d)
    ensures 0 <= s[i] < LIMB && Abs(s[i + 1], b + c)
  {
    var x := s[i];
    var carry := FlooredQuotient(x, b, c);
    s[i + 1] := s[i + 1] + carry;
    s[i] := x - carry * LIMB;
    d := carry;
    assert s[..] == Carried(old(s[..]), i, d);
  }

  method FlooredQuotient(x: int64, ghost b: nat, ghost c: nat) returns (q: int64)
    requires Abs(x, b) && b + LIMB <= c * LIMB && b + c < 0x4000_0000_0000_0000
    ensures 0 <= x - q * LIMB < LIMB && Abs(q, c)
  {
    q := x / 0x20_0000;
  }

  /** After a rounding pass: every other limb balanced, the ones between grown by a carry. */
  predicate Rounded(t: seq<int>, from: nat, to: nat, b: nat) {
    forall k :: from <= k < to && k < |t| ==> if (k - from) % 2 == 0 then Balanced(t[k]) else Abs(t[k], b)
  }

  predicate SameOutside(t: seq<int>, u: seq<int>, from: nat, to: nat) {
    |t| == |u| && forall k :: 0 <= k < |t| && (k < from || to <= k) ==> u[k] == t[k]
  }

  /** Bounds on the limbs a rounding pass reads: b where it carries out, e where it carries in. */
  predicate Alternating(t: seq<int>, from: nat, to: nat, b: nat, e: nat) {
    forall k :: from <= k < to && k < |t| ==> Abs(t[k], if (k - from) % 2 == 0 then b else e)
  }

  lemma RoundedStep(t: seq<int>, u: seq<int>, from: nat, i: nat, d: int, b: nat)
    requires Rounded(t, from, i, b) && from <= i && i + 1 < |t| && (i - from) % 2 == 0
    requires u == Carried(t, i, d) && Balanced(u[i]) && Abs(u[i + 1], b)
    ensures Rounded(u, from, i + 2, b)
  {
  }

  lemma AlternatingAt(s: seq<int>, t: seq<int>, from: nat, to: nat, i: nat, b: nat, e: nat)
    requires Alternating(s, from, to, b, e) && SameOutside(s, t, from, i)
    requires from <= i < to && to <= |s| && (i - from) % 2 == 0 && (to - from) % 2 == 0
    ensures i + 1 < to && Abs(t[i], b) && Abs(t[i + 1], e)
  {
    assert (i + 1 - from) % 2 == 1;
  }

  /** Rounding carries out of limbs from, from + 2, ... below to. */
  method RoundPass(s: array<int64>, from: nat, to: nat, n: nat, ghost b: nat, ghost e: nat, ghost c: nat)
    requires from <= to <= n <= s.Length && (to - from) % 2 == 0 && Alternating(s[..], from, to, b, e)
    requires b + LIMB <= c * LIMB && b + c < 0x4000_0000_0000_0000 && e + c < 0x4000_0000_0000_0000
    modifies s
    ensures Value(s[..], n) == old(Value(s[..], n))
    ensures Rounded(s[..], from, to, e + c) && SameOutside(old(s[..]), s[..], from, to)
  {
    hide Value, Carried;
    var i := from;
    while i < to
      invariant from <= i <= to && (i - from) % 2 == 0
      invariant Value(s[..], n) == old(Value(s[..], n))
      invariant Rounded(s[..], from, i, e + c) && SameOutside(old(s[..]), s[..], from, i)
    {
      ghost var t := s[..];
      AlternatingAt(old(s[..]), t, from, to, i, b, e);
      ghost var d := CarryRound(s, i, b, e, c);
      CarriedValue(t, i, d, n);
      RoundedStep(t, s[..], from, i, d, e + c);
      CarriedOutside(t, i, d);
      i := i + 2;
    }
  }

  lemma CarriedOutside(t: seq<int>, i: nat, d: int)
    requires i + 1 < |t|
    ensures SameOutside(t, Carried(t, i, d), i, i + 2)
  {
  }

  /** Flooring carries out of limbs 0 .. to - 1 in order. */
  method FloorPass(s: array<int64>, to: nat, n: nat, ghost b: nat, ghost c: nat)
    requires to < n <= s.Length && Bounded(s[..], 0, to + 1, b)
    requires b + c + LIMB <= c * LIMB && b + c + c < 0x4000_0000_0000_0000
    modifies s
    ensures Value(s[..], n) == old(Value(s[..], n))
    ensures (forall k :: 0 <= k < to ==> 0 <= s[k] < LIMB) && Abs(s[to], b + c)
    ensures SameOutside(old(s[..]), s[..], 0, to + 1)
  {
    hide Value, Carried;
    var i := 0;
    while i < to
      invariant 0 <= i <= to
      invariant Value(s[..], n) == old(Value(s[..], n))
      invariant (forall k :: 0 <= k < i ==> 0 <= s[k] < LIMB) && Abs(s[i], b + c)
      invariant Bounded(s[..], i + 1, to + 1, b) && SameOutside(old(s[..]), s[..], 0, i + 1)
    {
      ghost var t := s[..];
      ghost var d := CarryFloor(s, i, b + c, c);
      CarriedValue(t, i, d, n);
      CarriedOutside(t, i, d);
      FlooredNext(t, i, d, b, c);
      i := i + 1;
    }
  }

  lemma FlooredNext(t: seq<int>, i: nat, d: int, b: nat, c: nat)
    requires i + 1 < |t| && Abs(t[i + 1], b) && Abs(t[i], b + c) && b + c + LIMB <= c * LIMB
    requires 0 <= Carried(t, i, d)[i] < LIMB
    ensures Abs(Carried(t, i, d)[i + 1], b + c)
  {
  }

  // ---------- Folding six limbs ----------

  lemma FoldedOutside(t: seq<int>, i: nat)
    requires 12 <= i < |t|
    ensures SameOutside(t, Folded(t, i), i - 12, i - 6)
  {
  }

  /** One fold among limbs from .. to, all at most b before. */
  method FoldStep(s: array<int64>, i: nat, from: nat, to: nat, ghost m: nat, ghost b: nat) returns (ghost q: int)
    requires 12 <= i < s.Length && from <= i - 12 && i - 6 <= to <= i && Abs(s[i], m)
    requires Bounded(s[..], from, to, b) && b + 997805 * m < 0x4000_0000_0000_0000
    modifies s
    ensures Value(s[..], i) == old(Value(s[..], i + 1)) - L * q
    ensures Bounded(s[..], from, to, b + 997805 * m) && SameOutside(old(s[..]), s[..], from, to)
  {
    ghost var t := s[..];
    hide Folded;
    Fold(s, i, m, b);
    FoldedOutside(t, i);
    FoldedValue(t, i);
    q := Pow(LIMB, i - 12) * t[i];
  }

  /** The six folds of limbs hi, hi - 1, ..., hi - 5. */
  method FoldSix(s: array<int64>, hi: nat, ghost m: nat) returns (ghost q: int)
    requires 17 <= hi < s.Length && Bounded(s[..], hi - 17, hi + 1, m)
    requires 6_000_000 * m < 0x4000_0000_0000_0000
    modifies s
    ensures Value(s[..], hi - 5) == old(Value(s[..], hi + 1)) - L * q
    ensures Bounded(s[..], hi - 17, hi - 6, 6_000_000 * m)
    ensures SameOutside(old(s[..]), s[..], hi - 17, hi - 6)
  {
    hide Value;
    var from, to := hi - 17, hi - 6;
    ghost var w := 997805 * m;
    var q0 := FoldStep(s, hi, from, to, m, m);
    var q1 := FoldStep(s, hi - 1, from, to, m, m + w);
    var q2 := FoldStep(s, hi - 2, from, to, m, m + 2 * w);
    var q3 := FoldStep(s, hi - 3, from, to, m, m + 3 * w);
    var q4 := FoldStep(s, hi - 4, from, to, m, m + 4 * w);
    var q5 := FoldStep(s, hi - 5, from, to, m, m + 5 * w);
    q := q0 + q1 + q2 + q3 + q4 + q5;
  }

  // ---------- The reduction ----------

  const M35: int := 0x8_0000_0000
  const M37: int := 0x20_0000_0000
  const M39: int := 0x80_0000_0000
  const HIGH_CARRY: int := 98_304_050_000
  const LOW_CARRY: int := 393_216_400_000

  lemma Spread(t: seq<int>, from: nat, to: nat, m: nat, b: nat, e: nat)
    requires to <= |t| && Bounded(t, from, to, m) && m <= b && m <= e
    ensures Alternating(t, from, to, b, e)
  {
  }

  /** Limbs 23 .. 18 folded, then 6 .. 16 carried. */
  method ReduceHigh(s: array<int64>) returns (ghost q: int)
    requires s.Length == 24 && Bounded(s[..], 0, 24, M35)
    modifies s
    ensures Value(s[..], 18) == old(Value(s[..], 24)) - L * q
    ensures Bounded(s[..], 0, 18, M37)
  {
    hide Value;
    q := FoldSix(s, 23, M35);
    ghost var b := 6_000_000 * M35;
    Spread(s[..], 6, 16, b, b, b);
    RoundPass(s, 6, 16, 18, b, b, HIGH_CARRY);
    ghost var u := s[..];
    ghost var d := CarryRound(s, 16, b, M35, HIGH_CARRY);
    CarriedValue(u, 16, d, 18);
    AfterRound(u, s[..], d, b);
    RoundPass(s, 7, 17, 18, b + HIGH_CARRY, 0x10_0000, HIGH_CARRY);
  }

  lemma AfterRound(u: seq<int>, v: seq<int>, d: int, b: nat)
    requires |u| == 24 && v == Carried(u, 16, d) && Balanced(v[16])
    requires Rounded(u, 6, 16, b + HIGH_CARRY)
    ensures Alternating(v, 7, 17, b + HIGH_CARRY, 0x10_0000)
  {
    forall k | 7 <= k < 17
      ensures Abs(v[k], if (k - 7) % 2 == 0 then b + HIGH_CARRY else 0x10_0000)
    {
      assert (k - 7) % 2 == 0 <==> (k - 6) % 2 == 1;
    }
  }

  lemma ZeroAbove(t: seq<int>, n: nat)
    requires n < |t|
    ensures Value(t[n := 0], n + 1) == Value(t, n)
  {
    assert t[n := 0][..n + 1] == t[..n] + [0];
    DropZero(t[..n]);
  }

  /** Limbs 17 .. 12 folded, then 0 .. 11 carried into limb 12. */
  method ReduceMiddle(s: array<int64>) returns (ghost q: int)
    requires s.Length == 24 && Bounded(s[..], 0, 18, M37)
    modifies s
    ensures Value(s[..], 13) == old(Value(s[..], 18)) - L * q
    ensures Bounded(s[..], 0, 13, M39) && Balanced(s[11])
  {
    hide Value;
    q := FoldSix(s, 17, M37);
    ghost var t := s[..];
    s[12] := 0;
    assert s[..] == t[12 := 0];
    ZeroAbove(t, 12);
    ghost var b := 6_000_000 * M37;
    Spread(s[..], 0, 12, b, b, b);
    RoundPass(s, 0, 12, 13, b, b, LOW_CARRY);
    Shifted(s[..], b + LOW_CARRY);
    RoundPass(s, 1, 13, 13, b + LOW_CARRY, 0x10_0000, LOW_CARRY);
    MiddleDone(s[..]);
  }

  lemma Shifted(u: seq<int>, b: nat)
    requires |u| == 24 && Rounded(u, 0, 12, b) && u[12] == 0 && b >= 0x10_0000
    ensures Alternating(u, 1, 13, b, 0x10_0000)
  {
    forall k | 1 <= k < 13
      ensures Abs(u[k], if (k - 1) % 2 == 0 then b else 0x10_0000)
    {
      assert (k - 1) % 2 == 0 <==> (k - 0) % 2 == 1;
    }
  }

  lemma MiddleDone(u: seq<int>)
    requires |u| == 24 && Rounded(u, 1, 13, 0x10_0000 + LOW_CARRY) && Abs(u[0], 0x10_0000)
    ensures Bounded(u, 0, 13, M39) && Balanced(u[11])
  {
    assert (11 - 1) % 2 == 0;
  }

  const TWO_252: int := 0x1000_0000_0000_0000_0000_0000_0000_0000_0000_0000_0000_0000_0000_0000_0000_0000

  lemma TwelveIs(t: seq<int>)
    requires |t| >= 12
    ensures Value(t, 12) == Thirteen(t[..12] + [0])
  {
    DropZero(t[..12]);
    ThirteenIs(t[..12] + [0]);
  }

  lemma ThirteenLimbs(t: seq<int>)
    requires |t| >= 13
    ensures Value(t, 13) == Value(t, 12) + TWO_252 * t[12]
  {
    TwelveIs(t);
    ThirteenIs(t[..13]);
    assert t[..13] == t[..12] + [t[12]];
  }

  /** A balanced top limb keeps the value well inside (-2^252, 2^252). */
  lemma BalancedRange(t: seq<int>)
    requires |t| >= 12 && Bounded(t, 0, 12, M39) && Balanced(t[11])
    ensures Abs(Value(t, 12), 7 * TWO_252 / 8)
  {
    TwelveIs(t);
  }

  lemma FlooredRange(t: seq<int>)
    requires |t| >= 12 && forall k :: 0 <= k < 12 ==> 0 <= t[k] < LIMB
    ensures 0 <= Value(t, 12) < TWO_252
  {
    TwelveIs(t);
  }

  lemma TopOfFloored(t: seq<int>)
    requires |t| >= 12 && forall k :: 0 <= k < 11 ==> 0 <= t[k] < LIMB
    requires 0 <= Value(t, 12) < L
    ensures 0 <= t[11] <= LIMB
  {
    TwelveIs(t);
  }

  lemma FoldedTwelve(t: seq<int>)
    requires |t| >= 13
    ensures Value(Folded(t, 12), 12) == Value(t, 13) - L * t[12]
  {
    FoldedValue(t, 12);
    assert Pow(LIMB, 0) == 1;
  }

  /** The last rounding left a value within 2^252 of zero; flooring it and folding what comes
      out puts it in [0, L). */
  method ReduceLast(s: array<int64>) returns (ghost q: int)
    requires s.Length == 24 && Bounded(s[..], 0, 13, M39) && Balanced(s[11])
    modifies s
    ensures Value(s[..], 12) == old(Value(s[..], 13)) - L * q
    ensures 0 <= Value(s[..], 12) < L
    ensures (forall k :: 0 <= k < 11 ==> 0 <= s[k] < LIMB) && 0 <= s[11] <= LIMB
  {
    hide Value, Folded;
    ghost var t := s[..];
    BalancedRange(t);
    ThirteenLimbs(t);
    FoldedTwelve(t);
    FoldedOutside(t, 12);
    Fold(s, 12, M39, M39);
    ghost var u := s[..];
    s[12] := 0;
    assert s[..] == u[12 := 0];
    ZeroAbove(u, 12);
    ghost var b := M39 + 997805 * M39;
    FloorPass(s, 12, 13, b, M39);
    ghost var v := s[..];
    FlooredRange(v);
    ThirteenLimbs(v);
    assert v[12] == 0 || v[12] == -1;
    FoldedTwelve(v);
    FoldedOutside(v, 12);
    Fold(s, 12, 1, LIMB);
    FloorPass(s, 11, 12, LIMB + 997805, 4);
    TopOfFloored(s[..]);
    q := t[12] + v[12];
  }

  /** All of it: 24 limbs down to the canonical twelve. */
  method ReduceLimbs(s: array<int64>) returns (ghost q: int)
    requires s.Length == 24 && Bounded(s[..], 0, 24, M35)
    modifies s
    ensures Value(s[..], 12) == old(Value(s[..], 24)) - L * q
    ensures 0 <= Value(s[..], 12) < L
    ensures (forall k :: 0 <= k < 11 ==> 0 <= s[k] < LIMB) && 0 <= s[11] <= LIMB
  {
    hide Value;
    var q0 := ReduceHigh(s);
    var q1 := ReduceMiddle(s);
    var q2 := ReduceLast(s);
    q := q0 + q1 + q2;
  }
}
