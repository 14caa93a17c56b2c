/** The two digit recodings of a scalar: signed radix 16 and sliding window.  Both keep the value
    while they overwrite the digits in place. */
module Recoding {
  import opened Arithmetic
  import opened Bits
  import opened Bytes
  import opened PrimeField

  type int8 = x: int | -128 <= x < 128

  // ---------- Values of digit strings ----------

  /** The number with digits s in base b, least significant first. */
  function Weighted(b: int, s: seq<int>): int
    decreases |s|, b
  {
    if s == [] then 0 else s[0] + b * Weighted(b, s[1..])
  }

  lemma {:induction false} WeightedConcat(b: int, s: seq<int>, t: seq<int>)
    ensures Weighted(b, s + t) == Weighted(b, s) + Pow(b, |s|) * Weighted(b, t)
  {
    if s == [] {
      assert s + t == t;
    } else {
      assert (s + t)[1..] == s[1..] + t;
      WeightedConcat(b, s[1..], t);
      assert b * (Pow(b, |s| - 1) * Weighted(b, t)) == Pow(b, |s|) * Weighted(b, t);
    }
  }

  lemma WeightedOne(b: int, x: int)
    ensures Weighted(b, [x]) == x
  {
    assert [x][1..] == [];
    assert Weighted(b, []) == 0;
  }

  lemma WeightedSnoc(b: int, s: seq<int>, x: int)
    ensures Weighted(b, s + [x]) == Weighted(b, s) + Pow(b, |s|) * x
  {
    WeightedConcat(b, s, [x]);
    WeightedOne(b, x);
  }

  lemma WeightedStep(b: int, s: seq<int>, i: nat)
    requires i < |s|
    ensures Weighted(b, s[i..]) == s[i] + b * Weighted(b, s[i + 1..])
  {
    assert s[i..][1..] == s[i + 1..];
  }

  /** Replacing one digit. */
  lemma WeightedUpdate(b: int, s: seq<int>, k: nat, x: int)
    requires k < |s|
    ensures Weighted(b, s[k := x]) == Weighted(b, s) + Pow(b, k) * (x - s[k])
  {
    var low, high := s[..k], s[k + 1..];
    assert s == low + ([s[k]] + high) && s[k := x] == low + ([x] + high);
    WeightedConcat(b, low, [s[k]] + high);
    WeightedConcat(b, low, [x] + high);
    WeightedConcat(b, [s[k]], high);
    WeightedConcat(b, [x], high);
    WeightedOne(b, s[k]);
    WeightedOne(b, x);
    var h := Pow(b, 1) * Weighted(b, high);
    assert Pow(b, k) * (x + h) - Pow(b, k) * (s[k] + h) == Pow(b, k) * (x - s[k]);
  }

  // ---------- Signed radix 16 ----------

  lemma {:induction false} SixteenSquared(k: nat)
    ensures Pow(16, 2 * k) == Pow256(k)
  {
    if k > 0 {
      SixteenSquared(k - 1);
      assert Pow(16, 2 * k) == 16 * Pow(16, 2 * k - 1);
      assert Pow(16, 2 * k - 1) == 16 * Pow(16, 2 * k - 2);
    }
  }

  lemma LeValSnoc(a: seq<byte>, i: nat)
    requires i < |a|
    ensures LeVal(a[..i + 1]) == LeVal(a[..i]) + Pow256(i) * a[i]
  {
    assert a[..i + 1] == a[..i] + [a[i]];
    LeValConcat(a[..i], [a[i]]);
    assert [a[i]][1..] == [];
  }

  lemma NibblesAdd(w: int, x: int)
    ensures w * (x % 16) + 16 * w * (x / 16) == w * x
  {
    assert w * x == w * (x % 16 + 16 * (x / 16));
  }

  /** e[2 i] = low nibble, e[2 i + 1] = high nibble. */
  method SplitNibbles(a: seq<byte>, e: array<int8>)
    requires |a| == 32 && e.Length == 64
    modifies e
    ensures Weighted(16, e[..]) == LeVal(a)
    ensures forall k :: 0 <= k < 64 ==> 0 <= e[k] < 16
    ensures e[63] == a[31] / 16
  {
    for i := 0 to 32
      invariant Weighted(16, e[..2 * i]) == LeVal(a[..i])
      invariant forall k :: 0 <= k < 2 * i ==> 0 <= e[k] < 16
      invariant i == 32 ==> e[63] == a[31] / 16
    {
      ghost var done := e[..2 * i];
      e[2 * i] := a[i] % 16;
      e[2 * i + 1] := a[i] / 16;
      assert e[..2 * i] == done;
      assert e[..2 * i + 1] == done + [a[i] % 16];
      assert e[..2 * i + 2] == done + [a[i] % 16] + [a[i] / 16];
      NibblesStep(done, a, i);
    }
    assert e[..] == e[..64] && a == a[..32];
  }

  lemma NibblesStep(s: seq<int>, a: seq<byte>, i: nat)
    requires i < |a| && |s| == 2 * i && Weighted(16, s) == LeVal(a[..i])
    ensures Weighted(16, s + [a[i] % 16] + [a[i] / 16]) == LeVal(a[..i + 1])
  {
    var x: int := a[i];
    WeightedSnoc(16, s, x % 16);
    WeightedSnoc(16, s + [x % 16], x / 16);
    LeValSnoc(a, i);
    SixteenSquared(i);
    NibblesAdd(Pow256(i), x);
  }

  /** Replacing digit x and carry c by digit x + c - 16 d and carry d. */
  lemma CarryStep(done: seq<int>, before: seq<int>, x: int, c: int, d: int)
    requires |done| == |before|
    requires Weighted(16, done) + Pow(16, |done|) * c == Weighted(16, before)
    ensures Weighted(16, done + [x + c - 16 * d]) + Pow(16, |done| + 1) * d == Weighted(16, before + [x])
  {
    WeightedSnoc(16, done, x + c - 16 * d);
    WeightedSnoc(16, before, x);
    assert Pow(16, |done| + 1) == 16 * Pow(16, |done|);
    hide Weighted, Pow;
    CarryMoves(Pow(16, |done|), Pow(16, |done| + 1), x, c, d);
  }

  lemma CarryMoves(w: int, v: int, x: int, c: int, d: int)
    requires v == 16 * w
    ensures w * (x + c - 16 * d) + v * d == w * x + w * c
  {
    assert w * (x + c - 16 * d) == w * x + w * c - 16 * (w * d);
  }

  /** Each digit above 7 becomes negative and carries one into the next. */
  method CarryNibbles(e: array<int8>)
    requires e.Length == 64
    requires forall k :: 0 <= k < 64 ==> 0 <= e[k] < 16
    modifies e
    ensures Weighted(16, e[..]) == old(Weighted(16, e[..]))
    ensures forall k :: 0 <= k < 63 ==> -8 <= e[k] < 8
    ensures old(e[63]) <= e[63] <= old(e[63]) + 1
  {
    hide Weighted, Pow;
    ghost var start := e[..];
    var carry: int8 := 0;
    WeightedEmpty(e[..0], start[..0]);
    for i := 0 to 63
      invariant 0 <= carry <= 1
      invariant e[i..] == start[i..]
      invariant forall k :: 0 <= k < i ==> -8 <= e[k] < 8
      invariant Weighted(16, e[..i]) + Pow(16, i) * carry == Weighted(16, start[..i])
    {
      ghost var done, c := e[..i], carry;
      assert e[i] == start[i];
      e[i] := e[i] + carry;
      carry := (e[i] + 8) / 16;
      e[i] := e[i] - carry * 16;
      assert e[..i + 1] == done + [start[i] + c - 16 * carry];
      assert start[..i + 1] == start[..i] + [start[i]];
      CarryStep(done, start[..i], start[i], c, carry);
    }
    ghost var done := e[..63];
    assert e[63] == start[63];
    e[63] := e[63] + carry;
    assert e[..] == done + [start[63] + carry - 16 * 0] && start == start[..63] + [start[63]];
    CarryStep(done, start[..63], start[63], carry, 0);
  }

  lemma WeightedEmpty(s: seq<int>, t: seq<int>)
    requires s == [] && t == []
    ensures Weighted(16, s) + Pow(16, 0) * 0 == Weighted(16, t)
  {
  }

  /** The digits both fixed-window multiplications use: the value is kept for every scalar, and
      every digit indexes the eight-entry table when the top octet is at most 127. */
  method SignedRadix16(a: seq<byte>) returns (e: array<int8>)
    requires |a| == 32
    ensures fresh(e) && e.Length == 64
    ensures Weighted(16, e[..]) == LeVal(a)
    ensures forall k :: 0 <= k < 63 ==> -8 <= e[k] <= 8
    ensures a[31] <= 127 ==> -8 <= e[63] <= 8
  {
    e := new int8[64];
    SplitNibbles(a, e);
    CarryNibbles(e);
  }

  // ---------- Sliding window ----------

  lemma {:induction false} PowIsTwoTo(k: nat)
    ensures Pow(2, k) == TwoTo(k)
  {
    if k > 0 {
      PowIsTwoTo(k - 1);
    }
  }

  lemma {:induction false} OctetsOfBits(q: nat)
    ensures TwoTo(8 * q) == Pow256(q)
  {
    if q > 0 {
      OctetsOfBits(q - 1);
      TwoToAdd(8 * (q - 1), 8);
      assert TwoTo(8) == 256;
    }
  }

  /** Bit i of a little-endian octet string. */
  function Bit(a: seq<byte>, i: nat): (b: int8)
    requires i < 8 * |a|
    ensures b == 0 || b == 1
  {
    a[i / 8] / TwoTo(i % 8) % 2
  }

  /** The number the first 8 q + m bits of a stand for. */
  function LowBits(a: seq<byte>, q: nat, m: nat): int
    requires q < |a| || (q == |a| && m == 0)
  {
    if q == |a| then LeVal(a) else LeVal(a[..q]) + Pow256(q) * (a[q] % TwoTo(m))
  }

  lemma IndexParts(i: int, q: nat, m: nat)
    requires i == 8 * q + m && m < 8
    ensures i / 8 == q && i % 8 == m
  {
  }

  lemma WeightOfBit(q: nat, m: nat)
    ensures TwoTo(8 * q + m) == Pow256(q) * TwoTo(m)
  {
    OctetsOfBits(q);
    TwoToAdd(8 * q, m);
  }

  lemma NextBit(x: int, m: nat)
    ensures x % TwoTo(m + 1) == x % TwoTo(m) + TwoTo(m) * (x / TwoTo(m) % 2)
  {
    ModDigit(x, TwoTo(m), 2);
  }

  lemma AddBit(w: int, y: int, p: int, b: int, z: int)
    requires z == y + p * b
    ensures w * z == w * y + w * p * b
  {
    assert w * (y + p * b) == w * y + w * (p * b);
    assert w * (p * b) == w * p * b;
  }

  lemma LowBitsStep(a: seq<byte>, q: nat, m: nat)
    requires q < |a| && m < 7
    ensures LowBits(a, q, m + 1) == LowBits(a, q, m) + TwoTo(8 * q + m) * (a[q] / TwoTo(m) % 2)
  {
    var x: int := a[q];
    WeightOfBit(q, m);
    NextBit(x, m);
    hide TwoTo, Pow256;
    AddBit(Pow256(q), x % TwoTo(m), TwoTo(m), x / TwoTo(m) % 2, x % TwoTo(m + 1));
  }

  lemma WholeOctet(x: byte)
    ensures x % 128 + 128 * (x / 128 % 2) == x
  {
  }

  lemma LowBitsCarry(a: seq<byte>, q: nat)
    requires q < |a|
    ensures LowBits(a, q + 1, 0) == LowBits(a, q, 7) + TwoTo(8 * q + 7) * (a[q] / TwoTo(7) % 2)
  {
    var x: int := a[q];
    WeightOfBit(q, 7);
    assert TwoTo(7) == 128;
    WholeOctet(x);
    hide TwoTo, Pow256;
    AddBit(Pow256(q), x % 128, 128, x / 128 % 2, x);
    LowBitsWhole(a, q + 1);
    LeValSnoc(a, q);
  }

  lemma LowBitsWhole(a: seq<byte>, q: nat)
    requires q <= |a|
    ensures LowBits(a, q, 0) == LeVal(a[..q])
  {
    if q == |a| {
      assert a[..q] == a;
    } else {
      var x: int := a[q];
      assert x % 1 == 0;
    }
  }

  method SplitBits(a: seq<byte>, r: array<int8>)
    requires |a| == 32 && r.Length == 256
    modifies r
    ensures Weighted(2, r[..]) == LeVal(a)
    ensures forall k :: 0 <= k < 256 ==> r[k] == 0 || r[k] == 1
    ensures r[255] == a[31] / 128 % 2
  {
    hide Weighted, LowBits;
    ghost var q, m := 0, 0;
    LowBitsWhole(a, 0);
    NoDigits(r[..0], a[..0]);
    for i := 0 to 256
      invariant i == 8 * q + m && m < 8
      invariant q <= 32
      invariant Weighted(2, r[..i]) == LowBits(a, q, m)
      invariant forall k :: 0 <= k < i ==> r[k] == Bit(a, k)
    {
      ghost var done := r[..i];
      r[i] := Bit(a, i);
      assert r[..i + 1] == done + [r[i]];
      WeightedSnoc(2, done, r[i]);
      PowIsTwoTo(i);
      IndexParts(i, q, m);
      if m < 7 {
        LowBitsStep(a, q, m);
        m := m + 1;
      } else {
        LowBitsCarry(a, q);
        q, m := q + 1, 0;
      }
    }
    assert r[..] == r[..256] && a == a[..32];
    LowBitsWhole(a, 32);
    assert TwoTo(7) == 128;
    assert r[255] == Bit(a, 255);
  }

  lemma NoDigits(s: seq<int>, a: seq<byte>)
    requires s == [] && a == []
    ensures Weighted(2, s) == LeVal(a)
  {
  }

  predicate IsBit(x: int) {
    x == 0 || x == 1
  }

  /** Zero, or odd and at most 15 in magnitude. */
  predicate IsWindowDigit(x: int) {
    x == 0 || (x % 2 == 1 && -15 <= x <= 15)
  }

  /** No two of the first n digits at distance less than 5 are both nonzero. */
  predicate Spaced(s: seq<int>, n: nat)
    requires n <= |s|
  {
    forall j, k :: 0 <= j < n && j < k < j + 5 && k < |s| ==> s[j] == 0 || s[k] == 0
  }

  /** From position i on, either the top bit is clear or it is the only bit set. */
  predicate Quiet(s: seq<int>, i: nat) {
    s != [] && s[|s| - 1] != 0 ==> forall k :: i <= k < |s| - 1 ==> s[k] == 0
  }

  /** The loop over k: add one at position k0 by flipping bits until a clear one is set.  The
      position it stops at is |r| when the carry runs off the end. */
  method PropagateCarry(r: array<int8>, k0: nat) returns (ghost stop: nat)
    requires k0 < r.Length && r[k0] == 1
    requires forall k :: k0 <= k < r.Length ==> IsBit(r[k])
    modifies r
    ensures k0 < stop <= r.Length
    ensures forall k :: 0 <= k < k0 ==> r[k] == old(r[k])
    ensures forall k :: k0 <= k < stop ==> r[k] == 0 && old(r[k]) == 1
    ensures stop < r.Length ==> r[stop] == 1 && old(r[stop]) == 0
    ensures forall k :: stop < k < r.Length ==> r[k] == old(r[k])
    ensures Weighted(2, r[..]) + (if stop == r.Length then Pow(2, r.Length) else 0)
         == old(Weighted(2, r[..])) + Pow(2, k0)
  {
    hide Weighted;
    ghost var s := r[..];
    var k := k0;
    while k < r.Length
      invariant k0 <= k <= r.Length
      invariant forall j :: 0 <= j < k0 ==> r[j] == s[j]
      invariant forall j :: k0 <= j < k ==> r[j] == 0 && s[j] == 1
      invariant forall j :: k <= j < r.Length ==> r[j] == s[j]
      invariant Weighted(2, r[..]) + Pow(2, k) == Weighted(2, s) + Pow(2, k0)
    {
      ghost var before := r[..];
      if r[k] == 0 {
        WeightedUpdate(2, before, k, 1);
        r[k] := 1;
        assert r[..] == before[k := 1];
        stop := k;
        return;
      }
      WeightedUpdate(2, before, k, 0);
      r[k] := 0;
      assert r[..] == before[k := 0];
      assert Pow(2, k + 1) == 2 * Pow(2, k);
      k := k + 1;
    }
    stop := k;
  }

  lemma ShiftWeight(i: nat, b: nat)
    ensures Pow(2, i) * TwoTo(b) == Pow(2, i + b)
  {
    PowAdd(2, i, b);
    PowIsTwoTo(b);
  }

  lemma AbsorbKeeps(s: seq<int>, i: nat, b: nat)
    requires b > 0 && i + b < |s| && s[i + b] == 1
    ensures Weighted(2, s[i := s[i] + TwoTo(b)][i + b := 0]) == Weighted(2, s)
  {
    var t := s[i := s[i] + TwoTo(b)];
    WeightedUpdate(2, s, i, s[i] + TwoTo(b));
    WeightedUpdate(2, t, i + b, 0);
    ShiftWeight(i, b);
  }

  lemma BorrowTakes(s: seq<int>, i: nat, b: nat, x: int)
    requires i + b < |s| && x == s[i] - TwoTo(b)
    ensures Weighted(2, s[i := x]) == Weighted(2, s) - Pow(2, i + b)
  {
    hide Weighted;
    WeightedUpdate(2, s, i, x);
    ShiftWeight(i, b);
    hide Pow, TwoTo;
    OppositeProduct(Pow(2, i), TwoTo(b), x - s[i]);
  }

  lemma OppositeProduct(p: int, q: int, y: int)
    requires y == -q
    ensures p * y == -(p * q)
  {
  }

  lemma SmallShift(b: nat)
    requires 1 <= b <= 6
    ensures TwoTo(b) == (if b == 1 then 2 else if b == 2 then 4 else if b == 3 then 8
                        else if b == 4 then 16 else if b == 5 then 32 else 64)
  {
    assert TwoTo(3) == 8 && TwoTo(6) == 64;
  }

  /** How large the digit can have become after looking at the bits below distance b. */
  predicate DigitAfter(x: int, b: nat) {
    && x % 2 == 1
    && (if b == 1 then x == 1 else if b == 2 then 1 <= x <= 3 else if b == 3 then 1 <= x <= 7
        else if b == 4 then 1 <= x <= 15 else -15 <= x <= 15)
  }

  predicate SamePrefix(s: seq<int>, t: seq<int>, i: nat)
    requires i <= |s| && i <= |t|
  {
    forall k :: 0 <= k < i ==> t[k] == s[k]
  }

  predicate BitsAbove(t: seq<int>, i: nat) {
    forall k :: i < k < |t| ==> IsBit(t[k])
  }

  /** The next positions, up to distance n, are clear. */
  predicate ClearedTo(t: seq<int>, i: nat, n: nat) {
    forall k :: i < k < i + n && k < i + 5 && k < |t| ==> t[k] == 0
  }

  /** Where the loop over b stands: t is the digit string it started from, s, with the bits
      below distance b gathered into digit i. */
  ghost predicate Gathered(s: seq<int>, t: seq<int>, i: nat, b: nat, lost: bool) {
    && |s| == |t| == 256 && i < 256 && 1 <= b <= 7
    && SamePrefix(s, t, i) && BitsAbove(t, i) && ClearedTo(t, i, b)
    && DigitAfter(t[i], b)
    && (b <= 4 ==> !lost)
    && (Quiet(s, i) && b <= 4 && i < 255 ==> t[255] == 0)
    && (Quiet(s, i) ==> !lost && Quiet(t, i + 1))
  }

  lemma GatherStarts(s: seq<int>, i: nat)
    requires |s| == 256 && i < 256 && s[i] == 1 && BitsAbove(s, i)
    ensures Gathered(s, s, i, 1, false)
  {
  }

  lemma GatherClear(s: seq<int>, t: seq<int>, i: nat, b: nat, lost: bool)
    requires Gathered(s, t, i, b, lost) && b <= 6 && i + b < 256 && t[i + b] == 0
    ensures Gathered(s, t, i, b + 1, lost)
  {
    hide Quiet;
  }

  lemma GatherBit(s: seq<int>, t: seq<int>, i: nat, b: nat, lost: bool, x: int)
    requires Gathered(s, t, i, b, lost) && b <= 6 && i + b < 256 && t[i + b] == 1
    requires x == t[i] + TwoTo(b) && x <= 15
    ensures Gathered(s, t[i := x][i + b := 0], i, b + 1, lost)
  {
    SmallShift(b);
    hide TwoTo;
    var u := t[i := x][i + b := 0];
    assert DigitAfter(x, b + 1);
    assert Quiet(t, i + 1) ==> Quiet(u, i + 1);
  }

  /** What PropagateCarry does to a digit string. */
  predicate CarriedFrom(t: seq<int>, u: seq<int>, k0: nat, stop: nat) {
    && |t| == |u| && k0 < stop <= |t|
    && (forall k :: 0 <= k < k0 ==> u[k] == t[k])
    && (forall k :: k0 <= k < stop ==> u[k] == 0 && t[k] == 1)
    && (stop < |t| ==> u[stop] == 1 && t[stop] == 0)
    && (forall k :: stop < k < |t| ==> u[k] == t[k])
  }

  /** Carrying happens at distance four only, and from a quiet string the carry stays inside. */
  lemma GatherCarry(s: seq<int>, t: seq<int>, i: nat, b: nat, lost: bool, x: int, u: seq<int>, stop: nat)
    requires Gathered(s, t, i, b, lost) && b <= 6 && i + b < 256 && t[i + b] == 1
    requires t[i] + TwoTo(b) > 15 && x == t[i] - TwoTo(b) && x >= -15
    requires CarriedFrom(t[i := x], u, i + b, stop)
    ensures !lost && Gathered(s, u, i, b + 1, stop == 256)
  {
    SmallShift(b);
    hide TwoTo;
    assert b == 4;
    assert DigitAfter(x, 5);
    if Quiet(s, i) {
      assert i < 255 && t[i := x][255] == 0;
    }
  }

  lemma GatherEnds(s: seq<int>, t: seq<int>, i: nat, b: nat, lost: bool)
    requires Gathered(s, t, i, b, lost) && (b >= 5 || i + b >= 256)
    ensures t[i] != 0 && IsWindowDigit(t[i]) && ClearedTo(t, i, 5) && SamePrefix(s, t, i)
  {
  }

  /** The value of a digit string, with what a lost carry took away put back. */
  function Restored(t: seq<int>, lost: bool): int {
    Weighted(2, t) + (if lost then Pow(2, |t|) else 0)
  }

  lemma BitAbsorbed(s: seq<int>, t: seq<int>, i: nat, b: nat, was: bool)
    requires Gathered(s, t, i, b, was) && b <= 6 && i + b < 256 && t[i + b] == 1 && t[i] + TwoTo(b) <= 15
    ensures var u := t[i := t[i] + TwoTo(b)][i + b := 0];
            Restored(u, was) == Restored(t, was) && Gathered(s, u, i, b + 1, was)
  {
    AbsorbKeeps(t, i, b);
    GatherBit(s, t, i, b, was, t[i] + TwoTo(b));
    hide Weighted, Quiet, SamePrefix, ClearedTo, Pow, TwoTo;
  }

  /** One pass of the loop over b, for a set bit at distance b. */
  method AbsorbBit(r: array<int8>, i: nat, b: nat, ghost s: seq<int>, ghost was: bool)
    returns (stop: bool, ghost lost: bool)
    requires r.Length == 256 && Gathered(s, r[..], i, b, was) && b <= 6 && i + b < 256 && r[i + b] == 1
    modifies r
    ensures Restored(r[..], lost) == old(Restored(r[..], was))
    ensures !stop ==> Gathered(s, r[..], i, b + 1, lost)
    ensures stop ==> b >= 5 && r[..] == old(r[..]) && lost == was
  {
    ghost var t := r[..];
    SmallShift(b);
    hide Weighted, Quiet, SamePrefix, ClearedTo, Pow, TwoTo;
    var ribs := r[i + b] * TwoTo(b);
    stop, lost := false, was;
    if r[i] + ribs <= 15 {
      BitAbsorbed(s, t, i, b, was);
      r[i] := r[i] + ribs;
      r[i + b] := 0;
      assert r[..] == t[i := t[i] + TwoTo(b)][i + b := 0];
    } else if r[i] - ribs < -15 {
      stop := true;
    } else {
      ghost var x := t[i] - TwoTo(b);
      BorrowTakes(t, i, b, x);
      r[i] := r[i] - ribs;
      assert r[..] == t[i := x];
      ghost var k := PropagateCarry(r, i + b);
      GatherCarry(s, t, i, b, was, x, r[..], k);
      lost := k == 256;
    }
  }

  /** The loop over b: gather the next bits into digit i, going negative and carrying when the
      digit would exceed 15. */
  method AbsorbWindow(r: array<int8>, i: nat) returns (ghost lost: bool)
    requires r.Length == 256 && i < 256 && r[i] == 1
    requires BitsAbove(r[..], i)
    modifies r
    ensures SamePrefix(old(r[..]), r[..], i)
    ensures r[i] != 0 && IsWindowDigit(r[i])
    ensures BitsAbove(r[..], i) && ClearedTo(r[..], i, 5)
    ensures Restored(r[..], lost) == old(Weighted(2, r[..]))
    ensures old(Quiet(r[..], i)) ==> !lost && Quiet(r[..], i + 1)
  {
    ghost var s := r[..];
    GatherStarts(s, i);
    lost := false;
    assert Restored(s, lost) == Weighted(2, s);
    hide Restored, Weighted, Quiet, SamePrefix, ClearedTo;
    var b := 1;
    while b <= 6 && i + b < 256
      invariant Gathered(s, r[..], i, b, lost)
      invariant Restored(r[..], lost) == Restored(s, false)
    {
      if r[i + b] == 0 {
        GatherClear(s, r[..], i, b, lost);
      } else {
        var stop;
        stop, lost := AbsorbBit(r, i, b, s, lost);
        if stop {
          break;
        }
      }
      b := b + 1;
    }
    GatherEnds(s, r[..], i, b, lost);
  }

  /** The outer loop at position i: final digits below, bits from i on. */
  ghost predicate Sliding(t: seq<int>, i: nat) {
    && |t| == 256 && i <= 256
    && (forall k :: 0 <= k < i ==> IsWindowDigit(t[k]))
    && (forall k :: i <= k < 256 ==> IsBit(t[k]))
    && Spaced(t, i)
  }

  lemma SlideClear(t: seq<int>, i: nat)
    requires Sliding(t, i) && i < 256 && t[i] == 0
    ensures Sliding(t, i + 1)
    ensures Quiet(t, i) ==> Quiet(t, i + 1)
  {
  }

  lemma SlideWindow(t: seq<int>, u: seq<int>, i: nat)
    requires Sliding(t, i) && i < 256 && t[i] != 0 && |u| == 256
    requires SamePrefix(t, u, i) && u[i] != 0 && IsWindowDigit(u[i])
    requires BitsAbove(u, i) && ClearedTo(u, i, 5)
    ensures Sliding(u, i + 1)
  {
    forall j, k | 0 <= j < i + 1 && j < k < j + 5 && k < 256
      ensures u[j] == 0 || u[k] == 0
    {
      if j < i && k >= i {
        assert t[j] == 0 by {
          assert Spaced(t, i);
        }
      }
    }
  }

  lemma MoreLost(w: int, m: int, n: int, x: int, y: int)
    requires x == y + m && w == x + n * m
    ensures w == y + (n + 1) * m
  {
  }

  /** slide_vartime: the value is kept modulo 2^256, and exactly when the top bit is clear; each
      digit is zero or odd within 15, and nonzero digits are at least five apart. */
  method SlideVartime(a: seq<byte>) returns (r: array<int8>, ghost lost: nat)
    requires |a| == 32
    ensures fresh(r) && r.Length == 256
    ensures forall k :: 0 <= k < 256 ==> IsWindowDigit(r[k])
    ensures Spaced(r[..], 256)
    ensures Weighted(2, r[..]) + lost * Pow(2, r.Length) == LeVal(a)
    ensures a[31] <= 127 ==> lost == 0
  {
    r := new int8[256];
    SplitBits(a, r);
    lost := 0;
    assert Sliding(r[..], 0);
    assert a[31] <= 127 ==> Quiet(r[..], 0);
    hide Weighted, Quiet, SamePrefix, ClearedTo, Pow, Sliding;
    for i := 0 to 256
      invariant Sliding(r[..], i)
      invariant Weighted(2, r[..]) + lost * Pow(2, r.Length) == LeVal(a)
      invariant a[31] <= 127 ==> lost == 0 && Quiet(r[..], i)
    {
      ghost var t := r[..];
      if r[i] == 0 {
        SlideClear(t, i);
      } else {
        SlidingBit(t, i);
        ghost var gone := AbsorbWindow(r, i);
        SlideWindow(t, r[..], i);
        if gone {
          MoreLost(LeVal(a), Pow(2, r.Length), lost, Weighted(2, t), Weighted(2, r[..]));
          lost := lost + 1;
        }
      }
    }
    SlidingDone(r[..]);
  }

  lemma SlidingBit(t: seq<int>, i: nat)
    requires Sliding(t, i) && i < 256 && t[i] != 0
    ensures t[i] == 1 && BitsAbove(t, i)
  {
  }

  lemma SlidingDone(t: seq<int>)
    requires Sliding(t, 256)
    ensures Spaced(t, 256) && forall k :: 0 <= k < 256 ==> IsWindowDigit(t[k])
  {
  }
}
