/** The three scalar multiplications of ed25519_ref10.c over the point formulas: a fixed window
    on a runtime point, a fixed window on a precomputed base table, and a sliding window on two
    points at once. */
module ScalarMult {
  import opened Bits
  import opened Bytes
  import opened PrimeField
  import opened FieldLimbs
  import opened Edwards
  import opened EdwardsGroup
  import opened Points
  import opened Recoding

  // ---------- Constant-time selection ----------

  /** equal(): the borrow of (b ^ c) - 1 out of 32 bits, 1 exactly when the octets agree. */
  function EqualBit(b: byte, c: byte): (r: nat)
    ensures r == if b == c then 1 else 0
  {
    (Xor(b, c) - 1) % 0x1_0000_0000 / 0x8000_0000
  }

  /** negative(): the sign bit of b widened to 64 bits. */
  function NegativeBit(b: int8): nat {
    (if b < 0 then b + 0x1_0000_0000_0000_0000 else b) / 0x8000_0000_0000_0000
  }

  lemma NegativeBitIs(b: int8)
    ensures NegativeBit(b) == if b < 0 then 1 else 0
  {
  }

  predicate CachedInWords(q: Cached) {
    InWords(q.YplusX) && InWords(q.YminusX) && InWords(q.Z) && InWords(q.T2d)
  }

  predicate PrecompInWords(q: Precomp) {
    InWords(q.yplusx) && InWords(q.yminusx) && InWords(q.xy2d)
  }

  lemma ZerosInWords()
    ensures CachedInWords(CachedZero) && PrecompInWords(PrecompZero)
  {
  }

  lemma CachedFits(d: int, q: Cached, a: Point)
    requires IsCached(d, q, a)
    ensures CachedInWords(q)
  {
  }

  lemma PrecompFits(d: int, q: Precomp, a: Point)
    requires IsPrecomp(d, q, a)
    ensures PrecompInWords(q)
  {
  }

  method CmovCached(t: Cached, u: Cached, b: nat) returns (r: Cached)
    requires CachedInWords(t) && CachedInWords(u)
    ensures r == if b == 1 then u else t
  {
    var yplusx := FeCmov(t.YplusX, u.YplusX, b == 1);
    var yminusx := FeCmov(t.YminusX, u.YminusX, b == 1);
    var z := FeCmov(t.Z, u.Z, b == 1);
    var t2d := FeCmov(t.T2d, u.T2d, b == 1);
    r := Cached(yplusx, yminusx, z, t2d);
  }

  method CmovPrecomp(t: Precomp, u: Precomp, b: nat) returns (r: Precomp)
    requires PrecompInWords(t) && PrecompInWords(u)
    ensures r == if b == 1 then u else t
  {
    var yplusx := FeCmov(t.yplusx, u.yplusx, b == 1);
    var yminusx := FeCmov(t.yminusx, u.yminusx, b == 1);
    var xy2d := FeCmov(t.xy2d, u.xy2d, b == 1);
    r := Precomp(yplusx, yminusx, xy2d);
  }

  /** (-bnegative) & b on 32-bit patterns. */
  function NegativePart(b: int8): (m: int32)
    ensures m == if b < 0 then b else 0
  {
    NegativeBitIs(b);
    WordSize();
    BitsBound(Pattern(b), Pattern(0 - NegativeBit(b)), 32);
    MaskIs(Pattern(b), NegativeBit(b));
    Limb(AndBits(Pattern(b), Pattern(0 - NegativeBit(b)), 32))
  }

  lemma MaskIs(x: nat, b: nat)
    requires x < TwoTo(32) && b <= 1
    ensures AndBits(x, Pattern(0 - b), 32) == if b == 1 then x else 0
  {
    WordSize();
    hide TwoTo, AndBits;
    AndLow(x, 32, 32);
    SmallMod(x, TwoTo(32));
    AndWithZero(x, 32);
  }

  /** b - (((-bnegative) & b) * ((signed char) 1 << 1)), as an octet: the absolute value. */
  function Magnitude(b: int8): (m: byte)
    ensures if b < 0 then m + b == 0 else m == b
  {
    hide NegativePart;
    (b - NegativePart(b) * 2) % 256
  }

  /** The table holds a, 2a, ..., 8a. */
  ghost predicate IsTable(d: int, pi: seq<Cached>, a: Point) {
    |pi| == 8 && forall j :: 0 <= j < 8 ==> IsCached(d, pi[j], Mul(d, j + 1, a))
  }

  function PickCached(pi: seq<Cached>, m: int): Cached
    requires |pi| == 8
  {
    if 1 <= m <= 8 then pi[m - 1] else CachedZero
  }

  lemma TableInWords(d: int, pi: seq<Cached>, a: Point)
    requires IsTable(d, pi, a)
    ensures forall j :: 0 <= j < 8 ==> CachedInWords(pi[j])
  {
    hide CachedInWords, IsCached;
    forall j | 0 <= j < 8 ensures CachedInWords(pi[j]) {
      CachedFits(d, pi[j], Mul(d, j + 1, a));
    }
  }

  /** The eight conditional moves over the table. */
  method ScanCached(pi: seq<Cached>, m: byte) returns (t: Cached)
    requires |pi| == 8 && forall j :: 0 <= j < 8 ==> CachedInWords(pi[j])
    ensures t == PickCached(pi, m)
  {
    hide CachedInWords, EqualBit;
    ZerosInWords();
    t := CachedZero;
    t := CmovCached(t, pi[0], EqualBit(m, 1));
    t := CmovCached(t, pi[1], EqualBit(m, 2));
    t := CmovCached(t, pi[2], EqualBit(m, 3));
    t := CmovCached(t, pi[3], EqualBit(m, 4));
    t := CmovCached(t, pi[4], EqualBit(m, 5));
    t := CmovCached(t, pi[5], EqualBit(m, 6));
    t := CmovCached(t, pi[6], EqualBit(m, 7));
    t := CmovCached(t, pi[7], EqualBit(m, 8));
  }

  method SelectCached(pi: seq<Cached>, b: int8, ghost d: int, ghost a: Point) returns (t: Cached)
    requires IsTable(d, pi, a) && -8 <= b <= 8
    requires EdwardsCurve(d) && OnCurve(d, a)
    ensures IsCached(d, t, Mul(d, b, a))
  {
    TableInWords(d, pi, a);
    hide IsCached, PickCached, CachedInWords, Magnitude;
    var babs := Magnitude(b);
    ghost var m: int := babs;
    t := ScanCached(pi, babs);
    PickedIs(d, pi, m, a);
    var minust := Cached(t.YminusX, t.YplusX, t.Z, FeNegation(t.T2d));
    NegatedCachedIs(d, t, Mul(d, m, a));
    MulNeg(d, m, a);
    NegativeBitIs(b);
    CachedFits(d, t, Mul(d, m, a));
    CachedFits(d, minust, Mul(d, -m, a));
    t := CmovCached(t, minust, NegativeBit(b));
  }

  lemma PickedIs(d: int, pi: seq<Cached>, m: int, a: Point)
    requires IsTable(d, pi, a) && 0 <= m <= 8
    ensures IsCached(d, PickCached(pi, m), Mul(d, m, a))
  {
    hide IsCached;
    if m == 0 {
      MulZero(d, a);
      ZeroEntries(d, CachedZero, PrecompZero);
    } else {
      assert IsCached(d, pi[m - 1], Mul(d, m - 1 + 1, a));
    }
  }

  /** The table holds n, 2n, ..., 8n times the base point, for one row's n. */
  ghost predicate IsBaseRow(d: int, row: seq<Precomp>, n: int, a: Point) {
    |row| == 8 && forall j :: 0 <= j < 8 ==> IsPrecomp(d, row[j], Mul(d, (j + 1) * n, a))
  }

  /** base[i][j] = (j + 1) * 256^i * B. */
  ghost predicate IsBaseTable(d: int, base: seq<seq<Precomp>>, a: Point) {
    |base| == 32 && forall i :: 0 <= i < 32 ==> IsBaseRow(d, base[i], Pow256(i), a)
  }

  lemma RowInWords(d: int, row: seq<Precomp>, n: int, a: Point)
    requires IsBaseRow(d, row, n, a)
    ensures forall j :: 0 <= j < 8 ==> PrecompInWords(row[j])
  {
    hide PrecompInWords, IsPrecomp;
    forall j | 0 <= j < 8 ensures PrecompInWords(row[j]) {
      PrecompFits(d, row[j], Mul(d, (j + 1) * n, a));
    }
  }

  function PickPrecomp(row: seq<Precomp>, m: int): Precomp
    requires |row| == 8
  {
    if 1 <= m <= 8 then row[m - 1] else PrecompZero
  }

  method ScanPrecomp(row: seq<Precomp>, m: byte) returns (t: Precomp)
    requires |row| == 8 && forall j :: 0 <= j < 8 ==> PrecompInWords(row[j])
    ensures t == PickPrecomp(row, m)
  {
    hide PrecompInWords, EqualBit;
    ZerosInWords();
    t := PrecompZero;
    t := CmovPrecomp(t, row[0], EqualBit(m, 1));
    t := CmovPrecomp(t, row[1], EqualBit(m, 2));
    t := CmovPrecomp(t, row[2], EqualBit(m, 3));
    t := CmovPrecomp(t, row[3], EqualBit(m, 4));
    t := CmovPrecomp(t, row[4], EqualBit(m, 5));
    t := CmovPrecomp(t, row[5], EqualBit(m, 6));
    t := CmovPrecomp(t, row[6], EqualBit(m, 7));
    t := CmovPrecomp(t, row[7], EqualBit(m, 8));
  }

  lemma PickedRowIs(d: int, row: seq<Precomp>, m: int, n: int, a: Point)
    requires IsBaseRow(d, row, n, a) && 0 <= m <= 8
    ensures IsPrecomp(d, PickPrecomp(row, m), Mul(d, m * n, a))
  {
    hide IsPrecomp;
    if m == 0 {
      assert m * n == 0;
      MulZero(d, a);
      ZeroEntries(d, CachedZero, PrecompZero);
    } else {
      assert IsPrecomp(d, row[m - 1], Mul(d, (m - 1 + 1) * n, a));
    }
  }

  method SelectPrecomp(row: seq<Precomp>, b: int8, ghost d: int, ghost n: int, ghost a: Point) returns (t: Precomp)
    requires IsBaseRow(d, row, n, a) && -8 <= b <= 8
    requires EdwardsCurve(d) && OnCurve(d, a)
    ensures IsPrecomp(d, t, Mul(d, b * n, a))
  {
    RowInWords(d, row, n, a);
    hide IsPrecomp, PickPrecomp, PrecompInWords, Magnitude;
    var babs := Magnitude(b);
    t := ScanPrecomp(row, babs);
    PickedRowIs(d, row, babs, n, a);
    ghost var k := MagnitudeTimes(b, babs, n);
    PrecompFits(d, t, Mul(d, k, a));
    var minust := Precomp(t.yminusx, t.yplusx, FeNegation(t.xy2d));
    NegatedPrecompIs(d, t, Mul(d, k, a));
    MulNeg(d, k, a);
    NegativeBitIs(b);
    PrecompFits(d, minust, Mul(d, -k, a));
    t := CmovPrecomp(t, minust, NegativeBit(b));
  }

  lemma MagnitudeTimes(b: int, m: int, n: int) returns (k: int)
    requires m == if b < 0 then -b else b
    ensures k == m * n && b * n == if b < 0 then -k else k
  {
    k := m * n;
  }

  // ---------- The table of small multiples ----------

  lemma MulDouble(d: int, k: int, a: Point)
    requires EdwardsCurve(d) && OnCurve(d, a)
    ensures Add(d, Mul(d, k, a), Mul(d, k, a)) == Mul(d, 2 * k, a)
    ensures OnCurve(d, Mul(d, k, a))
  {

    MulAdd(d, k, k, a);
    MulOnCurve(d, k, a);
  }

  lemma MulNext(d: int, k: int, a: Point)
    requires EdwardsCurve(d) && OnCurve(d, a)
    ensures Add(d, a, Mul(d, k, a)) == Mul(d, k + 1, a)
    ensures OnCurve(d, Mul(d, k, a))
  {

    MulOne(d, a);
    MulAdd(d, 1, k, a);
    MulOnCurve(d, k, a);
  }

  ghost predicate IsEntry(d: int, c: Cached, k: int, a: Point) {
    IsCached(d, c, Mul(d, k, a))
  }

  ghost predicate IsMultiple(p: P3, d: int, k: int, a: Point)
    reads p
  {
    p.Is(Mul(d, k, a))
  }

  /** n a = 2 (k a) and its table entry. */
  method DoubledEntry(p: P3, ghost k: int, ghost n: int, ghost d: int, ghost a: Point) returns (q: P3, c: Cached)
    requires EdwardsCurve(d) && OnCurve(d, a) && n == 2 * k && IsMultiple(p, d, k, a)
    ensures fresh(q) && IsMultiple(q, d, n, a) && IsEntry(d, c, n, a)
  {
    hide IsCached, Extended, Completed;
    MulDouble(d, k, a);
    var t := new P1P1();
    GeP3Dbl(t, p, d, Mul(d, k, a));
    q := new P3();
    GeP1P1ToP3(q, t, d, Mul(d, n, a));
    c := GeP3ToCached(q, d, Mul(d, n, a));
  }

  /** n a = a + k a and its table entry. */
  method AddedEntry(p: P3, e: Cached, ghost k: int, ghost n: int, ghost d: int, ghost a: Point)
    returns (q: P3, c: Cached)
    requires EdwardsCurve(d) && OnCurve(d, a) && n == k + 1 && p.Is(a) && IsEntry(d, e, k, a)
    ensures fresh(q) && IsMultiple(q, d, n, a) && IsEntry(d, c, n, a)
  {
    hide IsCached, Extended, Completed;
    MulNext(d, k, a);
    var t := new P1P1();
    GeAdd(t, p, e, d, a, Mul(d, k, a));
    q := new P3();
    GeP1P1ToP3(q, t, d, Mul(d, n, a));
    c := GeP3ToCached(q, d, Mul(d, n, a));
  }

  lemma EntriesMakeTable(d: int, a: Point, pi: seq<Cached>)
    requires |pi| == 8
    requires IsEntry(d, pi[0], 1, a) && IsEntry(d, pi[1], 2, a) && IsEntry(d, pi[2], 3, a) && IsEntry(d, pi[3], 4, a)
    requires IsEntry(d, pi[4], 5, a) && IsEntry(d, pi[5], 6, a) && IsEntry(d, pi[6], 7, a) && IsEntry(d, pi[7], 8, a)
    ensures IsTable(d, pi, a)
  {
    hide IsCached;
    forall j | 0 <= j < 8
      ensures IsCached(d, pi[j], Mul(d, j + 1, a))
    {
      assert IsEntry(d, pi[j], j + 1, a);
    }
  }

  method FirstMultiples(p: P3, pi: array<Cached>, ghost d: int, ghost a: Point) returns (p3: P3, p4: P3)
    requires EdwardsCurve(d) && OnCurve(d, a) && p.Is(a) && pi.Length == 8
    modifies pi
    ensures fresh(p3) && fresh(p4) && IsMultiple(p3, d, 3, a) && IsMultiple(p4, d, 4, a)
    ensures IsEntry(d, pi[0], 1, a) && IsEntry(d, pi[1], 2, a) && IsEntry(d, pi[2], 3, a) && IsEntry(d, pi[3], 4, a)
  {
    MulOne(d, a);
    hide Extended;
    var c := GeP3ToCached(p, d, a);
    assert IsEntry(d, c, 1, a) && IsMultiple(p, d, 1, a);
    hide IsEntry, IsMultiple;
    pi[0] := c;
    var p2;
    p2, c := DoubledEntry(p, 1, 2, d, a);
    pi[1] := c;
    p3, c := AddedEntry(p, pi[1], 2, 3, d, a);
    pi[2] := c;
    p4, c := DoubledEntry(p2, 2, 4, d, a);
    pi[3] := c;
  }

  method LastMultiples(p: P3, p3: P3, p4: P3, pi: array<Cached>, ghost d: int, ghost a: Point)
    requires EdwardsCurve(d) && OnCurve(d, a) && p.Is(a) && pi.Length == 8
    requires IsMultiple(p3, d, 3, a) && IsMultiple(p4, d, 4, a) && IsEntry(d, pi[3], 4, a)
    modifies pi
    ensures forall k :: 0 <= k < 4 ==> pi[k] == old(pi[k])
    ensures IsEntry(d, pi[4], 5, a) && IsEntry(d, pi[5], 6, a) && IsEntry(d, pi[6], 7, a) && IsEntry(d, pi[7], 8, a)
  {
    hide Extended, IsEntry, IsMultiple;
    var q, c := AddedEntry(p, pi[3], 4, 5, d, a);
    pi[4] := c;
    q, c := DoubledEntry(p3, 3, 6, d, a);
    pi[5] := c;
    q, c := AddedEntry(p, pi[5], 6, 7, d, a);
    pi[6] := c;
    q, c := DoubledEntry(p4, 4, 8, d, a);
    pi[7] := c;
  }

  /** The entries a, 2a, ..., 8a. */
  method SmallMultiples(p: P3, ghost d: int, ghost a: Point) returns (pi: array<Cached>)
    requires EdwardsCurve(d) && OnCurve(d, a) && p.Is(a)
    ensures fresh(pi) && IsTable(d, pi[..], a)
  {
    hide Extended, IsEntry, IsMultiple, IsTable;
    pi := new Cached[8];
    var p3, p4 := FirstMultiples(p, pi, d, a);
    LastMultiples(p, p3, p4, pi, d, a);
    EntriesMakeTable(d, a, pi[..]);
  }

  // ---------- Fixed window on a runtime point ----------

  lemma MulSum(d: int, m: int, n: int, a: Point)
    requires EdwardsCurve(d) && OnCurve(d, a)
    ensures Add(d, Mul(d, m, a), Mul(d, n, a)) == Mul(d, m + n, a)
    ensures OnCurve(d, Mul(d, m, a)) && OnCurve(d, Mul(d, n, a)) && OnCurve(d, Mul(d, m + n, a))
  {

    MulAdd(d, m, n, a);
    MulOnCurve(d, m, a);
    MulOnCurve(d, n, a);
    MulOnCurve(d, m + n, a);
  }

  /** Through ge25519_p2, twice the point in r. */
  method DoubleInPlace(r: P1P1, s: P2, ghost k: int, ghost d: int, ghost a: Point)
    requires EdwardsCurve(d) && OnCurve(d, a) && r.Is(Mul(d, k, a))
    modifies r, s
    ensures r.Is(Mul(d, 2 * k, a))
  {
    hide Completed, Projective;
    MulDouble(d, k, a);
    GeP1P1ToP2(s, r, d, Mul(d, k, a));
    GeP2Dbl(r, s, d, Mul(d, k, a));
  }

  /** Four doublings and back to extended coordinates: sixteen times the point in r. */
  method TimesSixteen(h: P3, r: P1P1, s: P2, ghost k: int, ghost d: int, ghost a: Point)
    requires EdwardsCurve(d) && OnCurve(d, a) && r.Is(Mul(d, k, a))
    modifies h, r, s
    ensures h.Is(Mul(d, 16 * k, a))
  {
    hide Completed, Projective, Extended;
    DoubleInPlace(r, s, k, d, a);
    DoubleInPlace(r, s, 2 * k, d, a);
    DoubleInPlace(r, s, 4 * k, d, a);
    DoubleInPlace(r, s, 8 * k, d, a);
    GeP1P1ToP3(h, r, d, Mul(d, 16 * k, a));
  }

  /** r = h + b a for one digit b. */
  method AddDigit(r: P1P1, h: P3, pi: seq<Cached>, b: int8, ghost k: int, ghost d: int, ghost a: Point)
    requires EdwardsCurve(d) && OnCurve(d, a) && h.Is(Mul(d, k, a)) && IsTable(d, pi, a) && -8 <= b <= 8
    modifies r
    ensures r.Is(Mul(d, k + b, a))
  {
    hide Completed, Extended, IsCached, IsTable;
    MulSum(d, k, b, a);
    var t := SelectCached(pi, b, d, a);
    GeAdd(r, h, t, d, Mul(d, k, a), Mul(d, b, a));
  }

  /** h = a * p for every scalar below 2^255; h may be p itself. */
  method GeScalarmult(h: P3, a: seq<byte>, p: P3, ghost d: int, ghost pt: Point)
    requires |a| == 32 && a[31] <= 127
    requires EdwardsCurve(d) && OnCurve(d, pt) && p.Is(pt)
    modifies h
    ensures h.Is(Mul(d, LeVal(a), pt))
  {
    hide Completed, Projective, Extended, IsTable, Weighted;
    var table := SmallMultiples(p, d, pt);
    var pi := table[..];
    var digits := SignedRadix16(a);
    var e := digits[..];
    var r := new P1P1();
    var s := new P2();
    GeP3Zero(h);
    MulZero(d, pt);
    NoneLeft(e);
    var i := 63;
    while i != 0
      invariant 0 <= i <= 63
      invariant h.Is(Mul(d, 16 * Weighted(16, e[i + 1..]), pt))
    {
      AddDigit(r, h, pi, e[i], 16 * Weighted(16, e[i + 1..]), d, pt);
      WeightedStep(16, e, i);
      TimesSixteen(h, r, s, Weighted(16, e[i..]), d, pt);
      i := i - 1;
    }
    AddDigit(r, h, pi, e[0], 16 * Weighted(16, e[1..]), d, pt);
    WeightedStep(16, e, 0);
    assert e[0..] == e;
    GeP1P1ToP3(h, r, d, Mul(d, LeVal(a), pt));
  }

  lemma NoneLeft(e: seq<int8>)
    requires |e| == 64
    ensures Weighted(16, e[64..]) == 0
  {
  }

  // ---------- Fixed window on the base table ----------

  /** The digits at odd positions below 2 n, as a base-256 number. */
  function OddDigits(e: seq<int>, n: nat): int
    requires 2 * n <= |e|
  {
    if n == 0 then 0 else OddDigits(e, n - 1) + e[2 * n - 1] * Pow256(n - 1)
  }

  function EvenDigits(e: seq<int>, n: nat): int
    requires 2 * n <= |e|
  {
    if n == 0 then 0 else EvenDigits(e, n - 1) + e[2 * n - 2] * Pow256(n - 1)
  }

  /** The odd digits, times sixteen, and the even digits make up the whole number. */
  lemma {:induction false} DigitsInterleave(e: seq<int>, n: nat)
    requires 2 * n <= |e|
    ensures Weighted(16, e[..2 * n]) == 16 * OddDigits(e, n) + EvenDigits(e, n)
  {
    if n == 0 {
      assert e[..0] == [];
    } else {
      DigitsInterleave(e, n - 1);
      var s, x, y := e[..2 * n - 2], e[2 * n - 2], e[2 * n - 1];
      assert e[..2 * n] == s + [x] + [y];
      WeightedSnoc(16, s, x);
      WeightedSnoc(16, s + [x], y);
      SixteenSquared(n - 1);
      hide Weighted, Pow;
      assert Pow(16, |s + [x]|) == 16 * Pow256(n - 1);
      var odd, even := OddDigits(e, n - 1), EvenDigits(e, n - 1);
      assert OddDigits(e, n) == odd + y * Pow256(n - 1) && EvenDigits(e, n) == even + x * Pow256(n - 1);
      hide OddDigits, EvenDigits, Pow256;
      TwoMoreDigits(Weighted(16, s), odd, even, Pow256(n - 1), x, y);
    }
  }

  lemma TwoMoreDigits(w: int, odd: int, even: int, p: int, x: int, y: int)
    requires w == 16 * odd + even
    ensures w + p * x + 16 * p * y == 16 * (odd + y * p) + (even + x * p)
  {
  }

  /** h = h + b 256^pos B for one digit b. */
  method AddBaseDigit(h: P3, r: P1P1, base: seq<seq<Precomp>>, pos: nat, b: int8,
                      ghost k: int, ghost d: int, ghost pt: Point)
    requires EdwardsCurve(d) && OnCurve(d, pt) && h.Is(Mul(d, k, pt))
    requires IsBaseTable(d, base, pt) && pos < 32 && -8 <= b <= 8
    modifies h, r
    ensures h.Is(Mul(d, k + b * Pow256(pos), pt))
  {
    ghost var n := b * Pow256(pos);
    assert IsBaseRow(d, base[pos], Pow256(pos), pt);
    hide Completed, Extended, IsPrecomp, IsBaseRow, Pow256;
    MulSum(d, k, n, pt);
    var t := SelectPrecomp(base[pos], b, d, Pow256(pos), pt);
    GeMadd(r, h, t, d, Mul(d, k, pt), Mul(d, n, pt));
    GeP1P1ToP3(h, r, d, Mul(d, k + n, pt));
  }

  /** The pass over the odd digits. */
  method AddOddDigits(h: P3, r: P1P1, base: seq<seq<Precomp>>, e: seq<int8>, ghost d: int, ghost pt: Point)
    requires |e| == 64 && forall k :: 0 <= k < 64 ==> -8 <= e[k] <= 8
    requires EdwardsCurve(d) && OnCurve(d, pt) && IsBaseTable(d, base, pt) && h.Is(Mul(d, 0, pt))
    modifies h, r
    ensures h.Is(Mul(d, OddDigits(e, 32), pt))
  {
    hide Extended, IsBaseTable;
    var i := 1;
    ghost var n := 0;
    while i < 64
      invariant 0 <= n <= 32 && i == 2 * n + 1
      invariant h.Is(Mul(d, OddDigits(e, n), pt))
    {
      AddBaseDigit(h, r, base, i / 2, e[i], OddDigits(e, n), d, pt);
      n := n + 1;
      i := i + 2;
    }
  }

  /** The pass over the even digits. */
  method AddEvenDigits(h: P3, r: P1P1, base: seq<seq<Precomp>>, e: seq<int8>,
                       ghost m: int, ghost d: int, ghost pt: Point)
    requires |e| == 64 && forall k :: 0 <= k < 64 ==> -8 <= e[k] <= 8
    requires EdwardsCurve(d) && OnCurve(d, pt) && IsBaseTable(d, base, pt) && h.Is(Mul(d, m, pt))
    modifies h, r
    ensures h.Is(Mul(d, m + EvenDigits(e, 32), pt))
  {
    hide Extended, IsBaseTable;
    var i := 0;
    ghost var n := 0;
    while i < 64
      invariant 0 <= n <= 32 && i == 2 * n
      invariant h.Is(Mul(d, m + EvenDigits(e, n), pt))
    {
      AddBaseDigit(h, r, base, i / 2, e[i], m + EvenDigits(e, n), d, pt);
      n := n + 1;
      i := i + 2;
    }
  }

  /** Sixteen times the point in h, starting from extended coordinates. */
  method SixteenTimes(h: P3, r: P1P1, s: P2, ghost k: int, ghost d: int, ghost pt: Point)
    requires EdwardsCurve(d) && OnCurve(d, pt) && h.Is(Mul(d, k, pt))
    modifies h, r, s
    ensures h.Is(Mul(d, 16 * k, pt))
  {
    hide Completed, Projective, Extended;
    MulDouble(d, k, pt);
    GeP3Dbl(r, h, d, Mul(d, k, pt));
    DoubleInPlace(r, s, 2 * k, d, pt);
    DoubleInPlace(r, s, 4 * k, d, pt);
    DoubleInPlace(r, s, 8 * k, d, pt);
    GeP1P1ToP3(h, r, d, Mul(d, 16 * k, pt));
  }

  /** h = a * B for every scalar below 2^255. */
  method GeScalarmultBase(h: P3, a: seq<byte>, base: seq<seq<Precomp>>, ghost d: int, ghost pt: Point)
    requires |a| == 32 && a[31] <= 127
    requires EdwardsCurve(d) && OnCurve(d, pt) && IsBaseTable(d, base, pt)
    modifies h
    ensures h.Is(Mul(d, LeVal(a), pt))
  {
    var digits := SignedRadix16(a);
    var e := digits[..];
    DigitsInterleave(e, 32);
    assert e[..64] == e;
    hide Completed, Projective, Extended, IsBaseTable, Weighted, OddDigits, EvenDigits;
    var r := new P1P1();
    var s := new P2();
    GeP3Zero(h);
    MulZero(d, pt);
    AddOddDigits(h, r, base, e, d, pt);
    ghost var odd := OddDigits(e, 32);
    SixteenTimes(h, r, s, odd, d, pt);
    AddEvenDigits(h, r, base, e, 16 * odd, d, pt);
  }

  // ---------- Sliding window on two points ----------

  /** Ai[k] = (2 k + 1) A. */
  ghost predicate IsOddTable(d: int, t: seq<Cached>, a: Point) {
    |t| == 8 && forall k :: 0 <= k < 8 ==> IsEntry(d, t[k], 2 * k + 1, a)
  }

  /** Bi[k] = (2 k + 1) B. */
  ghost predicate IsOddBase(d: int, t: seq<Precomp>, b: Point) {
    |t| == 8 && forall k :: 0 <= k < 8 ==> IsPrecomp(d, t[k], Mul(d, 2 * k + 1, b))
  }

  /** The next odd multiple: 2 a + k a. */
  method NextOdd(p2: P3, e: Cached, t: P1P1, u: P3, ghost k: int, ghost n: int, ghost d: int, ghost a: Point)
    returns (c: Cached)
    requires EdwardsCurve(d) && OnCurve(d, a) && n == k + 2 && p2 != u
    requires IsMultiple(p2, d, 2, a) && IsEntry(d, e, k, a)
    modifies t, u
    ensures IsEntry(d, c, n, a)
  {
    hide IsCached, Extended, Completed;
    MulSum(d, 2, k, a);
    GeAdd(t, p2, e, d, Mul(d, 2, a), Mul(d, k, a));
    GeP1P1ToP3(u, t, d, Mul(d, n, a));
    c := GeP3ToCached(u, d, Mul(d, n, a));
  }

  method OddMultiples(p: P3, ghost d: int, ghost a: Point) returns (ai: array<Cached>)
    requires EdwardsCurve(d) && OnCurve(d, a) && p.Is(a)
    ensures fresh(ai) && IsOddTable(d, ai[..], a)
  {
    MulOne(d, a);
    hide Extended, Completed;
    ai := new Cached[8];
    var c := GeP3ToCached(p, d, a);
    assert IsEntry(d, c, 1, a) && IsMultiple(p, d, 1, a);
    var p2, c2 := DoubledEntry(p, 1, 2, d, a);
    hide IsEntry, IsMultiple;
    ai[0] := c;
    var t := new P1P1();
    var u := new P3();
    for i := 0 to 7
      invariant IsMultiple(p2, d, 2, a)
      invariant forall k :: 0 <= k <= i ==> IsEntry(d, ai[k], 2 * k + 1, a)
    {
      c := NextOdd(p2, ai[i], t, u, 2 * i + 1, 2 * i + 3, d, a);
      ai[i + 1] := c;
    }
  }

  /** m a + n b. */
  function Combination(d: int, m: int, a: Point, n: int, b: Point): Point {
    Add(d, Mul(d, m, a), Mul(d, n, b))
  }

  lemma CombinationOnCurve(d: int, m: int, a: Point, n: int, b: Point)
    requires EdwardsCurve(d) && OnCurve(d, a) && OnCurve(d, b)
    ensures OnCurve(d, Mul(d, m, a)) && OnCurve(d, Mul(d, n, b)) && OnCurve(d, Combination(d, m, a, n, b))
  {

    MulOnCurve(d, m, a);
    MulOnCurve(d, n, b);
    SumOnCurve(d, Mul(d, m, a), Mul(d, n, b));
  }

  /** (x + y) + z = (x + z) + y. */
  lemma SwapLast(d: int, x: Point, y: Point, z: Point)
    requires EdwardsCurve(d) && OnCurve(d, x) && OnCurve(d, y) && OnCurve(d, z)
    ensures Add(d, Add(d, x, y), z) == Add(d, Add(d, x, z), y)
  {
    AddAssociates(d, x, y, z);
    AddCommutes(d, y, z);
    AddAssociates(d, x, z, y);
  }

  lemma CombinationFirst(d: int, m: int, a: Point, n: int, b: Point, k: int)
    requires EdwardsCurve(d) && OnCurve(d, a) && OnCurve(d, b)
    ensures Add(d, Combination(d, m, a, n, b), Mul(d, k, a)) == Combination(d, m + k, a, n, b)
  {

    MulSum(d, m, k, a);
    MulOnCurve(d, n, b);
    SwapLast(d, Mul(d, m, a), Mul(d, n, b), Mul(d, k, a));
  }

  lemma CombinationSecond(d: int, m: int, a: Point, n: int, b: Point, k: int)
    requires EdwardsCurve(d) && OnCurve(d, a) && OnCurve(d, b)
    ensures Add(d, Combination(d, m, a, n, b), Mul(d, k, b)) == Combination(d, m, a, n + k, b)
  {

    MulSum(d, n, k, b);
    MulOnCurve(d, m, a);
    AddAssociates(d, Mul(d, m, a), Mul(d, n, b), Mul(d, k, b));
  }

  lemma CombinationDoubled(d: int, m: int, a: Point, n: int, b: Point)
    requires EdwardsCurve(d) && OnCurve(d, a) && OnCurve(d, b)
    ensures var c := Combination(d, m, a, n, b); Add(d, c, c) == Combination(d, 2 * m, a, 2 * n, b)
  {

    CombinationOnCurve(d, m, a, n, b);
    CombinationFirst(d, m, a, n, b, m);
    CombinationSecond(d, m + m, a, n, b, n);
    AddAssociates(d, Combination(d, m, a, n, b), Mul(d, m, a), Mul(d, n, b));
  }

  lemma WindowIndex(x: int)
    requires IsWindowDigit(x)
    ensures x > 0 ==> x == 2 * (x / 2) + 1 && x / 2 < 8
    ensures x < 0 ==> -x == 2 * (-x / 2) + 1 && -x / 2 < 8
  {
  }

  /** t = t + x a for one digit of the first scalar. */
  method AddFirstDigit(t: P1P1, u: P3, ai: seq<Cached>, x: int8,
                       ghost d: int, ghost m: int, ghost a: Point, ghost n: int, ghost b: Point)
    requires EdwardsCurve(d) && OnCurve(d, a) && OnCurve(d, b)
    requires IsOddTable(d, ai, a) && IsWindowDigit(x) && t.Is(Combination(d, m, a, n, b))
    modifies t, u
    ensures t.Is(Combination(d, m + x, a, n, b))
  {
    ghost var c := Combination(d, m, a, n, b);
    CombinationOnCurve(d, m, a, n, b);
    CombinationFirst(d, m, a, n, b, x);
    WindowIndex(x);
    MulOnCurve(d, x, a);
    hide Combination, Completed, Extended, IsCached, IsWindowDigit;
    if x > 0 {
      GeP1P1ToP3(u, t, d, c);
      assert IsEntry(d, ai[x / 2], 2 * (x / 2) + 1, a);
      GeAdd(t, u, ai[x / 2], d, c, Mul(d, x, a));
    } else if x < 0 {
      GeP1P1ToP3(u, t, d, c);
      var k := -x / 2;
      assert IsEntry(d, ai[k], 2 * k + 1, a);
      MulNeg(d, 2 * k + 1, a);
      MulOnCurve(d, 2 * k + 1, a);
      GeSub(t, u, ai[k], d, c, Mul(d, 2 * k + 1, a));
    }
  }

  /** t = t + y b for one digit of the second scalar. */
  method AddSecondDigit(t: P1P1, u: P3, bi: seq<Precomp>, y: int8,
                        ghost d: int, ghost m: int, ghost a: Point, ghost n: int, ghost b: Point)
    requires EdwardsCurve(d) && OnCurve(d, a) && OnCurve(d, b)
    requires IsOddBase(d, bi, b) && IsWindowDigit(y) && t.Is(Combination(d, m, a, n, b))
    modifies t, u
    ensures t.Is(Combination(d, m, a, n + y, b))
  {
    ghost var c := Combination(d, m, a, n, b);
    CombinationOnCurve(d, m, a, n, b);
    CombinationSecond(d, m, a, n, b, y);
    WindowIndex(y);
    MulOnCurve(d, y, b);
    hide Combination, Completed, Extended, IsPrecomp, IsWindowDigit;
    if y > 0 {
      GeP1P1ToP3(u, t, d, c);
      assert IsPrecomp(d, bi[y / 2], Mul(d, 2 * (y / 2) + 1, b));
      GeMadd(t, u, bi[y / 2], d, c, Mul(d, y, b));
    } else if y < 0 {
      GeP1P1ToP3(u, t, d, c);
      var k := -y / 2;
      assert IsPrecomp(d, bi[k], Mul(d, 2 * k + 1, b));
      MulNeg(d, 2 * k + 1, b);
      MulOnCurve(d, 2 * k + 1, b);
      GeMsub(t, u, bi[k], d, c, Mul(d, 2 * k + 1, b));
    }
  }

  /** One step of the ladder: double, then add both digits. */
  method DoubleAndAdd(r: P2, t: P1P1, u: P3, ai: seq<Cached>, bi: seq<Precomp>, x: int8, y: int8,
                      ghost d: int, ghost m: int, ghost a: Point, ghost n: int, ghost b: Point)
    requires EdwardsCurve(d) && OnCurve(d, a) && OnCurve(d, b)
    requires IsOddTable(d, ai, a) && IsOddBase(d, bi, b) && IsWindowDigit(x) && IsWindowDigit(y)
    requires r.Is(Combination(d, m, a, n, b))
    modifies r, t, u
    ensures r.Is(Combination(d, x + 2 * m, a, y + 2 * n, b))
  {
    CombinationOnCurve(d, m, a, n, b);
    CombinationDoubled(d, m, a, n, b);
    hide Combination, Completed, Projective, IsOddTable, IsOddBase, IsWindowDigit;
    GeP2Dbl(t, r, d, Combination(d, m, a, n, b));
    AddFirstDigit(t, u, ai, x, d, 2 * m, a, 2 * n, b);
    AddSecondDigit(t, u, bi, y, d, 2 * m + x, a, 2 * n, b);
    GeP1P1ToP2(r, t, d, Combination(d, x + 2 * m, a, y + 2 * n, b));
  }

  lemma {:induction false} ZeroTail(s: seq<int>, i: nat)
    requires i <= |s| && forall k :: i <= k < |s| ==> s[k] == 0
    ensures Weighted(2, s[i..]) == 0
    decreases |s| - i
  {
    if i < |s| {
      ZeroTail(s, i + 1);
      WeightedStep(2, s, i);
    }
  }

  lemma CombinationZero(d: int, a: Point, b: Point)
    requires EdwardsCurve(d)
    ensures Combination(d, 0, a, 0, b) == Zero
  {
    MulZero(d, a);
    MulZero(d, b);
    ZeroOnCurve(d);
    AddZero(d, Zero);
  }

  /** r = a * A + b * B, exactly when both scalars are below 2^255; in general up to what the
      recoding loses. */
  method GeDoubleScalarmultVartime(r: P2, a: seq<byte>, A: P3, b: seq<byte>, bi: seq<Precomp>,
                                   ghost d: int, ghost p: Point, ghost q: Point)
    returns (ghost lostA: nat, ghost lostB: nat)
    requires |a| == 32 && |b| == 32
    requires EdwardsCurve(d) && OnCurve(d, p) && OnCurve(d, q) && A.Is(p) && IsOddBase(d, bi, q)
    modifies r
    ensures r.Is(Combination(d, LeVal(a) - lostA * Pow(2, 256), p, LeVal(b) - lostB * Pow(2, 256), q))
    ensures a[31] <= 127 ==> lostA == 0
    ensures b[31] <= 127 ==> lostB == 0
  {
    var aSlide, bSlide;
    aSlide, lostA := SlideVartime(a);
    bSlide, lostB := SlideVartime(b);
    var x, y := aSlide[..], bSlide[..];
    var table := OddMultiples(A, d, p);
    var ai := table[..];
    LadderRuns(r, ai, bi, x, y, d, p, q);
    assert x[0..] == x && y[0..] == y;
  }

  /** The highest position where either digit string is nonzero, or -1. */
  method TopDigit(x: seq<int8>, y: seq<int8>) returns (i: int)
    requires |x| == |y| == 256
    ensures -1 <= i <= 255
    ensures Weighted(2, x[i + 1..]) == 0 && Weighted(2, y[i + 1..]) == 0
  {
    hide Weighted;
    i := 255;
    while i >= 0
      invariant -1 <= i <= 255
      invariant forall k :: i < k < 256 ==> x[k] == 0 && y[k] == 0
    {
      if x[i] != 0 || y[i] != 0 {
        break;
      }
      i := i - 1;
    }
    ZeroTail(x, i + 1);
    ZeroTail(y, i + 1);
  }

  /** The digits from position i on, applied to the two points. */
  function Tail(d: int, x: seq<int>, p: Point, y: seq<int>, q: Point, i: nat): Point
    requires i <= |x| && i <= |y|
  {
    Combination(d, Weighted(2, x[i..]), p, Weighted(2, y[i..]), q)
  }

  lemma TailStep(d: int, x: seq<int>, p: Point, y: seq<int>, q: Point, i: nat)
    requires i < |x| && i < |y|
    ensures Tail(d, x, p, y, q, i)
         == Combination(d, x[i] + 2 * Weighted(2, x[i + 1..]), p, y[i] + 2 * Weighted(2, y[i + 1..]), q)
  {
    hide Combination;
    WeightedStep(2, x, i);
    WeightedStep(2, y, i);
  }

  predicate WindowDigits(x: seq<int>) {
    |x| == 256 && forall k :: 0 <= k < 256 ==> IsWindowDigit(x[k])
  }

  method LadderRuns(r: P2, ai: seq<Cached>, bi: seq<Precomp>, x: seq<int8>, y: seq<int8>,
                    ghost d: int, ghost p: Point, ghost q: Point)
    requires WindowDigits(x) && WindowDigits(y)
    requires EdwardsCurve(d) && OnCurve(d, p) && OnCurve(d, q) && IsOddTable(d, ai, p) && IsOddBase(d, bi, q)
    modifies r
    ensures r.Is(Tail(d, x, p, y, q, 0))
  {
    hide Weighted, Projective, Extended, Completed, IsOddTable, IsOddBase, Combination, IsWindowDigit;
    var t := new P1P1();
    var u := new P3();
    GeP2Zero(r);
    var i := TopDigit(x, y);
    CombinationZero(d, p, q);
    assert r.Is(Tail(d, x, p, y, q, i + 1));
    hide Tail;
    while i >= 0
      invariant -1 <= i <= 255
      invariant r.Is(Tail(d, x, p, y, q, i + 1))
    {
      LadderPass(r, t, u, ai, bi, x, y, i, d, p, q);
      i := i - 1;
    }
  }

  method LadderPass(r: P2, t: P1P1, u: P3, ai: seq<Cached>, bi: seq<Precomp>, x: seq<int8>, y: seq<int8>, i: nat,
                    ghost d: int, ghost p: Point, ghost q: Point)
    requires WindowDigits(x) && WindowDigits(y) && i < 256
    requires EdwardsCurve(d) && OnCurve(d, p) && OnCurve(d, q) && IsOddTable(d, ai, p) && IsOddBase(d, bi, q)
    requires r.Is(Tail(d, x, p, y, q, i + 1))
    modifies r, t, u
    ensures r.Is(Tail(d, x, p, y, q, i))
  {
    hide Weighted, Projective, Extended, Completed, IsOddTable, IsOddBase, Combination, IsWindowDigit;
    TailStep(d, x, p, y, q, i);
    DoubleAndAdd(r, t, u, ai, bi, x[i], y[i], d, Weighted(2, x[i + 1..]), p, Weighted(2, y[i + 1..]), q);
  }
}
