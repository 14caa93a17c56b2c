/** Field elements modulo p as ten signed limbs in radix 2^25.5: multiplication, squaring,
    addition and selection (ed25519_ref10_fe_25_5.h).

    Machine integers are subset types, so every named intermediate value below carries the
    obligation that it does not overflow.  Even limbs have 26 bits and odd limbs 25; a
    bound on a limb vector is therefore a pair (bound on even limbs, bound on odd limbs). */
module FieldLimbs {
  import opened Bits
  import opened Residues

  type int32 = x: int | -0x8000_0000 <= x < 0x8000_0000
  type int64 = x: int | -0x8000_0000_0000_0000 <= x < 0x8000_0000_0000_0000

  datatype Fe = Fe(l0: int, l1: int, l2: int, l3: int, l4: int, l5: int, l6: int, l7: int, l8: int, l9: int)

  /** Ten column sums, not yet carried. */
  datatype Wide = Wide(h0: int, h1: int, h2: int, h3: int, h4: int, h5: int, h6: int, h7: int, h8: int, h9: int)

  const FeZero := Fe(0, 0, 0, 0, 0, 0, 0, 0, 0, 0)
  const FeOne := Fe(1, 0, 0, 0, 0, 0, 0, 0, 0, 0)

  /** 1.65 * 2^26 and 1.65 * 2^25: what multiplication accepts. */
  const MUL_EVEN := 110729625
  const MUL_ODD := 55364812

  /** 1.01 * 2^25 and 1.01 * 2^24: what multiplication delivers. */
  const TIGHT_EVEN := 33889976
  const TIGHT_ODD := 16944988

  function LimbSum(f: Fe): int {
    f.l0 + 0x400_0000 * f.l1 + 0x8_0000_0000_0000 * f.l2 + 0x2000_0000_0000_0000_0000 * f.l3 +
    0x40_0000_0000_0000_0000_0000_0000 * f.l4 + 0x1_0000_0000_0000_0000_0000_0000_0000_0000 * f.l5 +
    0x200_0000_0000_0000_0000_0000_0000_0000_0000_0000 * f.l6 +
    0x8_0000_0000_0000_0000_0000_0000_0000_0000_0000_0000_0000 * f.l7 +
    0x1000_0000_0000_0000_0000_0000_0000_0000_0000_0000_0000_0000_0000 * f.l8 +
    0x40_0000_0000_0000_0000_0000_0000_0000_0000_0000_0000_0000_0000_0000_0000 * f.l9
  }

  function ValAt(depth: nat, f: Fe): int
    decreases depth, f
  {
    if depth == 0 then LimbSum(f) else ValAt(depth - 1, f)
  }

  /** The integer a limb vector stands for, folded up like congruence; the field element is its
      residue modulo p. */
  function Val(f: Fe): int {
    ValAt(4, f)
  }

  lemma ValIs(f: Fe)
    ensures Val(f) == LimbSum(f)
  {
    hide LimbSum;
    assert ValAt(2, f) == ValAt(0, f);
    assert ValAt(4, f) == ValAt(2, f);
  }

  function WideVal(w: Wide): int {
    w.h0 + 0x400_0000 * w.h1 + 0x8_0000_0000_0000 * w.h2 + 0x2000_0000_0000_0000_0000 * w.h3 +
    0x40_0000_0000_0000_0000_0000_0000 * w.h4 + 0x1_0000_0000_0000_0000_0000_0000_0000_0000 * w.h5 +
    0x200_0000_0000_0000_0000_0000_0000_0000_0000_0000 * w.h6 +
    0x8_0000_0000_0000_0000_0000_0000_0000_0000_0000_0000_0000 * w.h7 +
    0x1000_0000_0000_0000_0000_0000_0000_0000_0000_0000_0000_0000_0000 * w.h8 +
    0x40_0000_0000_0000_0000_0000_0000_0000_0000_0000_0000_0000_0000_0000_0000 * w.h9
  }

  predicate Abs(x: int, b: int) {
    -b <= x <= b
  }

  predicate Within(f: Fe, e: int, o: int) {
    && Abs(f.l0, e) && Abs(f.l1, o) && Abs(f.l2, e) && Abs(f.l3, o) && Abs(f.l4, e)
    && Abs(f.l5, o) && Abs(f.l6, e) && Abs(f.l7, o) && Abs(f.l8, e) && Abs(f.l9, o)
  }

  /** Acceptable as an operand of a multiplication. */
  predicate MulOperand(f: Fe) {
    Within(f, MUL_EVEN, MUL_ODD)
  }

  /** As small as a product. */
  predicate Tight(f: Fe) {
    Within(f, TIGHT_EVEN, TIGHT_ODD)
  }

  /** Bounds on the even columns, the odd columns, and the top column, which collects no
      folded product and is much smaller. */
  predicate ColumnsFit(w: Wide, e: int, o: int, top: int) {
    && Abs(w.h0, e) && Abs(w.h1, o) && Abs(w.h2, e) && Abs(w.h3, o) && Abs(w.h4, e)
    && Abs(w.h5, o) && Abs(w.h6, e) && Abs(w.h7, o) && Abs(w.h8, e) && Abs(w.h9, top)
  }

  /** f is a representation of the residue of x. */
  ghost predicate Stands(f: Fe, x: int) {
    Cong(Val(f), x)
  }

  // ---------- Addition, subtraction, negation, selection ----------

  function FeSum(f: Fe, g: Fe): (h: Fe)
    ensures Val(h) == Val(f) + Val(g)
  {
    var h := Fe(f.l0 + g.l0, f.l1 + g.l1, f.l2 + g.l2, f.l3 + g.l3, f.l4 + g.l4,
                f.l5 + g.l5, f.l6 + g.l6, f.l7 + g.l7, f.l8 + g.l8, f.l9 + g.l9);
    ValIs(f);
    ValIs(g);
    ValIs(h);
    h
  }

  /** Limb by limb, without carrying: the bounds of the operands add up. */
  method FeAdd(f: Fe, g: Fe, ghost x: int, ghost y: int) returns (h: Fe)
    requires Within(f, 0x3fff_ffff, 0x3fff_ffff) && Within(g, 0x3fff_ffff, 0x3fff_ffff)
    requires Stands(f, x) && Stands(g, y)
    ensures h == FeSum(f, g) && Stands(h, x + y)
  {
    var h0: int32, h1: int32, h2: int32 := f.l0 + g.l0, f.l1 + g.l1, f.l2 + g.l2;
    var h3: int32, h4: int32, h5: int32 := f.l3 + g.l3, f.l4 + g.l4, f.l5 + g.l5;
    var h6: int32, h7: int32, h8: int32 := f.l6 + g.l6, f.l7 + g.l7, f.l8 + g.l8;
    var h9: int32 := f.l9 + g.l9;
    h := Fe(h0, h1, h2, h3, h4, h5, h6, h7, h8, h9);
    CongAdd(Val(f), x, Val(g), y);
  }

  function FeDifference(f: Fe, g: Fe): (h: Fe)
    ensures Val(h) == Val(f) - Val(g)
  {
    var h := Fe(f.l0 - g.l0, f.l1 - g.l1, f.l2 - g.l2, f.l3 - g.l3, f.l4 - g.l4,
                f.l5 - g.l5, f.l6 - g.l6, f.l7 - g.l7, f.l8 - g.l8, f.l9 - g.l9);
    ValIs(f);
    ValIs(g);
    ValIs(h);
    h
  }

  /** Limb by limb, without carrying: the bounds of the operands add up. */
  method FeSub(f: Fe, g: Fe, ghost x: int, ghost y: int) returns (h: Fe)
    requires Within(f, 0x3fff_ffff, 0x3fff_ffff) && Within(g, 0x3fff_ffff, 0x3fff_ffff)
    requires Stands(f, x) && Stands(g, y)
    ensures h == FeDifference(f, g) && Stands(h, x - y)
  {
    var h0: int32, h1: int32, h2: int32 := f.l0 - g.l0, f.l1 - g.l1, f.l2 - g.l2;
    var h3: int32, h4: int32, h5: int32 := f.l3 - g.l3, f.l4 - g.l4, f.l5 - g.l5;
    var h6: int32, h7: int32, h8: int32 := f.l6 - g.l6, f.l7 - g.l7, f.l8 - g.l8;
    var h9: int32 := f.l9 - g.l9;
    h := Fe(h0, h1, h2, h3, h4, h5, h6, h7, h8, h9);
    CongSub(Val(f), x, Val(g), y);
  }

  function FeNegation(f: Fe): (h: Fe)
    ensures Val(h) == -Val(f)
  {
    var h := Fe(-f.l0, -f.l1, -f.l2, -f.l3, -f.l4, -f.l5, -f.l6, -f.l7, -f.l8, -f.l9);
    ValIs(f);
    ValIs(h);
    h
  }

  method FeNeg(f: Fe, ghost x: int) returns (h: Fe)
    requires Within(f, 0x7fff_ffff, 0x7fff_ffff)
    requires Stands(f, x)
    ensures h == FeNegation(f) && Stands(h, -x)
  {
    var h0: int32, h1: int32, h2: int32, h3: int32, h4: int32 := -f.l0, -f.l1, -f.l2, -f.l3, -f.l4;
    var h5: int32, h6: int32, h7: int32, h8: int32, h9: int32 := -f.l5, -f.l6, -f.l7, -f.l8, -f.l9;
    h := Fe(h0, h1, h2, h3, h4, h5, h6, h7, h8, h9);
    CongRefl(0);
    CongSub(0, 0, Val(f), x);
  }

  /** The 32-bit pattern of a limb, and back. */
  function Pattern(x: int32): (p: nat)
    ensures p < TwoTo(32)
  {
    WordSize();
    if x < 0 then x + 0x1_0000_0000 else x
  }

  lemma WordSize()
    ensures TwoTo(32) == 0x1_0000_0000
  {
    assert TwoTo(8) == 0x100;
    assert TwoTo(16) == 0x1_0000;
    assert TwoTo(24) == 0x100_0000;
  }

  function Limb(p: nat): (x: int32)
    requires p < TwoTo(32)
  {
    WordSize();
    if p >= 0x8000_0000 then p - 0x1_0000_0000 else p
  }

  /** f ^ ((f ^ g) & mask). */
  function MaskedMove(f: nat, g: nat, mask: nat): (r: nat)
    ensures r < TwoTo(32)
  {
    BitsBound(f, AndBits(XorBits(f, g, 32), mask, 32), 32);
    XorBits(f, AndBits(XorBits(f, g, 32), mask, 32), 32)
  }

  /** The mask -b of fe25519_cmov: all ones or all zeros. */
  function MoveMask(b: bool): nat {
    if b then TwoTo(32) - 1 else 0
  }

  lemma MoveSelects(f: nat, g: nat, k: nat)
    requires f < TwoTo(k) && g < TwoTo(k)
    ensures XorBits(f, AndBits(XorBits(f, g, k), TwoTo(k) - 1, k), k) == g
    ensures XorBits(f, AndBits(XorBits(f, g, k), 0, k), k) == f
  {
    hide AndBits, XorBits, TwoTo;
    BitsBound(f, g, k);
    var x := XorBits(f, g, k);
    AndLow(x, k, k);
    SmallMod(x, TwoTo(k));
    XorTwice(f, g, k);
    AndWithZero(x, k);
    XorWithZero(f, k);
  }

  lemma MaskedMoveSelects(f: nat, g: nat, b: bool)
    requires f < TwoTo(32) && g < TwoTo(32)
    ensures MaskedMove(f, g, MoveMask(b)) == if b then g else f
  {
    MoveSelects(f, g, 32);
  }

  /** One limb of fe25519_cmov. */
  function CmovLimb(f: int32, g: int32, b: bool): (r: int32)
    ensures r == if b then g else f
  {
    MaskedMoveSelects(Pattern(f), Pattern(g), b);
    WordSize();
    Limb(MaskedMove(Pattern(f), Pattern(g), MoveMask(b)))
  }

  predicate FitsWord(x: int) {
    -0x8000_0000 <= x < 0x8000_0000
  }

  /** Ten 32-bit limbs. */
  predicate InWords(f: Fe) {
    && FitsWord(f.l0) && FitsWord(f.l1) && FitsWord(f.l2) && FitsWord(f.l3) && FitsWord(f.l4)
    && FitsWord(f.l5) && FitsWord(f.l6) && FitsWord(f.l7) && FitsWord(f.l8) && FitsWord(f.l9)
  }

  /** fe25519_cmov; the ten limbs move together. */
  method FeCmov(f: Fe, g: Fe, b: bool) returns (h: Fe)
    requires InWords(f) && InWords(g)
    ensures h == if b then g else f
  {
    h := Fe(CmovLimb(f.l0, g.l0, b), CmovLimb(f.l1, g.l1, b), CmovLimb(f.l2, g.l2, b), CmovLimb(f.l3, g.l3, b),
            CmovLimb(f.l4, g.l4, b), CmovLimb(f.l5, g.l5, b), CmovLimb(f.l6, g.l6, b), CmovLimb(f.l7, g.l7, b),
            CmovLimb(f.l8, g.l8, b), CmovLimb(f.l9, g.l9, b));
  }

  // ---------- Column sums of a product ----------

  lemma ProductBound(x: int, y: int, a: int, b: int)
    requires Abs(x, a) && Abs(y, b)
    ensures Abs(x * y, a * b)
  {
  }

  /** A 32 x 32 -> 64 bit multiplication whose operands stay within a and b. */
  function WideMul(x: int32, y: int32, ghost a: int, ghost b: int): (r: int64)
    requires Abs(x, a) && Abs(y, b) && a * b < 0xc00_0000_0000_0000
    ensures Abs(r, a * b)
  {
    ProductBound(x, y, a, b);
    x * y
  }

  /** Left-to-right 64-bit sums of terms within b; every prefix is checked to fit. */
  function Sum5(ghost b: nat, a0: int64, a1: int64, a2: int64, a3: int64, a4: int64): (r: int64)
    requires b < 0xc00_0000_0000_0000
    requires Abs(a0, b) && Abs(a1, b) && Abs(a2, b) && Abs(a3, b) && Abs(a4, b)
    ensures Abs(r, 5 * b)
  {
    var t: int64 := a0 + a1;
    var t: int64 := t + a2;
    var t: int64 := t + a3;
    t + a4
  }

  function Sum6(ghost b: nat, a0: int64, a1: int64, a2: int64, a3: int64, a4: int64, a5: int64): (r: int64)
    requires b < 0xc00_0000_0000_0000
    requires Abs(a0, b) && Abs(a1, b) && Abs(a2, b) && Abs(a3, b) && Abs(a4, b) && Abs(a5, b)
    ensures Abs(r, 6 * b)
  {
    Sum5(b, a0, a1, a2, a3, a4) + a5
  }

  function Sum10(ghost b: nat, a0: int64, a1: int64, a2: int64, a3: int64, a4: int64,
                 a5: int64, a6: int64, a7: int64, a8: int64, a9: int64): (r: int64)
    requires b < 0xc00_0000_0000_0000
    requires Abs(a0, b) && Abs(a1, b) && Abs(a2, b) && Abs(a3, b) && Abs(a4, b)
    requires Abs(a5, b) && Abs(a6, b) && Abs(a7, b) && Abs(a8, b) && Abs(a9, b)
    ensures Abs(r, 10 * b)
  {
    var t: int64 := Sum6(b, a0, a1, a2, a3, a4, a5);
    var t: int64 := t + a6;
    var t: int64 := t + a7;
    var t: int64 := t + a8;
    t + a9
  }

  // Column k collects the products f_i * g_j with i + j = k modulo 10: doubled when i and j are
  // both odd, multiplied by 19 when i + j wraps past 2^255.

  function ProductColumn0(f: Fe, g: Fe): int {
    f.l0 * g.l0 + (2 * f.l1) * (19 * g.l9) + f.l2 * (19 * g.l8) + (2 * f.l3) * (19 * g.l7) + f.l4 * (19 * g.l6) +
    (2 * f.l5) * (19 * g.l5) + f.l6 * (19 * g.l4) + (2 * f.l7) * (19 * g.l3) + f.l8 * (19 * g.l2) +
    (2 * f.l9) * (19 * g.l1)
  }

  function MulColumn0(f: Fe, g: Fe): (r: int64)
    requires MulOperand(f) && MulOperand(g)
    ensures r == ProductColumn0(f, g)
    ensures Abs(r, 0x2100_0000_0000_0000)
  {
    Sum10(0x33c_0000_0000_0000, WideMul(f.l0, g.l0, MUL_EVEN, MUL_EVEN), WideMul(2 * f.l1, 19 * g.l9, 2 * MUL_ODD, 19 * MUL_ODD),
          WideMul(f.l2, 19 * g.l8, MUL_EVEN, 19 * MUL_EVEN),
          WideMul(2 * f.l3, 19 * g.l7, 2 * MUL_ODD, 19 * MUL_ODD),
          WideMul(f.l4, 19 * g.l6, MUL_EVEN, 19 * MUL_EVEN),
          WideMul(2 * f.l5, 19 * g.l5, 2 * MUL_ODD, 19 * MUL_ODD),
          WideMul(f.l6, 19 * g.l4, MUL_EVEN, 19 * MUL_EVEN),
          WideMul(2 * f.l7, 19 * g.l3, 2 * MUL_ODD, 19 * MUL_ODD),
          WideMul(f.l8, 19 * g.l2, MUL_EVEN, 19 * MUL_EVEN), WideMul(2 * f.l9, 19 * g.l1, 2 * MUL_ODD, 19 * MUL_ODD))
  }

  function ProductColumn1(f: Fe, g: Fe): int {
    f.l0 * g.l1 + f.l1 * g.l0 + f.l2 * (19 * g.l9) + f.l3 * (19 * g.l8) + f.l4 * (19 * g.l7) + f.l5 * (19 * g.l6) +
    f.l6 * (19 * g.l5) + f.l7 * (19 * g.l4) + f.l8 * (19 * g.l3) + f.l9 * (19 * g.l2)
  }

  function MulColumn1(f: Fe, g: Fe): (r: int64)
    requires MulOperand(f) && MulOperand(g)
    ensures r == ProductColumn1(f, g)
    ensures Abs(r, 0x1030_0000_0000_0000)
  {
    Sum10(0x19e_0000_0000_0000, WideMul(f.l0, g.l1, MUL_EVEN, MUL_ODD), WideMul(f.l1, g.l0, MUL_ODD, MUL_EVEN),
          WideMul(f.l2, 19 * g.l9, MUL_EVEN, 19 * MUL_ODD), WideMul(f.l3, 19 * g.l8, MUL_ODD, 19 * MUL_EVEN),
          WideMul(f.l4, 19 * g.l7, MUL_EVEN, 19 * MUL_ODD), WideMul(f.l5, 19 * g.l6, MUL_ODD, 19 * MUL_EVEN),
          WideMul(f.l6, 19 * g.l5, MUL_EVEN, 19 * MUL_ODD), WideMul(f.l7, 19 * g.l4, MUL_ODD, 19 * MUL_EVEN),
          WideMul(f.l8, 19 * g.l3, MUL_EVEN, 19 * MUL_ODD), WideMul(f.l9, 19 * g.l2, MUL_ODD, 19 * MUL_EVEN))
  }

  function ProductColumn2(f: Fe, g: Fe): int {
    f.l0 * g.l2 + (2 * f.l1) * g.l1 + f.l2 * g.l0 + (2 * f.l3) * (19 * g.l9) + f.l4 * (19 * g.l8) +
    (2 * f.l5) * (19 * g.l7) + f.l6 * (19 * g.l6) + (2 * f.l7) * (19 * g.l5) + f.l8 * (19 * g.l4) +
    (2 * f.l9) * (19 * g.l3)
  }

  function MulColumn2(f: Fe, g: Fe): (r: int64)
    requires MulOperand(f) && MulOperand(g)
    ensures r == ProductColumn2(f, g)
    ensures Abs(r, 0x2100_0000_0000_0000)
  {
    Sum10(0x33c_0000_0000_0000, WideMul(f.l0, g.l2, MUL_EVEN, MUL_EVEN), WideMul(2 * f.l1, g.l1, 2 * MUL_ODD, MUL_ODD),
          WideMul(f.l2, g.l0, MUL_EVEN, MUL_EVEN), WideMul(2 * f.l3, 19 * g.l9, 2 * MUL_ODD, 19 * MUL_ODD),
          WideMul(f.l4, 19 * g.l8, MUL_EVEN, 19 * MUL_EVEN),
          WideMul(2 * f.l5, 19 * g.l7, 2 * MUL_ODD, 19 * MUL_ODD),
          WideMul(f.l6, 19 * g.l6, MUL_EVEN, 19 * MUL_EVEN),
          WideMul(2 * f.l7, 19 * g.l5, 2 * MUL_ODD, 19 * MUL_ODD),
          WideMul(f.l8, 19 * g.l4, MUL_EVEN, 19 * MUL_EVEN), WideMul(2 * f.l9, 19 * g.l3, 2 * MUL_ODD, 19 * MUL_ODD))
  }

  function ProductColumn3(f: Fe, g: Fe): int {
    f.l0 * g.l3 + f.l1 * g.l2 + f.l2 * g.l1 + f.l3 * g.l0 + f.l4 * (19 * g.l9) + f.l5 * (19 * g.l8) +
    f.l6 * (19 * g.l7) + f.l7 * (19 * g.l6) + f.l8 * (19 * g.l5) + f.l9 * (19 * g.l4)
  }

  function MulColumn3(f: Fe, g: Fe): (r: int64)
    requires MulOperand(f) && MulOperand(g)
    ensures r == ProductColumn3(f, g)
    ensures Abs(r, 0x1030_0000_0000_0000)
  {
    Sum10(0x19e_0000_0000_0000, WideMul(f.l0, g.l3, MUL_EVEN, MUL_ODD), WideMul(f.l1, g.l2, MUL_ODD, MUL_EVEN),
          WideMul(f.l2, g.l1, MUL_EVEN, MUL_ODD), WideMul(f.l3, g.l0, MUL_ODD, MUL_EVEN),
          WideMul(f.l4, 19 * g.l9, MUL_EVEN, 19 * MUL_ODD), WideMul(f.l5, 19 * g.l8, MUL_ODD, 19 * MUL_EVEN),
          WideMul(f.l6, 19 * g.l7, MUL_EVEN, 19 * MUL_ODD), WideMul(f.l7, 19 * g.l6, MUL_ODD, 19 * MUL_EVEN),
          WideMul(f.l8, 19 * g.l5, MUL_EVEN, 19 * MUL_ODD), WideMul(f.l9, 19 * g.l4, MUL_ODD, 19 * MUL_EVEN))
  }

  function ProductColumn4(f: Fe, g: Fe): int {
    f.l0 * g.l4 + (2 * f.l1) * g.l3 + f.l2 * g.l2 + (2 * f.l3) * g.l1 + f.l4 * g.l0 + (2 * f.l5) * (19 * g.l9) +
    f.l6 * (19 * g.l8) + (2 * f.l7) * (19 * g.l7) + f.l8 * (19 * g.l6) + (2 * f.l9) * (19 * g.l5)
  }

  function MulColumn4(f: Fe, g: Fe): (r: int64)
    requires MulOperand(f) && MulOperand(g)
    ensures r == ProductColumn4(f, g)
    ensures Abs(r, 0x2100_0000_0000_0000)
  {
    Sum10(0x33c_0000_0000_0000, WideMul(f.l0, g.l4, MUL_EVEN, MUL_EVEN), WideMul(2 * f.l1, g.l3, 2 * MUL_ODD, MUL_ODD),
          WideMul(f.l2, g.l2, MUL_EVEN, MUL_EVEN), WideMul(2 * f.l3, g.l1, 2 * MUL_ODD, MUL_ODD),
          WideMul(f.l4, g.l0, MUL_EVEN, MUL_EVEN), WideMul(2 * f.l5, 19 * g.l9, 2 * MUL_ODD, 19 * MUL_ODD),
          WideMul(f.l6, 19 * g.l8, MUL_EVEN, 19 * MUL_EVEN),
          WideMul(2 * f.l7, 19 * g.l7, 2 * MUL_ODD, 19 * MUL_ODD),
          WideMul(f.l8, 19 * g.l6, MUL_EVEN, 19 * MUL_EVEN), WideMul(2 * f.l9, 19 * g.l5, 2 * MUL_ODD, 19 * MUL_ODD))
  }

  function ProductColumn5(f: Fe, g: Fe): int {
    f.l0 * g.l5 + f.l1 * g.l4 + f.l2 * g.l3 + f.l3 * g.l2 + f.l4 * g.l1 + f.l5 * g.l0 + f.l6 * (19 * g.l9) +
    f.l7 * (19 * g.l8) + f.l8 * (19 * g.l7) + f.l9 * (19 * g.l6)
  }

  function MulColumn5(f: Fe, g: Fe): (r: int64)
    requires MulOperand(f) && MulOperand(g)
    ensures r == ProductColumn5(f, g)
    ensures Abs(r, 0x1030_0000_0000_0000)
  {
    Sum10(0x19e_0000_0000_0000, WideMul(f.l0, g.l5, MUL_EVEN, MUL_ODD), WideMul(f.l1, g.l4, MUL_ODD, MUL_EVEN),
          WideMul(f.l2, g.l3, MUL_EVEN, MUL_ODD), WideMul(f.l3, g.l2, MUL_ODD, MUL_EVEN),
          WideMul(f.l4, g.l1, MUL_EVEN, MUL_ODD), WideMul(f.l5, g.l0, MUL_ODD, MUL_EVEN),
          WideMul(f.l6, 19 * g.l9, MUL_EVEN, 19 * MUL_ODD), WideMul(f.l7, 19 * g.l8, MUL_ODD, 19 * MUL_EVEN),
          WideMul(f.l8, 19 * g.l7, MUL_EVEN, 19 * MUL_ODD), WideMul(f.l9, 19 * g.l6, MUL_ODD, 19 * MUL_EVEN))
  }

  function ProductColumn6(f: Fe, g: Fe): int {
    f.l0 * g.l6 + (2 * f.l1) * g.l5 + f.l2 * g.l4 + (2 * f.l3) * g.l3 + f.l4 * g.l2 + (2 * f.l5) * g.l1 +
    f.l6 * g.l0 + (2 * f.l7) * (19 * g.l9) + f.l8 * (19 * g.l8) + (2 * f.l9) * (19 * g.l7)
  }

  function MulColumn6(f: Fe, g: Fe): (r: int64)
    requires MulOperand(f) && MulOperand(g)
    ensures r == ProductColumn6(f, g)
    ensures Abs(r, 0x2100_0000_0000_0000)
  {
    Sum10(0x33c_0000_0000_0000, WideMul(f.l0, g.l6, MUL_EVEN, MUL_EVEN), WideMul(2 * f.l1, g.l5, 2 * MUL_ODD, MUL_ODD),
          WideMul(f.l2, g.l4, MUL_EVEN, MUL_EVEN), WideMul(2 * f.l3, g.l3, 2 * MUL_ODD, MUL_ODD),
          WideMul(f.l4, g.l2, MUL_EVEN, MUL_EVEN), WideMul(2 * f.l5, g.l1, 2 * MUL_ODD, MUL_ODD),
          WideMul(f.l6, g.l0, MUL_EVEN, MUL_EVEN), WideMul(2 * f.l7, 19 * g.l9, 2 * MUL_ODD, 19 * MUL_ODD),
          WideMul(f.l8, 19 * g.l8, MUL_EVEN, 19 * MUL_EVEN), WideMul(2 * f.l9, 19 * g.l7, 2 * MUL_ODD, 19 * MUL_ODD))
  }

  function ProductColumn7(f: Fe, g: Fe): int {
    f.l0 * g.l7 + f.l1 * g.l6 + f.l2 * g.l5 + f.l3 * g.l4 + f.l4 * g.l3 + f.l5 * g.l2 + f.l6 * g.l1 + f.l7 * g.l0 +
    f.l8 * (19 * g.l9) + f.l9 * (19 * g.l8)
  }

  function MulColumn7(f: Fe, g: Fe): (r: int64)
    requires MulOperand(f) && MulOperand(g)
    ensures r == ProductColumn7(f, g)
    ensures Abs(r, 0x1030_0000_0000_0000)
  {
    Sum10(0x19e_0000_0000_0000, WideMul(f.l0, g.l7, MUL_EVEN, MUL_ODD), WideMul(f.l1, g.l6, MUL_ODD, MUL_EVEN),
          WideMul(f.l2, g.l5, MUL_EVEN, MUL_ODD), WideMul(f.l3, g.l4, MUL_ODD, MUL_EVEN),
          WideMul(f.l4, g.l3, MUL_EVEN, MUL_ODD), WideMul(f.l5, g.l2, MUL_ODD, MUL_EVEN),
          WideMul(f.l6, g.l1, MUL_EVEN, MUL_ODD), WideMul(f.l7, g.l0, MUL_ODD, MUL_EVEN),
          WideMul(f.l8, 19 * g.l9, MUL_EVEN, 19 * MUL_ODD), WideMul(f.l9, 19 * g.l8, MUL_ODD, 19 * MUL_EVEN))
  }

  function ProductColumn8(f: Fe, g: Fe): int {
    f.l0 * g.l8 + (2 * f.l1) * g.l7 + f.l2 * g.l6 + (2 * f.l3) * g.l5 + f.l4 * g.l4 + (2 * f.l5) * g.l3 +
    f.l6 * g.l2 + (2 * f.l7) * g.l1 + f.l8 * g.l0 + (2 * f.l9) * (19 * g.l9)
  }

  function MulColumn8(f: Fe, g: Fe): (r: int64)
    requires MulOperand(f) && MulOperand(g)
    ensures r == ProductColumn8(f, g)
    ensures Abs(r, 0x2100_0000_0000_0000)
  {
    Sum10(0x33c_0000_0000_0000, WideMul(f.l0, g.l8, MUL_EVEN, MUL_EVEN), WideMul(2 * f.l1, g.l7, 2 * MUL_ODD, MUL_ODD),
          WideMul(f.l2, g.l6, MUL_EVEN, MUL_EVEN), WideMul(2 * f.l3, g.l5, 2 * MUL_ODD, MUL_ODD),
          WideMul(f.l4, g.l4, MUL_EVEN, MUL_EVEN), WideMul(2 * f.l5, g.l3, 2 * MUL_ODD, MUL_ODD),
          WideMul(f.l6, g.l2, MUL_EVEN, MUL_EVEN), WideMul(2 * f.l7, g.l1, 2 * MUL_ODD, MUL_ODD),
          WideMul(f.l8, g.l0, MUL_EVEN, MUL_EVEN), WideMul(2 * f.l9, 19 * g.l9, 2 * MUL_ODD, 19 * MUL_ODD))
  }

  function ProductColumn9(f: Fe, g: Fe): int {
    f.l0 * g.l9 + f.l1 * g.l8 + f.l2 * g.l7 + f.l3 * g.l6 + f.l4 * g.l5 + f.l5 * g.l4 + f.l6 * g.l3 + f.l7 * g.l2 +
    f.l8 * g.l1 + f.l9 * g.l0
  }

  function MulColumn9(f: Fe, g: Fe): (r: int64)
    requires MulOperand(f) && MulOperand(g)
    ensures r == ProductColumn9(f, g)
    ensures Abs(r, 0xe0_0000_0000_0000)
  {
    Sum10(0x16_0000_0000_0000, WideMul(f.l0, g.l9, MUL_EVEN, MUL_ODD), WideMul(f.l1, g.l8, MUL_ODD, MUL_EVEN),
          WideMul(f.l2, g.l7, MUL_EVEN, MUL_ODD), WideMul(f.l3, g.l6, MUL_ODD, MUL_EVEN),
          WideMul(f.l4, g.l5, MUL_EVEN, MUL_ODD), WideMul(f.l5, g.l4, MUL_ODD, MUL_EVEN),
          WideMul(f.l6, g.l3, MUL_EVEN, MUL_ODD), WideMul(f.l7, g.l2, MUL_ODD, MUL_EVEN),
          WideMul(f.l8, g.l1, MUL_EVEN, MUL_ODD), WideMul(f.l9, g.l0, MUL_ODD, MUL_EVEN))
  }

  function MulColumns(f: Fe, g: Fe): (w: Wide)
    requires MulOperand(f) && MulOperand(g)
    ensures ColumnsFit(w, 0x2100_0000_0000_0000, 0x1030_0000_0000_0000,
                       0xe0_0000_0000_0000)
  {
    Wide(MulColumn0(f, g), MulColumn1(f, g), MulColumn2(f, g), MulColumn3(f, g), MulColumn4(f, g), MulColumn5(f, g),
         MulColumn6(f, g), MulColumn7(f, g), MulColumn8(f, g), MulColumn9(f, g))
  }

  // ---------- The column sums are the product ----------

  /** The limbs as plain integers. */
  function Limbs(f: Fe): (w: Wide)
    ensures WideVal(w) == Val(f)
  {
    ValIs(f);
    Wide(f.l0, f.l1, f.l2, f.l3, f.l4, f.l5, f.l6, f.l7, f.l8, f.l9)
  }

  // Row i is x * 2^(25.5 i) * g with every limb that passes 2^255 folded back; Wrap i counts how
  // many multiples of p the folding dropped.

  function Row0(x: int, g: Wide): Wide {
    Wide(x * g.h0, x * g.h1, x * g.h2, x * g.h3, x * g.h4, x * g.h5, x * g.h6, x * g.h7, x * g.h8, x * g.h9)
  }

  lemma Row0Value(x: int, g: Wide)
    ensures WideVal(Row0(x, g)) == (x * WideVal(g))
  {
  }

  function Row1(x: int, g: Wide): Wide {
    Wide(38 * x * g.h9, x * g.h0, 2 * x * g.h1, x * g.h2, 2 * x * g.h3, x * g.h4, 2 * x * g.h5, x * g.h6,
         2 * x * g.h7, x * g.h8)
  }

  function Wrap1(x: int, g: Wide): int {
    0x2 * (x * g.h9)
  }

  lemma Row1Value(x: int, g: Wide)
    ensures WideVal(Row1(x, g)) == 0x400_0000 * (x * WideVal(g)) - P * Wrap1(x, g)
  {
  }

  function Row2(x: int, g: Wide): Wide {
    Wide(19 * x * g.h8, 19 * x * g.h9, x * g.h0, x * g.h1, x * g.h2, x * g.h3, x * g.h4, x * g.h5, x * g.h6,
         x * g.h7)
  }

  function Wrap2(x: int, g: Wide): int {
    0x1 * (x * g.h8) + 0x400_0000 * (x * g.h9)
  }

  lemma Row2Value(x: int, g: Wide)
    ensures WideVal(Row2(x, g)) == 0x8_0000_0000_0000 * (x * WideVal(g)) - P * Wrap2(x, g)
  {
  }

  function Row3(x: int, g: Wide): Wide {
    Wide(38 * x * g.h7, 19 * x * g.h8, 38 * x * g.h9, x * g.h0, 2 * x * g.h1, x * g.h2, 2 * x * g.h3, x * g.h4,
         2 * x * g.h5, x * g.h6)
  }

  function Wrap3(x: int, g: Wide): int {
    0x2 * (x * g.h7) + 0x400_0000 * (x * g.h8) + 0x10_0000_0000_0000 * (x * g.h9)
  }

  lemma Row3Value(x: int, g: Wide)
    ensures WideVal(Row3(x, g)) == 0x2000_0000_0000_0000_0000 * (x * WideVal(g)) - P * Wrap3(x, g)
  {
  }

  function Row4(x: int, g: Wide): Wide {
    Wide(19 * x * g.h6, 19 * x * g.h7, 19 * x * g.h8, 19 * x * g.h9, x * g.h0, x * g.h1, x * g.h2, x * g.h3,
         x * g.h4, x * g.h5)
  }

  function Wrap4(x: int, g: Wide): int {
    0x1 * (x * g.h6) + 0x400_0000 * (x * g.h7) + 0x8_0000_0000_0000 * (x * g.h8) +
    0x2000_0000_0000_0000_0000 * (x * g.h9)
  }

  lemma Row4Value(x: int, g: Wide)
    ensures WideVal(Row4(x, g)) == 0x40_0000_0000_0000_0000_0000_0000 * (x * WideVal(g)) - P * Wrap4(x, g)
  {
  }

  function Row5(x: int, g: Wide): Wide {
    Wide(38 * x * g.h5, 19 * x * g.h6, 38 * x * g.h7, 19 * x * g.h8, 38 * x * g.h9, x * g.h0, 2 * x * g.h1,
         x * g.h2, 2 * x * g.h3, x * g.h4)
  }

  function Wrap5(x: int, g: Wide): int {
    0x2 * (x * g.h5) + 0x400_0000 * (x * g.h6) + 0x10_0000_0000_0000 * (x * g.h7) +
    0x2000_0000_0000_0000_0000 * (x * g.h8) + 0x80_0000_0000_0000_0000_0000_0000 * (x * g.h9)
  }

  lemma Row5Value(x: int, g: Wide)
    ensures WideVal(Row5(x, g)) == 0x1_0000_0000_0000_0000_0000_0000_0000_0000 * (x * WideVal(g)) - P * Wrap5(x, g)
  {
  }

  function Row6(x: int, g: Wide): Wide {
    Wide(19 * x * g.h4, 19 * x * g.h5, 19 * x * g.h6, 19 * x * g.h7, 19 * x * g.h8, 19 * x * g.h9, x * g.h0,
         x * g.h1, x * g.h2, x * g.h3)
  }

  function Wrap6(x: int, g: Wide): int {
    0x1 * (x * g.h4) + 0x400_0000 * (x * g.h5) + 0x8_0000_0000_0000 * (x * g.h6) +
    0x2000_0000_0000_0000_0000 * (x * g.h7) + 0x40_0000_0000_0000_0000_0000_0000 * (x * g.h8) +
    0x1_0000_0000_0000_0000_0000_0000_0000_0000 * (x * g.h9)
  }

  lemma Row6Value(x: int, g: Wide)
    ensures WideVal(Row6(x, g)) == 0x200_0000_0000_0000_0000_0000_0000_0000_0000_0000 * (x * WideVal(g)) - P * Wrap6(x, g)
  {
  }

  function Row7(x: int, g: Wide): Wide {
    Wide(38 * x * g.h3, 19 * x * g.h4, 38 * x * g.h5, 19 * x * g.h6, 38 * x * g.h7, 19 * x * g.h8, 38 * x * g.h9,
         x * g.h0, 2 * x * g.h1, x * g.h2)
  }

  function Wrap7(x: int, g: Wide): int {
    0x2 * (x * g.h3) + 0x400_0000 * (x * g.h4) + 0x10_0000_0000_0000 * (x * g.h5) +
    0x2000_0000_0000_0000_0000 * (x * g.h6) + 0x80_0000_0000_0000_0000_0000_0000 * (x * g.h7) +
    0x1_0000_0000_0000_0000_0000_0000_0000_0000 * (x * g.h8) +
    0x400_0000_0000_0000_0000_0000_0000_0000_0000_0000 * (x * g.h9)
  }

  lemma Row7Value(x: int, g: Wide)
    ensures WideVal(Row7(x, g)) == 0x8_0000_0000_0000_0000_0000_0000_0000_0000_0000_0000_0000 * (x * WideVal(g)) - P * Wrap7(x, g)
  {
  }

  function Row8(x: int, g: Wide): Wide {
    Wide(19 * x * g.h2, 19 * x * g.h3, 19 * x * g.h4, 19 * x * g.h5, 19 * x * g.h6, 19 * x * g.h7, 19 * x * g.h8,
         19 * x * g.h9, x * g.h0, x * g.h1)
  }

  function Wrap8(x: int, g: Wide): int {
    0x1 * (x * g.h2) + 0x400_0000 * (x * g.h3) + 0x8_0000_0000_0000 * (x * g.h4) +
    0x2000_0000_0000_0000_0000 * (x * g.h5) + 0x40_0000_0000_0000_0000_0000_0000 * (x * g.h6) +
    0x1_0000_0000_0000_0000_0000_0000_0000_0000 * (x * g.h7) +
    0x200_0000_0000_0000_0000_0000_0000_0000_0000_0000 * (x * g.h8) +
    0x8_0000_0000_0000_0000_0000_0000_0000_0000_0000_0000_0000 * (x * g.h9)
  }

  lemma Row8Value(x: int, g: Wide)
    ensures WideVal(Row8(x, g)) == 0x1000_0000_0000_0000_0000_0000_0000_0000_0000_0000_0000_0000_0000 * (x * WideVal(g)) - P * Wrap8(x, g)
  {
  }

  function Row9(x: int, g: Wide): Wide {
    Wide(38 * x * g.h1, 19 * x * g.h2, 38 * x * g.h3, 19 * x * g.h4, 38 * x * g.h5, 19 * x * g.h6, 38 * x * g.h7,
         19 * x * g.h8, 38 * x * g.h9, x * g.h0)
  }

  function Wrap9(x: int, g: Wide): int {
    0x2 * (x * g.h1) + 0x400_0000 * (x * g.h2) + 0x10_0000_0000_0000 * (x * g.h3) +
    0x2000_0000_0000_0000_0000 * (x * g.h4) + 0x80_0000_0000_0000_0000_0000_0000 * (x * g.h5) +
    0x1_0000_0000_0000_0000_0000_0000_0000_0000 * (x * g.h6) +
    0x400_0000_0000_0000_0000_0000_0000_0000_0000_0000 * (x * g.h7) +
    0x8_0000_0000_0000_0000_0000_0000_0000_0000_0000_0000_0000 * (x * g.h8) +
    0x2000_0000_0000_0000_0000_0000_0000_0000_0000_0000_0000_0000_0000 * (x * g.h9)
  }

  lemma Row9Value(x: int, g: Wide)
    ensures WideVal(Row9(x, g)) == 0x40_0000_0000_0000_0000_0000_0000_0000_0000_0000_0000_0000_0000_0000_0000 * (x * WideVal(g)) - P * Wrap9(x, g)
  {
  }

  lemma Column0IsRowSum(f: Fe, g: Fe)
    ensures ProductColumn0(f, g) == Row0(f.l0, Limbs(g)).h0 + Row1(f.l1, Limbs(g)).h0 + Row2(f.l2, Limbs(g)).h0 + Row3(f.l3, Limbs(g)).h0 +
            Row4(f.l4, Limbs(g)).h0 + Row5(f.l5, Limbs(g)).h0 + Row6(f.l6, Limbs(g)).h0 + Row7(f.l7, Limbs(g)).h0 +
            Row8(f.l8, Limbs(g)).h0 + Row9(f.l9, Limbs(g)).h0
  {
  }

  lemma Column1IsRowSum(f: Fe, g: Fe)
    ensures ProductColumn1(f, g) == Row0(f.l0, Limbs(g)).h1 + Row1(f.l1, Limbs(g)).h1 + Row2(f.l2, Limbs(g)).h1 + Row3(f.l3, Limbs(g)).h1 +
            Row4(f.l4, Limbs(g)).h1 + Row5(f.l5, Limbs(g)).h1 + Row6(f.l6, Limbs(g)).h1 + Row7(f.l7, Limbs(g)).h1 +
            Row8(f.l8, Limbs(g)).h1 + Row9(f.l9, Limbs(g)).h1
  {
  }

  lemma Column2IsRowSum(f: Fe, g: Fe)
    ensures ProductColumn2(f, g) == Row0(f.l0, Limbs(g)).h2 + Row1(f.l1, Limbs(g)).h2 + Row2(f.l2, Limbs(g)).h2 + Row3(f.l3, Limbs(g)).h2 +
            Row4(f.l4, Limbs(g)).h2 + Row5(f.l5, Limbs(g)).h2 + Row6(f.l6, Limbs(g)).h2 + Row7(f.l7, Limbs(g)).h2 +
            Row8(f.l8, Limbs(g)).h2 + Row9(f.l9, Limbs(g)).h2
  {
  }

  lemma Column3IsRowSum(f: Fe, g: Fe)
    ensures ProductColumn3(f, g) == Row0(f.l0, Limbs(g)).h3 + Row1(f.l1, Limbs(g)).h3 + Row2(f.l2, Limbs(g)).h3 + Row3(f.l3, Limbs(g)).h3 +
            Row4(f.l4, Limbs(g)).h3 + Row5(f.l5, Limbs(g)).h3 + Row6(f.l6, Limbs(g)).h3 + Row7(f.l7, Limbs(g)).h3 +
            Row8(f.l8, Limbs(g)).h3 + Row9(f.l9, Limbs(g)).h3
  {
  }

  lemma Column4IsRowSum(f: Fe, g: Fe)
    ensures ProductColumn4(f, g) == Row0(f.l0, Limbs(g)).h4 + Row1(f.l1, Limbs(g)).h4 + Row2(f.l2, Limbs(g)).h4 + Row3(f.l3, Limbs(g)).h4 +
            Row4(f.l4, Limbs(g)).h4 + Row5(f.l5, Limbs(g)).h4 + Row6(f.l6, Limbs(g)).h4 + Row7(f.l7, Limbs(g)).h4 +
            Row8(f.l8, Limbs(g)).h4 + Row9(f.l9, Limbs(g)).h4
  {
  }

  lemma Column5IsRowSum(f: Fe, g: Fe)
    ensures ProductColumn5(f, g) == Row0(f.l0, Limbs(g)).h5 + Row1(f.l1, Limbs(g)).h5 + Row2(f.l2, Limbs(g)).h5 + Row3(f.l3, Limbs(g)).h5 +
            Row4(f.l4, Limbs(g)).h5 + Row5(f.l5, Limbs(g)).h5 + Row6(f.l6, Limbs(g)).h5 + Row7(f.l7, Limbs(g)).h5 +
            Row8(f.l8, Limbs(g)).h5 + Row9(f.l9, Limbs(g)).h5
  {
  }

  lemma Column6IsRowSum(f: Fe, g: Fe)
    ensures ProductColumn6(f, g) == Row0(f.l0, Limbs(g)).h6 + Row1(f.l1, Limbs(g)).h6 + Row2(f.l2, Limbs(g)).h6 + Row3(f.l3, Limbs(g)).h6 +
            Row4(f.l4, Limbs(g)).h6 + Row5(f.l5, Limbs(g)).h6 + Row6(f.l6, Limbs(g)).h6 + Row7(f.l7, Limbs(g)).h6 +
            Row8(f.l8, Limbs(g)).h6 + Row9(f.l9, Limbs(g)).h6
  {
  }

  lemma Column7IsRowSum(f: Fe, g: Fe)
    ensures ProductColumn7(f, g) == Row0(f.l0, Limbs(g)).h7 + Row1(f.l1, Limbs(g)).h7 + Row2(f.l2, Limbs(g)).h7 + Row3(f.l3, Limbs(g)).h7 +
            Row4(f.l4, Limbs(g)).h7 + Row5(f.l5, Limbs(g)).h7 + Row6(f.l6, Limbs(g)).h7 + Row7(f.l7, Limbs(g)).h7 +
            Row8(f.l8, Limbs(g)).h7 + Row9(f.l9, Limbs(g)).h7
  {
  }

  lemma Column8IsRowSum(f: Fe, g: Fe)
    ensures ProductColumn8(f, g) == Row0(f.l0, Limbs(g)).h8 + Row1(f.l1, Limbs(g)).h8 + Row2(f.l2, Limbs(g)).h8 + Row3(f.l3, Limbs(g)).h8 +
            Row4(f.l4, Limbs(g)).h8 + Row5(f.l5, Limbs(g)).h8 + Row6(f.l6, Limbs(g)).h8 + Row7(f.l7, Limbs(g)).h8 +
            Row8(f.l8, Limbs(g)).h8 + Row9(f.l9, Limbs(g)).h8
  {
  }

  lemma Column9IsRowSum(f: Fe, g: Fe)
    ensures ProductColumn9(f, g) == Row0(f.l0, Limbs(g)).h9 + Row1(f.l1, Limbs(g)).h9 + Row2(f.l2, Limbs(g)).h9 + Row3(f.l3, Limbs(g)).h9 +
            Row4(f.l4, Limbs(g)).h9 + Row5(f.l5, Limbs(g)).h9 + Row6(f.l6, Limbs(g)).h9 + Row7(f.l7, Limbs(g)).h9 +
            Row8(f.l8, Limbs(g)).h9 + Row9(f.l9, Limbs(g)).h9
  {
  }

  /** Adding ten rows column by column adds what they stand for. */
  lemma SumOfRows(w: Wide, r0: Wide, r1: Wide, r2: Wide, r3: Wide, r4: Wide,
                  r5: Wide, r6: Wide, r7: Wide, r8: Wide, r9: Wide)
    requires w.h0 == r0.h0 + r1.h0 + r2.h0 + r3.h0 + r4.h0 + r5.h0 + r6.h0 + r7.h0 + r8.h0 + r9.h0
    requires w.h1 == r0.h1 + r1.h1 + r2.h1 + r3.h1 + r4.h1 + r5.h1 + r6.h1 + r7.h1 + r8.h1 + r9.h1
    requires w.h2 == r0.h2 + r1.h2 + r2.h2 + r3.h2 + r4.h2 + r5.h2 + r6.h2 + r7.h2 + r8.h2 + r9.h2
    requires w.h3 == r0.h3 + r1.h3 + r2.h3 + r3.h3 + r4.h3 + r5.h3 + r6.h3 + r7.h3 + r8.h3 + r9.h3
    requires w.h4 == r0.h4 + r1.h4 + r2.h4 + r3.h4 + r4.h4 + r5.h4 + r6.h4 + r7.h4 + r8.h4 + r9.h4
    requires w.h5 == r0.h5 + r1.h5 + r2.h5 + r3.h5 + r4.h5 + r5.h5 + r6.h5 + r7.h5 + r8.h5 + r9.h5
    requires w.h6 == r0.h6 + r1.h6 + r2.h6 + r3.h6 + r4.h6 + r5.h6 + r6.h6 + r7.h6 + r8.h6 + r9.h6
    requires w.h7 == r0.h7 + r1.h7 + r2.h7 + r3.h7 + r4.h7 + r5.h7 + r6.h7 + r7.h7 + r8.h7 + r9.h7
    requires w.h8 == r0.h8 + r1.h8 + r2.h8 + r3.h8 + r4.h8 + r5.h8 + r6.h8 + r7.h8 + r8.h8 + r9.h8
    requires w.h9 == r0.h9 + r1.h9 + r2.h9 + r3.h9 + r4.h9 + r5.h9 + r6.h9 + r7.h9 + r8.h9 + r9.h9
    ensures WideVal(w) == WideVal(r0) + WideVal(r1) + WideVal(r2) + WideVal(r3) + WideVal(r4) + WideVal(r5) + WideVal(r6) +
            WideVal(r7) + WideVal(r8) + WideVal(r9)
  {
    assert 0x400_0000 * w.h1 == 0x400_0000 * r0.h1 + 0x400_0000 * r1.h1 + 0x400_0000 * r2.h1 + 0x400_0000 * r3.h1 + 0x400_0000 * r4.h1 +
      0x400_0000 * r5.h1 + 0x400_0000 * r6.h1 + 0x400_0000 * r7.h1 + 0x400_0000 * r8.h1 + 0x400_0000 * r9.h1;
    assert 0x8_0000_0000_0000 * w.h2 == 0x8_0000_0000_0000 * r0.h2 + 0x8_0000_0000_0000 * r1.h2 + 0x8_0000_0000_0000 * r2.h2 +
      0x8_0000_0000_0000 * r3.h2 + 0x8_0000_0000_0000 * r4.h2 + 0x8_0000_0000_0000 * r5.h2 +
      0x8_0000_0000_0000 * r6.h2 + 0x8_0000_0000_0000 * r7.h2 + 0x8_0000_0000_0000 * r8.h2 +
      0x8_0000_0000_0000 * r9.h2;
    assert 0x2000_0000_0000_0000_0000 * w.h3 == 0x2000_0000_0000_0000_0000 * r0.h3 + 0x2000_0000_0000_0000_0000 * r1.h3 + 0x2000_0000_0000_0000_0000 * r2.h3 +
      0x2000_0000_0000_0000_0000 * r3.h3 + 0x2000_0000_0000_0000_0000 * r4.h3 + 0x2000_0000_0000_0000_0000 * r5.h3 +
      0x2000_0000_0000_0000_0000 * r6.h3 + 0x2000_0000_0000_0000_0000 * r7.h3 + 0x2000_0000_0000_0000_0000 * r8.h3 +
      0x2000_0000_0000_0000_0000 * r9.h3;
    assert 0x40_0000_0000_0000_0000_0000_0000 * w.h4 == 0x40_0000_0000_0000_0000_0000_0000 * r0.h4 + 0x40_0000_0000_0000_0000_0000_0000 * r1.h4 +
      0x40_0000_0000_0000_0000_0000_0000 * r2.h4 + 0x40_0000_0000_0000_0000_0000_0000 * r3.h4 +
      0x40_0000_0000_0000_0000_0000_0000 * r4.h4 + 0x40_0000_0000_0000_0000_0000_0000 * r5.h4 +
      0x40_0000_0000_0000_0000_0000_0000 * r6.h4 + 0x40_0000_0000_0000_0000_0000_0000 * r7.h4 +
      0x40_0000_0000_0000_0000_0000_0000 * r8.h4 + 0x40_0000_0000_0000_0000_0000_0000 * r9.h4;
    assert 0x1_0000_0000_0000_0000_0000_0000_0000_0000 * w.h5 == 0x1_0000_0000_0000_0000_0000_0000_0000_0000 * r0.h5 + 0x1_0000_0000_0000_0000_0000_0000_0000_0000 * r1.h5 +
      0x1_0000_0000_0000_0000_0000_0000_0000_0000 * r2.h5 + 0x1_0000_0000_0000_0000_0000_0000_0000_0000 * r3.h5 +
      0x1_0000_0000_0000_0000_0000_0000_0000_0000 * r4.h5 + 0x1_0000_0000_0000_0000_0000_0000_0000_0000 * r5.h5 +
      0x1_0000_0000_0000_0000_0000_0000_0000_0000 * r6.h5 + 0x1_0000_0000_0000_0000_0000_0000_0000_0000 * r7.h5 +
      0x1_0000_0000_0000_0000_0000_0000_0000_0000 * r8.h5 + 0x1_0000_0000_0000_0000_0000_0000_0000_0000 * r9.h5;
    assert 0x200_0000_0000_0000_0000_0000_0000_0000_0000_0000 * w.h6 == 0x200_0000_0000_0000_0000_0000_0000_0000_0000_0000 * r0.h6 +
      0x200_0000_0000_0000_0000_0000_0000_0000_0000_0000 * r1.h6 +
      0x200_0000_0000_0000_0000_0000_0000_0000_0000_0000 * r2.h6 +
      0x200_0000_0000_0000_0000_0000_0000_0000_0000_0000 * r3.h6 +
      0x200_0000_0000_0000_0000_0000_0000_0000_0000_0000 * r4.h6 +
      0x200_0000_0000_0000_0000_0000_0000_0000_0000_0000 * r5.h6 +
      0x200_0000_0000_0000_0000_0000_0000_0000_0000_0000 * r6.h6 +
      0x200_0000_0000_0000_0000_0000_0000_0000_0000_0000 * r7.h6 +
      0x200_0000_0000_0000_0000_0000_0000_0000_0000_0000 * r8.h6 +
      0x200_0000_0000_0000_0000_0000_0000_0000_0000_0000 * r9.h6;
    assert 0x8_0000_0000_0000_0000_0000_0000_0000_0000_0000_0000_0000 * w.h7 == 0x8_0000_0000_0000_0000_0000_0000_0000_0000_0000_0000_0000 * r0.h7 +
      0x8_0000_0000_0000_0000_0000_0000_0000_0000_0000_0000_0000 * r1.h7 +
      0x8_0000_0000_0000_0000_0000_0000_0000_0000_0000_0000_0000 * r2.h7 +
      0x8_0000_0000_0000_0000_0000_0000_0000_0000_0000_0000_0000 * r3.h7 +
      0x8_0000_0000_0000_0000_0000_0000_0000_0000_0000_0000_0000 * r4.h7 +
      0x8_0000_0000_0000_0000_0000_0000_0000_0000_0000_0000_0000 * r5.h7 +
      0x8_0000_0000_0000_0000_0000_0000_0000_0000_0000_0000_0000 * r6.h7 +
      0x8_0000_0000_0000_0000_0000_0000_0000_0000_0000_0000_0000 * r7.h7 +
      0x8_0000_0000_0000_0000_0000_0000_0000_0000_0000_0000_0000 * r8.h7 +
      0x8_0000_0000_0000_0000_0000_0000_0000_0000_0000_0000_0000 * r9.h7;
    assert 0x1000_0000_0000_0000_0000_0000_0000_0000_0000_0000_0000_0000_0000 * w.h8 == 0x1000_0000_0000_0000_0000_0000_0000_0000_0000_0000_0000_0000_0000 * r0.h8 +
      0x1000_0000_0000_0000_0000_0000_0000_0000_0000_0000_0000_0000_0000 * r1.h8 +
      0x1000_0000_0000_0000_0000_0000_0000_0000_0000_0000_0000_0000_0000 * r2.h8 +
      0x1000_0000_0000_0000_0000_0000_0000_0000_0000_0000_0000_0000_0000 * r3.h8 +
      0x1000_0000_0000_0000_0000_0000_0000_0000_0000_0000_0000_0000_0000 * r4.h8 +
      0x1000_0000_0000_0000_0000_0000_0000_0000_0000_0000_0000_0000_0000 * r5.h8 +
      0x1000_0000_0000_0000_0000_0000_0000_0000_0000_0000_0000_0000_0000 * r6.h8 +
      0x1000_0000_0000_0000_0000_0000_0000_0000_0000_0000_0000_0000_0000 * r7.h8 +
      0x1000_0000_0000_0000_0000_0000_0000_0000_0000_0000_0000_0000_0000 * r8.h8 +
      0x1000_0000_0000_0000_0000_0000_0000_0000_0000_0000_0000_0000_0000 * r9.h8;
    assert 0x40_0000_0000_0000_0000_0000_0000_0000_0000_0000_0000_0000_0000_0000_0000 * w.h9 == 0x40_0000_0000_0000_0000_0000_0000_0000_0000_0000_0000_0000_0000_0000_0000 * r0.h9 +
      0x40_0000_0000_0000_0000_0000_0000_0000_0000_0000_0000_0000_0000_0000_0000 * r1.h9 +
      0x40_0000_0000_0000_0000_0000_0000_0000_0000_0000_0000_0000_0000_0000_0000 * r2.h9 +
      0x40_0000_0000_0000_0000_0000_0000_0000_0000_0000_0000_0000_0000_0000_0000 * r3.h9 +
      0x40_0000_0000_0000_0000_0000_0000_0000_0000_0000_0000_0000_0000_0000_0000 * r4.h9 +
      0x40_0000_0000_0000_0000_0000_0000_0000_0000_0000_0000_0000_0000_0000_0000 * r5.h9 +
      0x40_0000_0000_0000_0000_0000_0000_0000_0000_0000_0000_0000_0000_0000_0000 * r6.h9 +
      0x40_0000_0000_0000_0000_0000_0000_0000_0000_0000_0000_0000_0000_0000_0000 * r7.h9 +
      0x40_0000_0000_0000_0000_0000_0000_0000_0000_0000_0000_0000_0000_0000_0000 * r8.h9 +
      0x40_0000_0000_0000_0000_0000_0000_0000_0000_0000_0000_0000_0000_0000_0000 * r9.h9;
  }

  function TotalWrap(f: Wide, g: Wide): int {
    Wrap1(f.h1, g) + Wrap2(f.h2, g) + Wrap3(f.h3, g) + Wrap4(f.h4, g) + Wrap5(f.h5, g) + Wrap6(f.h6, g) +
    Wrap7(f.h7, g) + Wrap8(f.h8, g) + Wrap9(f.h9, g)
  }

  lemma ProductByRows(f: Wide, y: int)
    ensures WideVal(f) * y == (f.h0 * y) + 0x400_0000 * (f.h1 * y) + 0x8_0000_0000_0000 * (f.h2 * y) +
            0x2000_0000_0000_0000_0000 * (f.h3 * y) + 0x40_0000_0000_0000_0000_0000_0000 * (f.h4 * y) +
            0x1_0000_0000_0000_0000_0000_0000_0000_0000 * (f.h5 * y) +
            0x200_0000_0000_0000_0000_0000_0000_0000_0000_0000 * (f.h6 * y) +
            0x8_0000_0000_0000_0000_0000_0000_0000_0000_0000_0000_0000 * (f.h7 * y) +
            0x1000_0000_0000_0000_0000_0000_0000_0000_0000_0000_0000_0000_0000 * (f.h8 * y) +
            0x40_0000_0000_0000_0000_0000_0000_0000_0000_0000_0000_0000_0000_0000_0000 * (f.h9 * y)
  {
  }

  lemma RowsValue(f: Wide, g: Wide)
    ensures WideVal(Row0(f.h0, g)) + WideVal(Row1(f.h1, g)) + WideVal(Row2(f.h2, g)) + WideVal(Row3(f.h3, g)) +
            WideVal(Row4(f.h4, g)) + WideVal(Row5(f.h5, g)) + WideVal(Row6(f.h6, g)) + WideVal(Row7(f.h7, g)) +
            WideVal(Row8(f.h8, g)) + WideVal(Row9(f.h9, g))
         == WideVal(f) * WideVal(g) - P * TotalWrap(f, g)
  {
    ProductByRows(f, WideVal(g));
    Row0Value(f.h0, g);
    Row1Value(f.h1, g);
    Row2Value(f.h2, g);
    Row3Value(f.h3, g);
    Row4Value(f.h4, g);
    Row5Value(f.h5, g);
    Row6Value(f.h6, g);
    Row7Value(f.h7, g);
    Row8Value(f.h8, g);
    Row9Value(f.h9, g);
  }

  lemma MulColumnsAreRows(f: Fe, g: Fe)
    requires MulOperand(f) && MulOperand(g)
    ensures WideVal(MulColumns(f, g)) == WideVal(Row0(f.l0, Limbs(g))) + WideVal(Row1(f.l1, Limbs(g))) + WideVal(Row2(f.l2, Limbs(g))) +
            WideVal(Row3(f.l3, Limbs(g))) + WideVal(Row4(f.l4, Limbs(g))) + WideVal(Row5(f.l5, Limbs(g))) +
            WideVal(Row6(f.l6, Limbs(g))) + WideVal(Row7(f.l7, Limbs(g))) + WideVal(Row8(f.l8, Limbs(g))) +
            WideVal(Row9(f.l9, Limbs(g)))
  {
    Column0IsRowSum(f, g);
    Column1IsRowSum(f, g);
    Column2IsRowSum(f, g);
    Column3IsRowSum(f, g);
    Column4IsRowSum(f, g);
    Column5IsRowSum(f, g);
    Column6IsRowSum(f, g);
    Column7IsRowSum(f, g);
    Column8IsRowSum(f, g);
    Column9IsRowSum(f, g);
    var x := Limbs(g);
    SumOfRows(MulColumns(f, g), Row0(f.l0, x), Row1(f.l1, x), Row2(f.l2, x), Row3(f.l3, x), Row4(f.l4, x), Row5(f.l5, x),
              Row6(f.l6, x), Row7(f.l7, x), Row8(f.l8, x), Row9(f.l9, x));
  }

  /** The uncarried columns of fe25519_mul already stand for the product. */
  lemma MulColumnsValue(f: Fe, g: Fe)
    requires MulOperand(f) && MulOperand(g)
    ensures Cong(WideVal(MulColumns(f, g)), Val(f) * Val(g))
  {
    MulColumnsAreRows(f, g);
    RowsValue(Limbs(f), Limbs(g));
    CongBy(WideVal(MulColumns(f, g)), Val(f) * Val(g), -TotalWrap(Limbs(f), Limbs(g)));
  }

  // ---------- Squaring shares the equal cross products ----------

  function SquareColumn0(f: Fe): (r: int)
    ensures r == ProductColumn0(f, f)
  {
    f.l0 * f.l0 + (2 * f.l1) * (38 * f.l9) + (2 * f.l2) * (19 * f.l8) + (2 * f.l3) * (38 * f.l7) +
    (2 * f.l4) * (19 * f.l6) + f.l5 * (38 * f.l5)
  }

  function SqColumn0(f: Fe): (r: int64)
    requires MulOperand(f)
    ensures r == SquareColumn0(f)
  {
    Sum6(0x680_0000_0000_0000, WideMul(f.l0, f.l0, MUL_EVEN, MUL_EVEN), WideMul(2 * f.l1, 38 * f.l9, 2 * MUL_ODD, 38 * MUL_ODD),
         WideMul(2 * f.l2, 19 * f.l8, 2 * MUL_EVEN, 19 * MUL_EVEN),
         WideMul(2 * f.l3, 38 * f.l7, 2 * MUL_ODD, 38 * MUL_ODD),
         WideMul(2 * f.l4, 19 * f.l6, 2 * MUL_EVEN, 19 * MUL_EVEN), WideMul(f.l5, 38 * f.l5, MUL_ODD, 38 * MUL_ODD))
  }

  function SquareColumn1(f: Fe): (r: int)
    ensures r == ProductColumn1(f, f)
  {
    (2 * f.l0) * f.l1 + f.l2 * (38 * f.l9) + (2 * f.l3) * (19 * f.l8) + f.l4 * (38 * f.l7) +
    (2 * f.l5) * (19 * f.l6)
  }

  function SqColumn1(f: Fe): (r: int64)
    requires MulOperand(f)
    ensures r == SquareColumn1(f)
  {
    Sum5(0x680_0000_0000_0000, WideMul(2 * f.l0, f.l1, 2 * MUL_EVEN, MUL_ODD), WideMul(f.l2, 38 * f.l9, MUL_EVEN, 38 * MUL_ODD),
         WideMul(2 * f.l3, 19 * f.l8, 2 * MUL_ODD, 19 * MUL_EVEN), WideMul(f.l4, 38 * f.l7, MUL_EVEN, 38 * MUL_ODD),
         WideMul(2 * f.l5, 19 * f.l6, 2 * MUL_ODD, 19 * MUL_EVEN))
  }

  function SquareColumn2(f: Fe): (r: int)
    ensures r == ProductColumn2(f, f)
  {
    (2 * f.l0) * f.l2 + (2 * f.l1) * f.l1 + (2 * f.l3) * (38 * f.l9) + (2 * f.l4) * (19 * f.l8) +
    (2 * f.l5) * (38 * f.l7) + f.l6 * (19 * f.l6)
  }

  function SqColumn2(f: Fe): (r: int64)
    requires MulOperand(f)
    ensures r == SquareColumn2(f)
  {
    Sum6(0x680_0000_0000_0000, WideMul(2 * f.l0, f.l2, 2 * MUL_EVEN, MUL_EVEN), WideMul(2 * f.l1, f.l1, 2 * MUL_ODD, MUL_ODD),
         WideMul(2 * f.l3, 38 * f.l9, 2 * MUL_ODD, 38 * MUL_ODD),
         WideMul(2 * f.l4, 19 * f.l8, 2 * MUL_EVEN, 19 * MUL_EVEN),
         WideMul(2 * f.l5, 38 * f.l7, 2 * MUL_ODD, 38 * MUL_ODD), WideMul(f.l6, 19 * f.l6, MUL_EVEN, 19 * MUL_EVEN))
  }

  function SquareColumn3(f: Fe): (r: int)
    ensures r == ProductColumn3(f, f)
  {
    (2 * f.l0) * f.l3 + (2 * f.l1) * f.l2 + f.l4 * (38 * f.l9) + (2 * f.l5) * (19 * f.l8) + f.l6 * (38 * f.l7)
  }

  function SqColumn3(f: Fe): (r: int64)
    requires MulOperand(f)
    ensures r == SquareColumn3(f)
  {
    Sum5(0x680_0000_0000_0000, WideMul(2 * f.l0, f.l3, 2 * MUL_EVEN, MUL_ODD), WideMul(2 * f.l1, f.l2, 2 * MUL_ODD, MUL_EVEN),
         WideMul(f.l4, 38 * f.l9, MUL_EVEN, 38 * MUL_ODD), WideMul(2 * f.l5, 19 * f.l8, 2 * MUL_ODD, 19 * MUL_EVEN),
         WideMul(f.l6, 38 * f.l7, MUL_EVEN, 38 * MUL_ODD))
  }

  function SquareColumn4(f: Fe): (r: int)
    ensures r == ProductColumn4(f, f)
  {
    (2 * f.l0) * f.l4 + (2 * f.l1) * (2 * f.l3) + f.l2 * f.l2 + (2 * f.l5) * (38 * f.l9) +
    (2 * f.l6) * (19 * f.l8) + f.l7 * (38 * f.l7)
  }

  function SqColumn4(f: Fe): (r: int64)
    requires MulOperand(f)
    ensures r == SquareColumn4(f)
  {
    Sum6(0x680_0000_0000_0000, WideMul(2 * f.l0, f.l4, 2 * MUL_EVEN, MUL_EVEN), WideMul(2 * f.l1, 2 * f.l3, 2 * MUL_ODD, 2 * MUL_ODD),
         WideMul(f.l2, f.l2, MUL_EVEN, MUL_EVEN), WideMul(2 * f.l5, 38 * f.l9, 2 * MUL_ODD, 38 * MUL_ODD),
         WideMul(2 * f.l6, 19 * f.l8, 2 * MUL_EVEN, 19 * MUL_EVEN), WideMul(f.l7, 38 * f.l7, MUL_ODD, 38 * MUL_ODD))
  }

  function SquareColumn5(f: Fe): (r: int)
    ensures r == ProductColumn5(f, f)
  {
    (2 * f.l0) * f.l5 + (2 * f.l1) * f.l4 + (2 * f.l2) * f.l3 + f.l6 * (38 * f.l9) + (2 * f.l7) * (19 * f.l8)
  }

  function SqColumn5(f: Fe): (r: int64)
    requires MulOperand(f)
    ensures r == SquareColumn5(f)
  {
    Sum5(0x680_0000_0000_0000, WideMul(2 * f.l0, f.l5, 2 * MUL_EVEN, MUL_ODD), WideMul(2 * f.l1, f.l4, 2 * MUL_ODD, MUL_EVEN),
         WideMul(2 * f.l2, f.l3, 2 * MUL_EVEN, MUL_ODD), WideMul(f.l6, 38 * f.l9, MUL_EVEN, 38 * MUL_ODD),
         WideMul(2 * f.l7, 19 * f.l8, 2 * MUL_ODD, 19 * MUL_EVEN))
  }

  function SquareColumn6(f: Fe): (r: int)
    ensures r == ProductColumn6(f, f)
  {
    (2 * f.l0) * f.l6 + (2 * f.l1) * (2 * f.l5) + (2 * f.l2) * f.l4 + (2 * f.l3) * f.l3 + (2 * f.l7) * (38 * f.l9) +
    f.l8 * (19 * f.l8)
  }

  function SqColumn6(f: Fe): (r: int64)
    requires MulOperand(f)
    ensures r == SquareColumn6(f)
  {
    Sum6(0x680_0000_0000_0000, WideMul(2 * f.l0, f.l6, 2 * MUL_EVEN, MUL_EVEN), WideMul(2 * f.l1, 2 * f.l5, 2 * MUL_ODD, 2 * MUL_ODD),
         WideMul(2 * f.l2, f.l4, 2 * MUL_EVEN, MUL_EVEN), WideMul(2 * f.l3, f.l3, 2 * MUL_ODD, MUL_ODD),
         WideMul(2 * f.l7, 38 * f.l9, 2 * MUL_ODD, 38 * MUL_ODD), WideMul(f.l8, 19 * f.l8, MUL_EVEN, 19 * MUL_EVEN))
  }

  function SquareColumn7(f: Fe): (r: int)
    ensures r == ProductColumn7(f, f)
  {
    (2 * f.l0) * f.l7 + (2 * f.l1) * f.l6 + (2 * f.l2) * f.l5 + (2 * f.l3) * f.l4 + f.l8 * (38 * f.l9)
  }

  function SqColumn7(f: Fe): (r: int64)
    requires MulOperand(f)
    ensures r == SquareColumn7(f)
  {
    Sum5(0x680_0000_0000_0000, WideMul(2 * f.l0, f.l7, 2 * MUL_EVEN, MUL_ODD), WideMul(2 * f.l1, f.l6, 2 * MUL_ODD, MUL_EVEN),
         WideMul(2 * f.l2, f.l5, 2 * MUL_EVEN, MUL_ODD), WideMul(2 * f.l3, f.l4, 2 * MUL_ODD, MUL_EVEN),
         WideMul(f.l8, 38 * f.l9, MUL_EVEN, 38 * MUL_ODD))
  }

  function SquareColumn8(f: Fe): (r: int)
    ensures r == ProductColumn8(f, f)
  {
    (2 * f.l0) * f.l8 + (2 * f.l1) * (2 * f.l7) + (2 * f.l2) * f.l6 + (2 * f.l3) * (2 * f.l5) + f.l4 * f.l4 +
    f.l9 * (38 * f.l9)
  }

  function SqColumn8(f: Fe): (r: int64)
    requires MulOperand(f)
    ensures r == SquareColumn8(f)
  {
    Sum6(0x680_0000_0000_0000, WideMul(2 * f.l0, f.l8, 2 * MUL_EVEN, MUL_EVEN), WideMul(2 * f.l1, 2 * f.l7, 2 * MUL_ODD, 2 * MUL_ODD),
         WideMul(2 * f.l2, f.l6, 2 * MUL_EVEN, MUL_EVEN), WideMul(2 * f.l3, 2 * f.l5, 2 * MUL_ODD, 2 * MUL_ODD),
         WideMul(f.l4, f.l4, MUL_EVEN, MUL_EVEN), WideMul(f.l9, 38 * f.l9, MUL_ODD, 38 * MUL_ODD))
  }

  function SquareColumn9(f: Fe): (r: int)
    ensures r == ProductColumn9(f, f)
  {
    (2 * f.l0) * f.l9 + (2 * f.l1) * f.l8 + (2 * f.l2) * f.l7 + (2 * f.l3) * f.l6 + (2 * f.l4) * f.l5
  }

  function SqColumn9(f: Fe): (r: int64)
    requires MulOperand(f)
    ensures r == SquareColumn9(f)
  {
    Sum5(0x680_0000_0000_0000, WideMul(2 * f.l0, f.l9, 2 * MUL_EVEN, MUL_ODD), WideMul(2 * f.l1, f.l8, 2 * MUL_ODD, MUL_EVEN),
         WideMul(2 * f.l2, f.l7, 2 * MUL_EVEN, MUL_ODD), WideMul(2 * f.l3, f.l6, 2 * MUL_ODD, MUL_EVEN),
         WideMul(2 * f.l4, f.l5, 2 * MUL_EVEN, MUL_ODD))
  }

  function SqColumns(f: Fe): (w: Wide)
    requires MulOperand(f)
    ensures w == MulColumns(f, f)
  {
    Wide(SqColumn0(f), SqColumn1(f), SqColumn2(f), SqColumn3(f), SqColumn4(f), SqColumn5(f), SqColumn6(f),
         SqColumn7(f), SqColumn8(f), SqColumn9(f))
  }

  /** h += h on every column. */
  method DoubleColumns(w: Wide) returns (d: Wide)
    requires ColumnsFit(w, 0x2100_0000_0000_0000, 0x1030_0000_0000_0000, 0xe0_0000_0000_0000)
    ensures WideVal(d) == 2 * WideVal(w)
    ensures ColumnsFit(d, 0x4200_0000_0000_0000, 0x2060_0000_0000_0000, 0x1c0_0000_0000_0000)
  {
    var h0: int64, h1: int64, h2: int64, h3: int64 := w.h0 + w.h0, w.h1 + w.h1, w.h2 + w.h2, w.h3 + w.h3;
    var h4: int64, h5: int64, h6: int64, h7: int64 := w.h4 + w.h4, w.h5 + w.h5, w.h6 + w.h6, w.h7 + w.h7;
    var h8: int64, h9: int64 := w.h8 + w.h8, w.h9 + w.h9;
    d := Wide(h0, h1, h2, h3, h4, h5, h6, h7, h8, h9);
  }

  // ---------- The carry chain ----------

  /** carry = (h + 2^25) >> 26: the nearest multiple of 2^26, as a count. */
  method Round26(h: int64, ghost b: nat) returns (carry: int64)
    requires Abs(h, b * 0x400_0000) && b * 0x400_0000 <= 0x7000_0000_0000_0000
    ensures Abs(carry, b)
    ensures Abs(h - carry * 0x400_0000, 0x200_0000)
  {
    var rounded: int64 := h + 0x200_0000;
    carry := rounded / 0x400_0000;
  }

  /** carry = (h + 2^24) >> 25: the nearest multiple of 2^25, as a count. */
  method Round25(h: int64, ghost b: nat) returns (carry: int64)
    requires Abs(h, b * 0x200_0000) && b * 0x200_0000 <= 0x7000_0000_0000_0000
    ensures Abs(carry, b)
    ensures Abs(h - carry * 0x200_0000, 0x100_0000)
  {
    var rounded: int64 := h + 0x100_0000;
    carry := rounded / 0x200_0000;
  }

  /** The carries shared by multiplication, squaring and doubled squaring.  The carry out of the
      top limb stands for a multiple of 2^255, which is 19 modulo p. */
  method CarryChain(w: Wide) returns (h: Fe)
    requires ColumnsFit(w, 0x4200_0000_0000_0000, 0x2060_0000_0000_0000, 0x1c0_0000_0000_0000)
    ensures Tight(h)
    ensures Cong(Val(h), WideVal(w))
  {
    var h0: int64, h1: int64, h2: int64, h3: int64, h4: int64 := w.h0, w.h1, w.h2, w.h3, w.h4;
    var h5: int64, h6: int64, h7: int64, h8: int64, h9: int64 := w.h5, w.h6, w.h7, w.h8, w.h9;

    var carry0 := Round26(h0, 0x10_9000_0000);
    h1 := h1 + carry0;
    h0 := h0 - carry0 * 0x400_0000;
    var carry4 := Round26(h4, 0x10_9000_0000);
    h5 := h5 + carry4;
    h4 := h4 - carry4 * 0x400_0000;

    var carry1 := Round25(h1, 0x10_4000_0000);
    h2 := h2 + carry1;
    h1 := h1 - carry1 * 0x200_0000;
    var carry5 := Round25(h5, 0x10_4000_0000);
    h6 := h6 + carry5;
    h5 := h5 - carry5 * 0x200_0000;

    var carry2 := Round26(h2, 0x10_9000_0000);
    h3 := h3 + carry2;
    h2 := h2 - carry2 * 0x400_0000;
    var carry6 := Round26(h6, 0x10_9000_0000);
    h7 := h7 + carry6;
    h6 := h6 - carry6 * 0x400_0000;

    var carry3 := Round25(h3, 0x10_4000_0000);
    h4 := h4 + carry3;
    h3 := h3 - carry3 * 0x200_0000;
    var carry7 := Round25(h7, 0x10_4000_0000);
    h8 := h8 + carry7;
    h7 := h7 - carry7 * 0x200_0000;

    carry4 := Round26(h4, 0x412);
    h5 := h5 + carry4;
    h4 := h4 - carry4 * 0x400_0000;
    var carry8 := Round26(h8, 0x10_9000_0000);
    h9 := h9 + carry8;
    h8 := h8 - carry8 * 0x400_0000;

    var carry9 := Round25(h9, 0xe100_0000);
    h0 := h0 + carry9 * 19;
    h9 := h9 - carry9 * 0x200_0000;

    carry0 := Round26(h0, 0x500);
    h1 := h1 + carry0;
    h0 := h0 - carry0 * 0x400_0000;

    h := Fe(h0, h1, h2, h3, h4, h5, h6, h7, h8, h9);
    ValIs(h);
    CongBy(Val(h), WideVal(w), -carry9);
  }

  lemma ProductStands(h: Fe, w: int, f: Fe, g: Fe, x: int, y: int)
    requires Cong(Val(h), w) && Cong(w, Val(f) * Val(g))
    requires Stands(f, x) && Stands(g, y)
    ensures Stands(h, x * y)
  {
    CongMul(Val(f), x, Val(g), y);
    CongTrans(Val(h), w, Val(f) * Val(g));
    CongTrans(Val(h), Val(f) * Val(g), x * y);
  }

  method FeMul(f: Fe, g: Fe, ghost x: int, ghost y: int) returns (h: Fe)
    requires MulOperand(f) && MulOperand(g)
    requires Stands(f, x) && Stands(g, y)
    ensures Tight(h) && Stands(h, x * y)
  {
    h := CarryChain(MulColumns(f, g));
    MulColumnsValue(f, g);
    ProductStands(h, WideVal(MulColumns(f, g)), f, g, x, y);
  }

  method FeSq(f: Fe, ghost x: int) returns (h: Fe)
    requires MulOperand(f)
    requires Stands(f, x)
    ensures Tight(h) && Stands(h, x * x)
  {
    h := CarryChain(SqColumns(f));
    MulColumnsValue(f, f);
    ProductStands(h, WideVal(MulColumns(f, f)), f, f, x, x);
  }

  method FeSq2(f: Fe, ghost x: int) returns (h: Fe)
    requires MulOperand(f)
    requires Stands(f, x)
    ensures Tight(h) && Stands(h, 2 * (x * x))
  {
    var w := SqColumns(f);
    var d := DoubleColumns(w);
    h := CarryChain(d);
    MulColumnsValue(f, f);
    SquareStands(WideVal(w), f, x);
    CongDouble(Val(h), WideVal(w), WideVal(d), x * x);
  }

  lemma SquareStands(w: int, f: Fe, x: int)
    requires Cong(w, Val(f) * Val(f)) && Stands(f, x)
    ensures Cong(w, x * x)
  {
    CongMul(Val(f), x, Val(f), x);
    CongTrans(w, Val(f) * Val(f), x * x);
  }
}
