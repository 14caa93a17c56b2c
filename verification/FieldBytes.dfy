/** Byte encodings of field elements (fe_25_5/fe.h, and the zero and sign tests of
    ed25519_ref10_fe_25_5.h). */
module FieldBytes {
  import opened Bits
  import opened Arithmetic
  import opened Residues
  import opened FieldLimbs
  import opened Bytes

  const TWO_255: int := 0x8000_0000_0000_0000_0000_0000_0000_0000_0000_0000_0000_0000_0000_0000_0000_0000

  /** 1.1 * 2^26 and 1.1 * 2^25: what the zero test is documented to accept. */
  const WIDE_EVEN := 73819750
  const WIDE_ODD := 36909875

  predicate Wideish(f: Fe) {
    Within(f, WIDE_EVEN, WIDE_ODD)
  }

  function Load3(s: seq<byte>, i: nat): (r: int64)
    requires i + 3 <= |s|
    ensures 0 <= r < 0x100_0000
  {
    var a: int, b: int, c: int := s[i], s[i + 1], s[i + 2];
    a + 0x100 * b + 0x1_0000 * c
  }

  function Load4(s: seq<byte>, i: nat): (r: int64)
    requires i + 4 <= |s|
    ensures 0 <= r < 0x1_0000_0000
  {
    var d: int := s[i + 3];
    Load3(s, i) + 0x100_0000 * d
  }

  // ---------- Decoding ----------

  /** The ten overlapping loads of fe25519_frombytes, top bit masked off. */
  function Loads(s: seq<byte>): Wide
    requires |s| == 32
  {
    Wide(Load4(s, 0), Load3(s, 4) * 0x40, Load3(s, 7) * 0x20, Load3(s, 10) * 0x8, Load3(s, 13) * 0x4, Load4(s, 16),
         Load3(s, 20) * 0x80, Load3(s, 23) * 0x20, Load3(s, 26) * 0x10,
         Load3(s, 29) % 0x80_0000 * 0x4)
  }

  lemma TopLoad(s: seq<byte>)
    requires |s| == 32
    ensures var top: int := s[31];
            Load3(s, 29) % 0x80_0000 == Load3(s, 29) - top / 128 * 0x80_0000
  {
    var a: int, b: int, c: int := s[29], s[30], s[31];
    assert Load3(s, 29) == 0x80_0000 * (c / 128) + (a + 0x100 * b + 0x1_0000 * (c % 128));
  }

  lemma LoadsTile(s: seq<byte>)
    requires |s| == 32
    ensures WideVal(Loads(s).(h9 := Load3(s, 29) * 0x4)) == Quad(s, 0) + TWO_128 * Quad(s, 16)
  {
  }

  /** The loads tile the low 255 bits of the string. */
  lemma LoadsValue(s: seq<byte>)
    requires |s| == 32
    ensures WideVal(Loads(s)) == LeVal(s) % TWO_255
  {
    LeVal32(s);
    TopLoad(s);
    LoadsTile(s);
    Floor255(LeVal(s), s[31] / 128, WideVal(Loads(s)));
  }

  method FeFromBytes(s: seq<byte>) returns (h: Fe)
    requires |s| == 32
    ensures Tight(h)
    ensures Cong(Val(h), LeVal(s) % TWO_255)
  {
    var w := Loads(s);
    var h0: int64, h1: int64, h2: int64, h3: int64, h4: int64 := w.h0, w.h1, w.h2, w.h3, w.h4;
    var h5: int64, h6: int64, h7: int64, h8: int64, h9: int64 := w.h5, w.h6, w.h7, w.h8, w.h9;

    var carry9 := Round25(h9, 0x80);
    h0 := h0 + carry9 * 19;
    h9 := h9 - carry9 * 0x200_0000;
    var carry1 := Round25(h1, 0x80);
    h2 := h2 + carry1;
    h1 := h1 - carry1 * 0x200_0000;
    var carry3 := Round25(h3, 0x80);
    h4 := h4 + carry3;
    h3 := h3 - carry3 * 0x200_0000;
    var carry5 := Round25(h5, 0x80);
    h6 := h6 + carry5;
    h5 := h5 - carry5 * 0x200_0000;
    var carry7 := Round25(h7, 0x80);
    h8 := h8 + carry7;
    h7 := h7 - carry7 * 0x200_0000;

    var carry0 := Round26(h0, 0x41);
    h1 := h1 + carry0;
    h0 := h0 - carry0 * 0x400_0000;
    var carry2 := Round26(h2, 0x41);
    h3 := h3 + carry2;
    h2 := h2 - carry2 * 0x400_0000;
    var carry4 := Round26(h4, 0x41);
    h5 := h5 + carry4;
    h4 := h4 - carry4 * 0x400_0000;
    var carry6 := Round26(h6, 0x41);
    h7 := h7 + carry6;
    h6 := h6 - carry6 * 0x400_0000;
    var carry8 := Round26(h8, 0x41);
    h9 := h9 + carry8;
    h8 := h8 - carry8 * 0x400_0000;

    h := Fe(h0, h1, h2, h3, h4, h5, h6, h7, h8, h9);
    hide Tight;
    LoadCarries(w, h, carry0, carry1, carry2, carry3, carry4, carry5, carry6, carry7, carry8, carry9);
    LoadsValue(s);
  }

  /** The carries move weight between neighbouring limbs, and the last one around by 19. */
  lemma LoadCarries(w: Wide, h: Fe, c0: int, c1: int, c2: int, c3: int, c4: int, c5: int, c6: int, c7: int, c8: int,
                    c9: int)
    requires h.l0 == w.h0 + c9 * 19 - c0 * 0x400_0000 && h.l1 == w.h1 - c1 * 0x200_0000 + c0
    requires h.l2 == w.h2 + c1 - c2 * 0x400_0000 && h.l3 == w.h3 - c3 * 0x200_0000 + c2
    requires h.l4 == w.h4 + c3 - c4 * 0x400_0000 && h.l5 == w.h5 - c5 * 0x200_0000 + c4
    requires h.l6 == w.h6 + c5 - c6 * 0x400_0000 && h.l7 == w.h7 - c7 * 0x200_0000 + c6
    requires h.l8 == w.h8 + c7 - c8 * 0x400_0000 && h.l9 == w.h9 - c9 * 0x200_0000 + c8
    ensures Cong(Val(h), WideVal(w))
  {
    ValIs(h);
    CongBy(Val(h), WideVal(w), -c9);
  }

  // ---------- Canonical reduction ----------

  /** The first quotient estimate.  The constant is unsigned, so a negative sum wraps to 32 bits
      before the shift and the estimate comes out 128 too large. */
  function FirstQuotient(h9: int32): (q: int32)
    requires Abs(h9, WIDE_ODD)
    ensures 0 <= q <= 128
    ensures h9 >= 0 ==> q <= 22
  {
    var x: int32 := 19 * h9;
    (x + 0x100_0000) % 0x1_0000_0000 / 0x200_0000
  }

  lemma Floor255(x: int, q: int, r: int)
    requires x == TWO_255 * q + r && 0 <= r < TWO_255
    ensures x / TWO_255 == q && x % TWO_255 == r
  {
  }

  /** The estimate steps of fe25519_reduce over the lower five limbs, and over the upper five. */
  method QuotientLow(f: Fe, q0: int32) returns (q: int32, ghost r: int)
    requires Wideish(f) && 0 <= q0 <= 128
    ensures -2 <= q <= 1 && 0 <= r < TWO_128
    ensures f.l0 + 0x400_0000 * f.l1 + 0x8_0000_0000_0000 * f.l2 + 0x2000_0000_0000_0000_0000 * f.l3 +
            0x40_0000_0000_0000_0000_0000_0000 * f.l4 + q0 == r + TWO_128 * q
  {
    q := q0;
    ghost var r0 := (f.l0 + q) % 0x400_0000;
    q := (f.l0 + q) / 0x400_0000;
    ghost var r1 := (f.l1 + q) % 0x200_0000;
    q := (f.l1 + q) / 0x200_0000;
    ghost var r2 := (f.l2 + q) % 0x400_0000;
    q := (f.l2 + q) / 0x400_0000;
    ghost var r3 := (f.l3 + q) % 0x200_0000;
    q := (f.l3 + q) / 0x200_0000;
    ghost var r4 := (f.l4 + q) % 0x400_0000;
    q := (f.l4 + q) / 0x400_0000;
    r := r0 + 0x400_0000 * r1 + 0x8_0000_0000_0000 * r2 + 0x2000_0000_0000_0000_0000 * r3 +
         0x40_0000_0000_0000_0000_0000_0000 * r4;
  }

  method QuotientHigh(f: Fe, q0: int32) returns (q: int32, ghost r: int)
    requires Wideish(f) && -2 <= q0 <= 1
    ensures -2 <= q <= 1 && 0 <= r < TWO_127
    ensures f.l5 + 0x200_0000 * f.l6 + 0x8_0000_0000_0000 * f.l7 + 0x1000_0000_0000_0000_0000 * f.l8 +
            0x40_0000_0000_0000_0000_0000_0000 * f.l9 + q0 == r + TWO_127 * q
  {
    q := q0;
    ghost var r5 := (f.l5 + q) % 0x200_0000;
    q := (f.l5 + q) / 0x200_0000;
    ghost var r6 := (f.l6 + q) % 0x400_0000;
    q := (f.l6 + q) / 0x400_0000;
    ghost var r7 := (f.l7 + q) % 0x200_0000;
    q := (f.l7 + q) / 0x200_0000;
    ghost var r8 := (f.l8 + q) % 0x400_0000;
    q := (f.l8 + q) / 0x400_0000;
    ghost var r9 := (f.l9 + q) % 0x200_0000;
    q := (f.l9 + q) / 0x200_0000;
    r := r5 + 0x200_0000 * r6 + 0x8_0000_0000_0000 * r7 + 0x1000_0000_0000_0000_0000 * r8 +
         0x40_0000_0000_0000_0000_0000_0000 * r9;
  }

  const TWO_127: int := 0x8000_0000_0000_0000_0000_0000_0000_0000

  /** The remaining estimate steps of fe25519_reduce.  Nested floors collapse into one. */
  method Quotient(f: Fe) returns (q: int32)
    requires Wideish(f)
    ensures q == (Val(f) + FirstQuotient(f.l9)) / TWO_255
    ensures -2 <= q <= 1
  {
    ValIs(f);
    ghost var low, high;
    q := FirstQuotient(f.l9);
    q, low := QuotientLow(f, q);
    q, high := QuotientHigh(f, q);
    Floor255(Val(f) + FirstQuotient(f.l9), q, low + TWO_128 * high);
  }

  /** The carry pass of fe25519_reduce: floors instead of rounding, and the carry out of the
      top limb is dropped. */
  method FloorCarries(f: Fe) returns (h: Fe, ghost dropped: int)
    requires Within(f, 0x5ff_0000, 0x2ff_0000)
    ensures Reduced(h)
    ensures Val(f) == TWO_255 * dropped + Val(h)
  {
    var h0: int32, h1: int32, h2: int32, h3: int32, h4: int32 := f.l0, f.l1, f.l2, f.l3, f.l4;
    var h5: int32, h6: int32, h7: int32, h8: int32, h9: int32 := f.l5, f.l6, f.l7, f.l8, f.l9;

    var carry0 := Floor26(h0);
    h1 := h1 + carry0;
    h0 := h0 - carry0 * 0x400_0000;
    var carry1 := Floor25(h1);
    h2 := h2 + carry1;
    h1 := h1 - carry1 * 0x200_0000;
    var carry2 := Floor26(h2);
    h3 := h3 + carry2;
    h2 := h2 - carry2 * 0x400_0000;
    var carry3 := Floor25(h3);
    h4 := h4 + carry3;
    h3 := h3 - carry3 * 0x200_0000;
    var carry4 := Floor26(h4);
    h5 := h5 + carry4;
    h4 := h4 - carry4 * 0x400_0000;
    var carry5 := Floor25(h5);
    h6 := h6 + carry5;
    h5 := h5 - carry5 * 0x200_0000;
    var carry6 := Floor26(h6);
    h7 := h7 + carry6;
    h6 := h6 - carry6 * 0x400_0000;
    var carry7 := Floor25(h7);
    h8 := h8 + carry7;
    h7 := h7 - carry7 * 0x200_0000;
    var carry8 := Floor26(h8);
    h9 := h9 + carry8;
    h8 := h8 - carry8 * 0x400_0000;
    var carry9 := Floor25(h9);
    h9 := h9 - carry9 * 0x200_0000;

    h := Fe(h0, h1, h2, h3, h4, h5, h6, h7, h8, h9);
    dropped := carry9;
    ValIs(f);
    ValIs(h);
  }

  method FeReduce(f: Fe) returns (h: Fe)
    requires Wideish(f)
    ensures Reduced(h)
    ensures Val(h) == Residue(f)
  {
    var q := Quotient(f);
    var h0: int32 := f.l0 + 19 * q;
    ghost var c;
    h, c := FloorCarries(f.(l0 := h0));
    LowLimbValue(f, h0);
    ReducedRange(h);
    ResidueMeans(f);
    Floor255(Val(f) + 19 * q, c, Val(h));
  }

  lemma LowLimbValue(f: Fe, l: int)
    ensures Val(f.(l0 := l)) == Val(f) + l - f.l0
  {
    ValIs(f);
    ValIs(f.(l0 := l));
  }

  lemma ReducedRange(h: Fe)
    requires Reduced(h)
    ensures 0 <= Val(h) < TWO_255
  {
    ValIs(h);
  }

  /** carry = h >> 26. */
  method Floor26(h: int32) returns (carry: int32)
    requires Abs(h, 0x600_0000)
    ensures 0 <= h - carry * 0x400_0000 < 0x400_0000
    ensures Abs(carry, 2)
  {
    carry := h / 0x400_0000;
  }

  /** carry = h >> 25. */
  method Floor25(h: int32) returns (carry: int32)
    requires Abs(h, 0x300_0000)
    ensures 0 <= h - carry * 0x200_0000 < 0x200_0000
    ensures Abs(carry, 2)
  {
    carry := h / 0x200_0000;
  }

  /** Every limb in its canonical range, so the limbs are the base-2^25.5 digits of the value. */
  predicate Reduced(f: Fe) {
    && 0 <= f.l0 < 0x400_0000 && 0 <= f.l1 < 0x200_0000 && 0 <= f.l2 < 0x400_0000
    && 0 <= f.l3 < 0x200_0000 && 0 <= f.l4 < 0x400_0000 && 0 <= f.l5 < 0x200_0000
    && 0 <= f.l6 < 0x400_0000 && 0 <= f.l7 < 0x200_0000 && 0 <= f.l8 < 0x400_0000
    && 0 <= f.l9 < 0x200_0000
  }

  function WrappedValue(f: Fe): int
    requires Wideish(f)
  {
    (Val(f) + 19 * ((Val(f) + FirstQuotient(f.l9)) / TWO_255)) % TWO_255
  }

  function ResidueAt(depth: nat, f: Fe): int
    requires Wideish(f)
    decreases depth, f
  {
    if depth == 0 then WrappedValue(f) else ResidueAt(depth - 1, f)
  }

  /** What fe25519_reduce leaves: h + 19 q modulo 2^255 for its quotient estimate q. */
  function Residue(f: Fe): int
    requires Wideish(f)
  {
    ResidueAt(4, f)
  }

  lemma ResidueMeans(f: Fe)
    requires Wideish(f)
    ensures Residue(f) == WrappedValue(f)
  {
    hide WrappedValue;
    assert ResidueAt(2, f) == ResidueAt(0, f);
    assert ResidueAt(4, f) == ResidueAt(2, f);
  }

  // ---------- When the residue is the canonical one ----------

  lemma TopLimbDominates(f: Fe)
    requires Wideish(f)
    ensures Abs(Val(f) - 0x40_0000_0000_0000_0000_0000_0000_0000_0000_0000_0000_0000_0000_0000_0000 * f.l9, 0x4c_cccc_cccc_cccc_0000_0000_0000_0000_0000_0000_0000_0000_0000_0000_0000)
  {
    ValIs(f);
  }

  /** The window of values, just below -p, for which the estimate is one too large. */
  predicate Misestimated(f: Fe) {
    -P - 128 <= Val(f) < -P
  }

  lemma QuotientIs(f: Fe)
    requires Wideish(f)
    ensures var q := (Val(f) + FirstQuotient(f.l9)) / TWO_255;
            var r := Val(f) - P * q;
            if Misestimated(f) then q == -1 && -128 <= r < 0 else 0 <= r < P
  {
    TopLimbDominates(f);
    QuotientOfValue(Val(f), f.l9);
  }

  /** The estimate by the sign of the top limb; 128 too large where the sum is below zero. */
  lemma FirstQuotientIs(h9: int32)
    requires Abs(h9, WIDE_ODD)
    ensures FirstQuotient(h9) == (19 * h9 + 0x100_0000) / 0x200_0000 + (if 19 * h9 + 0x100_0000 >= 0 then 0 else 128)
  {
  }

  /** The quotient in terms of the bounds it puts on the value. */
  lemma QuotientBounds(x: int, q: int)
    requires q == x / TWO_255
    ensures TWO_255 * q <= x < TWO_255 * q + TWO_255
  {
  }

  lemma QuotientOfValue(v: int, h9: int32)
    requires Abs(h9, WIDE_ODD) && Abs(v - 0x40_0000_0000_0000_0000_0000_0000_0000_0000_0000_0000_0000_0000_0000_0000 * h9, 0x4c_cccc_cccc_cccc_0000_0000_0000_0000_0000_0000_0000_0000_0000_0000_0000)
    ensures var q := (v + FirstQuotient(h9)) / TWO_255;
            var r := v - P * q;
            if -P - 128 <= v < -P then q == -1 && -128 <= r < 0 else 0 <= r < P
  {
    FirstQuotientIs(h9);
    var e := FirstQuotient(h9);
    var q := (v + e) / TWO_255;
    QuotientBounds(v + e, q);
    hide FirstQuotient;
    assert -2 <= q <= 1;
    if h9 < 0 && 19 * h9 + 0x100_0000 >= 0 {
      assert e == 0;
    }
  }

  /** The residue the code computes, next to the true one. */
  lemma ResidueCases(f: Fe) returns (r: int)
    requires Wideish(f)
    ensures if Misestimated(f) then -128 <= r < 0 else 0 <= r < P
    ensures Residue(f) == if Misestimated(f) then r + TWO_255 else r
    ensures Canon(Val(f)) == if Misestimated(f) then r + P else r
  {
    QuotientIs(f);
    ResidueMeans(f);
    CanonIs(Val(f));
    var q := (Val(f) + FirstQuotient(f.l9)) / TWO_255;
    r := Val(f) - P * q;
    assert Val(f) + 19 * q == TWO_255 * q + r;
    if Misestimated(f) {
      Floor255(Val(f) + 19 * q, q - 1, r + TWO_255);
      ModPIs(Val(f), q - 1, r + P);
    } else {
      Floor255(Val(f) + 19 * q, q, r);
      ModPIs(Val(f), q, r);
    }
  }

  /** On the documented input range the encoder is canonical exactly outside the window. */
  lemma ResidueIsCanonicalIff(f: Fe)
    requires Wideish(f)
    ensures Residue(f) == Canon(Val(f)) <==> !Misestimated(f)
  {
    var r := ResidueCases(f);
  }

  lemma ModPIs(x: int, q: int, r: int)
    requires x == P * q + r && 0 <= r < P
    ensures x % P == r && x / P == q
  {
  }

  /** The window is reachable: -p - 1 is encoded as 2^255 - 1, which is not even below p. */
  lemma ResidueCanFail()
    ensures var f := Fe(18, 0, 0, 0, 0, 0, 0, 0, 0, -0x200_0000);
            Wideish(f) && Residue(f) == TWO_255 - 1 && Canon(Val(f)) == P - 1
  {
    var f := Fe(18, 0, 0, 0, 0, 0, 0, 0, 0, -0x200_0000);
    QuotientIs(f);
    ResidueMeans(f);
    CanonIs(Val(f));
    Floor255(Val(f) - 19, -2, TWO_255 - 1);
    ModPIs(Val(f), -2, P - 1);
  }

  /** Whatever multiplication delivers is far from the window. */
  lemma ResidueTight(f: Fe)
    requires Tight(f)
    ensures Wideish(f) && Residue(f) == Canon(Val(f))
  {
    TopLimbDominates(f);
    ResidueIsCanonicalIff(f);
  }

  /** The zero test is right on the whole documented range, the window included. */
  lemma ResidueZeroIff(f: Fe)
    requires Wideish(f)
    ensures Residue(f) == 0 <==> Canon(Val(f)) == 0
  {
    var r := ResidueCases(f);
  }

  // ---------- Packing ----------

  /** The octet low | high * scale. */
  function PackByte(low: nat, scale: nat, high: nat): (r: byte)
    requires low < 256
  {
    Or(low, high * scale % 256)
  }

  /** What of high * scale an octet keeps. */
  lemma HighPart(scale: nat, high: nat, room: nat)
    requires scale * room == 256
    ensures high * scale % 256 == scale * (high % room) && scale * (high % room) % scale == 0
    ensures scale * (high % room) + scale <= 256
  {
    var q, r := high / room, high % room;
    assert high * scale == 256 * q + scale * r by {
      assert high == room * q + r;
      assert scale * (room * q) == 256 * q;
    }
    DigitBelow(scale, room, r, 0);
    assert scale * (r + 1) <= scale * room;
    DivUnique(high * scale, 256, q, scale * r);
    DivUnique(scale * r, scale, r, 0);
  }

  /** With low below a power of two scale, the two parts do not overlap. */
  lemma PackByteIs(low: nat, scale: nat, high: nat, room: nat)
    requires low < scale && scale * room == 256
    ensures scale <= 256 && PackByte(low, scale, high) == low + scale * (high % room)
  {
    EightBits();
    var e := PowerOfTwo(scale, room, 8);
    DivisorBound(scale, room);
    HighPart(scale, high, room);
    hide TwoTo;
    Disjoint(low, scale * (high % room), e, 8);
  }

  lemma DivisorBound(scale: nat, room: nat)
    requires scale * room == 256
    ensures scale <= 256
  {
    if room >= 1 {
      assert scale * room == scale + scale * (room - 1);
    }
  }

  // Every four octets hold the rest of one limb and the beginning of the next.

  function Octets0(a: int, b: int): (s: seq<byte>)
    requires 0 <= a < 0x400_0000 && 0 <= b < 0x200_0000
    ensures |s| == 4
  {
    [a % 256, a / 0x100 % 256, a / 0x1_0000 % 256, PackByte(a / 0x100_0000, 4, b)]
  }

  lemma Octets0Value(a: int, b: int)
    requires 0 <= a < 0x400_0000 && 0 <= b < 0x200_0000
    ensures Word(Octets0(a, b), 0) == a + 0x400_0000 * (b % 0x40)
  {
    SplitOctets(a, 256);
    PackByteIs(a / 0x100_0000, 4, b, 64);
    hide PackByte;
    JoinFirst(a, a % 256, a / 0x100 % 256, a / 0x1_0000 % 256, a / 0x100_0000, 4, b % 0x40);
  }

  lemma JoinFirst(a: int, a0: int, a1: int, a2: int, a3: int, w: int, b: int)
    requires a == a0 + 0x100 * a1 + 0x1_0000 * a2 + 0x100_0000 * a3
    ensures a0 + 0x100 * a1 + 0x1_0000 * a2 + 0x100_0000 * (a3 + w * b) == a + 0x100_0000 * (w * b)
  {
  }

  function Octets4(b: int, c: int): (s: seq<byte>)
    requires 0 <= b < 0x200_0000 && 0 <= c < 0x400_0000
    ensures |s| == 4
  {
    [b / 0x40 % 256, b / 0x4000 % 256, PackByte(b / 0x40_0000, 8, c), c / 0x20 % 256]
  }

  lemma Octets4Value(b: int, c: int)
    requires 0 <= b < 0x200_0000 && 0 <= c < 0x400_0000
    ensures Word(Octets4(b, c), 0) == b / 0x40 + 0x8_0000 * (c % 0x2000)
  {
    DivDigit(b, 0x40);
    DivDigit(b, 0x4000);
    ModDigit(c, 0x20, 256);
    PackByteIs(b / 0x40_0000, 8, c, 32);
    hide PackByte;
  }

  function Octets8(c: int, d: int): (s: seq<byte>)
    requires 0 <= c < 0x400_0000 && 0 <= d < 0x200_0000
    ensures |s| == 4
  {
    [c / 0x2000 % 256, PackByte(c / 0x20_0000, 32, d), d / 0x8 % 256, d / 0x800 % 256]
  }

  lemma Octets8Value(c: int, d: int)
    requires 0 <= c < 0x400_0000 && 0 <= d < 0x200_0000
    ensures Word(Octets8(c, d), 0) == c / 0x2000 + 0x2000 * (d % 0x8_0000)
  {
    DivDigit(c, 0x2000);
    ModDigit(d, 0x8, 256);
    ModDigit(d, 0x800, 256);
    PackByteIs(c / 0x20_0000, 32, d, 8);
    hide PackByte;
  }

  function Octets12(d: int, e: int): (s: seq<byte>)
    requires 0 <= d < 0x200_0000 && 0 <= e < 0x400_0000
    ensures |s| == 4
  {
    [PackByte(d / 0x8_0000, 64, e), e / 0x4 % 256, e / 0x400 % 256, e / 0x4_0000 % 256]
  }

  lemma Octets12Value(d: int, e: int)
    requires 0 <= d < 0x200_0000 && 0 <= e < 0x400_0000
    ensures Word(Octets12(d, e), 0) == d / 0x8_0000 + 0x40 * e
  {
    DigitsOf26(e);
    PackByteIs(d / 0x8_0000, 64, e, 4);
    hide PackByte;
    JoinLast(d / 0x8_0000, e, e % 4, e / 4 % 256, e / 0x400 % 256, e / 0x4_0000 % 256);
  }

  function Octets16(a: int, b: int): (s: seq<byte>)
    requires 0 <= a < 0x200_0000 && 0 <= b < 0x400_0000
    ensures |s| == 4
  {
    [a % 256, a / 0x100 % 256, a / 0x1_0000 % 256, PackByte(a / 0x100_0000, 2, b)]
  }

  lemma Octets16Value(a: int, b: int)
    requires 0 <= a < 0x200_0000 && 0 <= b < 0x400_0000
    ensures Word(Octets16(a, b), 0) == a + 0x200_0000 * (b % 0x80)
  {
    SplitOctets(a, 256);
    PackByteIs(a / 0x100_0000, 2, b, 128);
    hide PackByte;
    JoinFirst(a, a % 256, a / 0x100 % 256, a / 0x1_0000 % 256, a / 0x100_0000, 2, b % 0x80);
  }

  function Octets20(b: int, c: int): (s: seq<byte>)
    requires 0 <= b < 0x400_0000 && 0 <= c < 0x200_0000
    ensures |s| == 4
  {
    [b / 0x80 % 256, b / 0x8000 % 256, PackByte(b / 0x80_0000, 8, c), c / 0x20 % 256]
  }

  lemma Octets20Value(b: int, c: int)
    requires 0 <= b < 0x400_0000 && 0 <= c < 0x200_0000
    ensures Word(Octets20(b, c), 0) == b / 0x80 + 0x8_0000 * (c % 0x2000)
  {
    DivDigit(b, 0x80);
    DivDigit(b, 0x8000);
    ModDigit(c, 0x20, 256);
    PackByteIs(b / 0x80_0000, 8, c, 32);
    hide PackByte;
  }

  function Octets24(c: int, d: int): (s: seq<byte>)
    requires 0 <= c < 0x200_0000 && 0 <= d < 0x400_0000
    ensures |s| == 4
  {
    [c / 0x2000 % 256, PackByte(c / 0x20_0000, 16, d), d / 0x10 % 256, d / 0x1000 % 256]
  }

  lemma Octets24Value(c: int, d: int)
    requires 0 <= c < 0x200_0000 && 0 <= d < 0x400_0000
    ensures Word(Octets24(c, d), 0) == c / 0x2000 + 0x1000 * (d % 0x10_0000)
  {
    DivDigit(c, 0x2000);
    ModDigit(d, 0x10, 256);
    ModDigit(d, 0x1000, 256);
    PackByteIs(c / 0x20_0000, 16, d, 16);
    hide PackByte;
  }

  function Octets28(d: int, e: int): (s: seq<byte>)
    requires 0 <= d < 0x400_0000 && 0 <= e < 0x200_0000
    ensures |s| == 4
  {
    [PackByte(d / 0x10_0000, 64, e), e / 0x4 % 256, e / 0x400 % 256, e / 0x4_0000 % 256]
  }

  lemma Octets28Value(d: int, e: int)
    requires 0 <= d < 0x400_0000 && 0 <= e < 0x200_0000
    ensures Word(Octets28(d, e), 0) == d / 0x10_0000 + 0x40 * e
  {
    DigitsOf26(e);
    PackByteIs(d / 0x10_0000, 64, e, 4);
    hide PackByte;
    JoinLast(d / 0x10_0000, e, e % 4, e / 4 % 256, e / 0x400 % 256, e / 0x4_0000 % 256);
  }

  lemma DigitsOf26(e: int)
    requires 0 <= e < 0x400_0000
    ensures e == e % 4 + 4 * (e / 4 % 256) + 0x400 * (e / 0x400 % 256) + 0x4_0000 * (e / 0x4_0000 % 256)
  {
    SplitOctets(e, 4);
    DigitSmall(e / 0x4_0000, 256);
  }

  lemma DigitSmall(x: int, m: int)
    requires 0 <= x < m
    ensures x % m == x
  {
  }

  lemma JoinLast(low: int, e: int, e0: int, e1: int, e2: int, e3: int)
    requires e == e0 + 4 * e1 + 0x400 * e2 + 0x4_0000 * e3
    ensures (low + 64 * e0) + 0x100 * e1 + 0x1_0000 * e2 + 0x100_0000 * e3 == low + 0x40 * e
  {
  }

  /** The packed octets of a reduced limb vector. */
  function Packed(t: Fe): (s: seq<byte>)
    requires Reduced(t)
    ensures |s| == 32
  {
    Octets0(t.l0, t.l1) + Octets4(t.l1, t.l2) + Octets8(t.l2, t.l3) + Octets12(t.l3, t.l4) +
    Octets16(t.l5, t.l6) + Octets20(t.l6, t.l7) + Octets24(t.l7, t.l8) + Octets28(t.l8, t.l9)
  }

  lemma WordsOfConcat(o0: seq<int>, o4: seq<int>, o8: seq<int>, o12: seq<int>,
                      o16: seq<int>, o20: seq<int>, o24: seq<int>, o28: seq<int>)
    requires |o0| == |o4| == |o8| == |o12| == |o16| == |o20| == |o24| == |o28| == 4
    ensures var s := o0 + o4 + o8 + o12 + o16 + o20 + o24 + o28;
            && Word(s, 0) == Word(o0, 0) && Word(s, 4) == Word(o4, 0)
            && Word(s, 8) == Word(o8, 0) && Word(s, 12) == Word(o12, 0)
            && Word(s, 16) == Word(o16, 0) && Word(s, 20) == Word(o20, 0)
            && Word(s, 24) == Word(o24, 0) && Word(s, 28) == Word(o28, 0)
  {
  }

  /** The eight 32-bit words of the packed limbs. */
  lemma PackedWords(t: Fe)
    requires Reduced(t)
    ensures var s := Packed(t);
            && Word(s, 0) == t.l0 + 0x400_0000 * (t.l1 % 0x40)
            && Word(s, 4) == t.l1 / 0x40 + 0x8_0000 * (t.l2 % 0x2000)
            && Word(s, 8) == t.l2 / 0x2000 + 0x2000 * (t.l3 % 0x8_0000)
            && Word(s, 12) == t.l3 / 0x8_0000 + 0x40 * t.l4
            && Word(s, 16) == t.l5 + 0x200_0000 * (t.l6 % 0x80)
            && Word(s, 20) == t.l6 / 0x80 + 0x8_0000 * (t.l7 % 0x2000)
            && Word(s, 24) == t.l7 / 0x2000 + 0x1000 * (t.l8 % 0x10_0000)
            && Word(s, 28) == t.l8 / 0x10_0000 + 0x40 * t.l9
  {
    Octets0Value(t.l0, t.l1);
    Octets4Value(t.l1, t.l2);
    Octets8Value(t.l2, t.l3);
    Octets12Value(t.l3, t.l4);
    Octets16Value(t.l5, t.l6);
    Octets20Value(t.l6, t.l7);
    Octets24Value(t.l7, t.l8);
    Octets28Value(t.l8, t.l9);
    hide Octets0, Octets4, Octets8, Octets12, Octets16, Octets20, Octets24, Octets28, Word;
    WordsOfConcat(Octets0(t.l0, t.l1), Octets4(t.l1, t.l2), Octets8(t.l2, t.l3), Octets12(t.l3, t.l4),
                  Octets16(t.l5, t.l6), Octets20(t.l6, t.l7), Octets24(t.l7, t.l8), Octets28(t.l8, t.l9));
  }

  lemma PackedValue(t: Fe)
    requires Reduced(t)
    ensures LeVal(Packed(t)) == Val(t)
  {
    ValIs(t);
    PackedWords(t);
    hide Packed, Word;
    LeVal32(Packed(t));
  }

  /** fe25519_tobytes: the canonical encoding of a product, and for wider limbs the residue the
      reduction leaves, which ResidueIsCanonicalIff tells apart from the canonical one. */
  method FeToBytes(h: Fe) returns (s: seq<byte>)
    requires Wideish(h)
    ensures |s| == 32
    ensures LeVal(s) == Residue(h)
    ensures Tight(h) ==> LeVal(s) == Canon(Val(h))
  {
    if Tight(h) {
      ResidueTight(h);
    }
    var t := FeReduce(h);
    s := Packed(t);
    PackedValue(t);
  }

  method FeIsNegative(f: Fe) returns (b: int)
    requires Wideish(f)
    ensures b == Residue(f) % 2
  {
    hide Residue;
    var s := FeToBytes(f);
    b := s[0] % 2;
    LowBit(s);
  }

  lemma LowBit(s: seq<byte>)
    requires |s| > 0
    ensures LeVal(s) % 2 == s[0] % 2
  {
    Parity(LeVal(s), s[0], LeVal(s[1..]));
  }

  lemma Parity(x: int, a: int, r: int)
    requires x == a + 256 * r
    ensures x % 2 == a % 2
  {
  }

  /** local_is_zero: or all octets together. */
  method OctetsAreZero(n: seq<byte>) returns (z: bool)
    ensures z <==> LeVal(n) == 0
  {
    z := true;
    for i := 0 to |n|
      invariant z <==> LeVal(n[..i]) == 0
    {
      LeValConcat(n[..i], [n[i]]);
      assert n[..i + 1] == n[..i] + [n[i]];
      assert LeVal([n[i]]) == n[i] by { assert [n[i]][1..] == []; }
      if n[i] != 0 {
        assert Pow256(i) * n[i] > 0;
        z := false;
      }
    }
    assert n[..|n|] == n;
  }

  method FeIsZero(f: Fe) returns (z: bool)
    requires Wideish(f)
    ensures z <==> Cong(Val(f), 0)
  {
    var s := FeToBytes(f);
    z := OctetsAreZero(s);
    ResidueZeroIff(f);
    CanonIs(Val(f));
    CongIff(Val(f), 0);
  }

}
