/** ge25519_from_uniform: the Elligator 2 map followed by the cofactor.  The source aborts when
    the mapped y has no curve point; here that outcome is returned. */
module Elligator {
  import opened Bits
  import opened Wrappers
  import opened Arithmetic
  import opened Bytes
  import opened Residues
  import opened PrimeField
  import opened FieldLimbs
  import opened FieldBytes
  import opened PowerChains
  import opened SquareRoots
  import opened Edwards
  import opened EdwardsGroup
  import opened Points
  import opened ScalarMult
  import opened PointEncoding
  import opened PointStrings

  const MONTGOMERY_A: int := 486662

  const FE_A := Fe(486662, 0, 0, 0, 0, 0, 0, 0, 0, 0)

  // ---------- The map on residues ----------

  /** -A / (1 + 2 r^2). */
  function FirstX(r: int): int {
    -(MONTGOMERY_A * Inv(2 * (r * r) + 1))
  }

  /** x^3 + A x^2 + x. */
  function CurveTest(x: int): int {
    x * x * MONTGOMERY_A + (x * (x * x) + x)
  }

  function Character(x: int): int {
    Pow(CurveTest(x), (P - 1) / 2)
  }

  /** The first x when it lies on the Montgomery curve, and -x - A when it does not. */
  ghost function MontgomeryX(r: int): int {
    var x := FirstX(r);
    if Cong(Character(x), -1) then -x - MONTGOMERY_A else x - 0
  }

  /** (x - 1) / (x + 1). */
  ghost function MappedY(r: int): int {
    var x := MontgomeryX(r);
    (x - 1) * Inv(x + 1)
  }

  /** The string that is decoded: the mapped y under the sign of the input. */
  ghost function MappedString(r: seq<byte>): (s: seq<byte>)
    requires |r| == 32
    ensures |s| == 32
  {
    ToOctets(Canon(MappedY(LeVal(r) % TWO_255)) + TWO_255 * SignBit(r), 32)
  }

  /** The curve point the map reaches, before the cofactor. */
  ghost function Mapped(d: int, r: seq<byte>): Option<Point>
    requires |r| == 32
  {
    Decoded(d, MappedString(r))
  }

  // ---------- The test on octet 1 ----------

  lemma {:induction false} PowOfZero(x: int, e: nat)
    requires Cong(x, 0) && e > 0
    ensures Cong(Pow(x, e), 0)
  {
    var rest := Pow(x, e - 1);
    CongRefl(rest);
    CongMul(x, 0, rest, rest);
  }

  /** The quadratic character is 0, 1 or p - 1, and octet 1 of its encoding tells p - 1 apart. */
  lemma CharacterOctet(x: int)
    requires PIsPrime()
    ensures Canon(Character(x)) / 256 % 2 == (if Cong(Character(x), -1) then 1 else 0)
  {
    var z, e := CurveTest(x), Character(x);
    hide CurveTest, Character;
    if Cong(z, 0) {
      ZeroCharacter(x);
      CanonUnique(e, 0);
      NotBoth(e, 0);
    } else {
      UnitCharacter(x);
      if Cong(e, -1) {
        CongBy(-1, P - 1, -1);
        CongTrans(e, -1, P - 1);
        CanonUnique(e, P - 1);
        TopResidue();
      } else {
        CanonUnique(e, 1);
      }
    }
  }

  lemma TopResidue()
    ensures (P - 1) / 256 % 2 == 1
  {
  }

  lemma ZeroCharacter(x: int)
    requires Cong(CurveTest(x), 0)
    ensures Cong(Character(x), 0)
  {
    PowOfZero(CurveTest(x), (P - 1) / 2);
  }

  lemma UnitCharacter(x: int)
    requires PIsPrime() && !Cong(CurveTest(x), 0)
    ensures Cong(Character(x), 1) || Cong(Character(x), -1)
  {
    HalfPower(CurveTest(x));
  }

  lemma NotBoth(e: int, z: int)
    requires Cong(e, 0)
    ensures !Cong(e, -1)
  {
    if Cong(e, -1) {
      CongSym(e, 0);
      CongTrans(0, e, -1);
      CongBy(-1, P - 1, -1);
      CongTrans(0, -1, P - 1);
      CongSmall(0, P - 1);
    }
  }

  // ---------- The code ----------

  method FeSetA() returns (f: Fe)
    ensures UpTo(1, f) && MulOperand(f) && Stands(f, MONTGOMERY_A)
  {
    f := FE_A;
    assert UpTo(1, f) && MulOperand(f);
    AStands(f);
  }

  lemma AStands(f: Fe)
    requires f == FE_A
    ensures Stands(f, MONTGOMERY_A)
  {
    ValIs(f);
    CongRefl(MONTGOMERY_A);
  }

  method FeSetZero() returns (f: Fe)
    ensures UpTo(1, f) && Stands(f, 0)
  {
    f := FeZero;
    ZeroValue(f);
    CongRefl(0);
  }

  /** rr2[0]++. */
  method Increment(f: Fe, ghost x: int) returns (h: Fe)
    requires Tight(f) && Stands(f, x)
    ensures MulOperand(h) && Stands(h, x + 1)
  {
    var h0: int32 := f.l0 + 1;
    h := f.(l0 := h0);
    LowLimbValue(f, h0);
    CongRefl(1);
    CongAdd(Val(f), x, 1, 1);
  }

  method TightNeg(f: Fe, ghost x: int) returns (h: Fe)
    requires Tight(f) && Stands(f, x)
    ensures Tight(h) && Stands(h, -x)
  {
    TightNegation(f);
    h := FeNeg(f, x);
  }

  lemma TightUpTo(f: Fe)
    requires Tight(f)
    ensures UpTo(1, f) && MulOperand(f) && Wideish(f) && Residue(f) == Canon(Val(f))
  {
    ResidueTight(f);
  }

  method MapFirst(f: Fe, ghost r: int) returns (x: Fe)
    requires Tight(f) && Stands(f, r)
    ensures Tight(x) && Stands(x, FirstX(r))
  {
    hide Tight, MulOperand, Stands, UpTo, Inv;
    TightIsOperand(f);
    var rr := FeSq2Tight(f, r);
    var one := Increment(rr, 2 * (r * r));
    var inv := Inverted(one, 2 * (r * r) + 1);
    var a := FeSetA();
    TightIsOperand(inv);
    x := FeMul(a, inv, MONTGOMERY_A, Inv(2 * (r * r) + 1));
    x := TightNeg(x, MONTGOMERY_A * Inv(2 * (r * r) + 1));
  }

  method FeSq2Tight(f: Fe, ghost r: int) returns (h: Fe)
    requires MulOperand(f) && Stands(f, r)
    ensures Tight(h) && Stands(h, 2 * (r * r))
  {
    h := FeSq2(f, r);
  }

  /** s[1] & 1 of the encoded character. */
  method CharacterIsMinusOne(x: Fe, ghost c: int) returns (b: bool)
    requires PIsPrime() && Tight(x) && Stands(x, c)
    ensures b <==> Cong(Character(c), -1)
  {
    TightUpTo(x);
    hide Tight, MulOperand, Stands, UpTo, Residue, Wideish, Character;
    var x2 := Squared(x, c);
    var x3 := Points.Times(x, x2, c, c * c);
    var e := Plus(x3, x, 1, 1, c * (c * c), c);
    var a := FeSetA();
    x2 := Points.Times(x2, a, c * c, MONTGOMERY_A);
    e := Plus(x2, e, 1, 2, c * c * MONTGOMERY_A, c * (c * c) + c);
    var chi := CharacterOf(e, c);
    TightUpTo(chi);
    CanonOfStands(chi, Character(c));
    var s := FeToBytes(chi);
    CharacterOctet(c);
    OctetOne(s);
    b := s[1] % 2 == 1;
  }

  method CharacterOf(e: Fe, ghost c: int) returns (h: Fe)
    requires MulOperand(e) && Stands(e, CurveTest(c))
    ensures Tight(h) && Stands(h, Character(c))
  {
    h := FeChi(e, CurveTest(c));
  }

  lemma OctetOne(s: seq<byte>)
    requires |s| == 32
    ensures LeVal(s) / 256 % 2 == s[1] % 2
  {
    LeValStep(s, 0);
    LeValStep(s, 1);
    assert s[0..] == s;
    var low: int, next: int := s[0], s[1];
    DivUnique(LeVal(s), 256, LeVal(s[1..]), low);
    Parity(LeVal(s[1..]), next, LeVal(s[2..]));
  }

  /** The Montgomery x and the Edwards y it maps to. */
  method MapY(x: Fe, minus: bool, ghost r: int) returns (y: Fe)
    requires Tight(x) && Stands(x, FirstX(r)) && (minus <==> Cong(Character(FirstX(r)), -1))
    ensures Tight(y) && Stands(y, MappedY(r))
  {
    ghost var c := FirstX(r);
    TightUpTo(x);
    var negx := TightNeg(x, c);
    TightUpTo(negx);
    MontgomeryIs(r, minus);
    hide Tight, MulOperand, Stands, UpTo, FirstX, MontgomeryX, MappedY, Character, Inv;
    var x1 := OtherRoot(x, negx, minus, c);
    var one := FeSetOne();
    y := QuotientOf(x1, one, MontgomeryX(r));
  }

  lemma MontgomeryIs(r: int, minus: bool)
    requires minus <==> Cong(Character(FirstX(r)), -1)
    ensures MontgomeryX(r) == if minus then -FirstX(r) - MONTGOMERY_A else FirstX(r)
    ensures MappedY(r) == (MontgomeryX(r) - 1) * Inv(MontgomeryX(r) + 1)
  {
  }

  /** x, or -x - A. */
  method OtherRoot(x: Fe, negx: Fe, minus: bool, ghost c: int) returns (x1: Fe)
    requires UpTo(1, x) && Stands(x, c) && UpTo(1, negx) && Stands(negx, -c)
    ensures UpTo(2, x1) && Stands(x1, if minus then -c - MONTGOMERY_A else c)
  {
    UpToInWords(x);
    UpToInWords(negx);
    hide InWords, Stands, UpTo;
    var zero := FeSetZero();
    UpToInWords(zero);
    var a := FeSetA();
    UpToInWords(a);
    var kept := FeCmov(x, negx, minus);
    var taken := FeCmov(zero, a, minus);
    x1 := Minus(kept, taken, 1, 1, if minus then -c else c, if minus then MONTGOMERY_A else 0);
  }

  lemma UpToInWords(f: Fe)
    requires UpTo(1, f)
    ensures InWords(f)
  {
  }

  method QuotientOf(x: Fe, one: Fe, ghost m: int) returns (y: Fe)
    requires UpTo(2, x) && Stands(x, m) && UpTo(1, one) && LikeOne(one)
    ensures Tight(y) && Stands(y, (m - 1) * Inv(m + 1))
  {
    hide UpTo, Tight, MulOperand, Stands, Inv;
    var plus := Plus(x, one, 2, 1, m, 1);
    var minus := Minus(x, one, 2, 1, m, 1);
    var inv := Inverted(plus, m + 1);
    TightIsOperand(inv);
    y := FeMul(minus, inv, m - 1, Inv(m + 1));
  }

  lemma SignedString(r: seq<byte>, u: seq<byte>, s: seq<byte>)
    requires |r| == 32 && |u| == 32 && LeVal(u) == Canon(MappedY(LeVal(r) % TWO_255))
    requires u[31] + 128 * SignBit(r) < 256 && s == u[31 := u[31] + 128 * SignBit(r)]
    ensures s == MappedString(r)
  {
    WithSign(u, s, SignBit(r));
    Weight32();
    var n := Canon(MappedY(LeVal(r) % TWO_255)) + TWO_255 * SignBit(r);
    hide LeVal, Pow256, ToOctets;
    ToOctetsValue(n, 32);
    LeValInjective(s, MappedString(r));
  }

  /** The string the map decodes. */
  method MapString(r: seq<byte>, ghost d: int) returns (s: seq<byte>)
    requires EdwardsCurve(d) && |r| == 32
    ensures s == MappedString(r)
  {
    CurvePrime(d);
    hide Tight, Stands, Wideish, Residue, LeVal, FirstX, Character, MappedY;
    var t := r[31 := r[31] % 128];
    ClearedTop(r, t);
    ghost var rr := LeVal(r) % TWO_255;
    var f := FeFromBytes(t);
    LoadedStands(f, t, rr);
    var x := MapFirst(f, rr);
    var minus := CharacterIsMinusOne(x, FirstX(rr));
    var y := MapY(x, minus, rr);
    TightUpTo(y);
    CanonOfStands(y, MappedY(rr));
    var u := FeToBytes(y);
    TopIsClear(u);
    JoinTopBit(u[31], r[31] / 128);
    s := u[31 := Or(u[31], 128 * (r[31] / 128))];
    SignedString(r, u, s);
  }

  lemma LoadedStands(f: Fe, t: seq<byte>, x: int)
    requires Cong(Val(f), LeVal(t) % TWO_255) && LeVal(t) % TWO_255 == x
    ensures Stands(f, x)
  {
  }

  /** Three doublings. */
  method TimesEight(p: P3, ghost d: int, ghost a: Point)
    requires EdwardsCurve(d) && OnCurve(d, a) && p.Is(a)
    modifies p
    ensures p.Is(Mul(d, 8, a))
  {
    MulOne(d, a);
    MulDouble(d, 1, a);
    hide Completed, Projective, Extended;
    var p1 := new P1P1();
    var p2 := new P2();
    GeP3Dbl(p1, p, d, a);
    DoubleInPlace(p1, p2, 2, d, a);
    DoubleInPlace(p1, p2, 4, d, a);
    GeP1P1ToP3(p, p1, d, Mul(d, 8, a));
  }

  /** The encoding of eight times the mapped point; ok is false where the source aborts. */
  method GeFromUniform(r: seq<byte>, ghost d: int) returns (ok: bool, s: seq<byte>)
    requires EdwardsCurve(d) && |r| == 32
    ensures ok <==> Mapped(d, r).Some?
    ensures ok ==> OnCurve(d, Mul(d, 8, Mapped(d, r).value)) && 0 <= Mul(d, 8, Mapped(d, r).value).y < P
    ensures ok ==> s == PointString(Mul(d, 8, Mapped(d, r).value))
  {
    hide Extended, PointString;
    s := MapString(r, d);
    var p3 := new P3();
    ok := FromBytes(p3, s, d);
    if ok {
      ghost var a := Mapped(d, r).value;
      TimesEight(p3, d, a);
      MulOnCurve(d, 8, a);
      CoordinatesInRange(d, Mul(d, 8, a));
      s := PointToString(p3, d, Mul(d, 8, a));
    }
  }
}
