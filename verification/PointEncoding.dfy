/** Points as 32 octets: the y coordinate and the parity of x (sections 5.1.2 and 5.1.3 of
    RFC 8032), as ge25519_frombytes, ge25519_p3_tobytes and ge25519_is_canonical treat them. */
module PointEncoding {
  import opened Arithmetic
  import opened Bytes
  import opened Bits
  import opened Residues
  import opened PrimeField
  import opened FieldLimbs
  import opened FieldBytes
  import opened PowerChains
  import opened SquareRoots
  import opened Edwards
  import opened NonSquare
  import opened CurveConstants
  import opened Points

  // ---------- What an encoding means ----------

  function SignBit(s: seq<byte>): int
    requires |s| == 32
  {
    s[31] / 128
  }

  /** The y coordinate an octet string names; values from p to 2^255 - 1 wrap. */
  function NamedY(s: seq<byte>): (y: int)
    requires |s| == 32
    ensures 0 <= y < P
  {
    Canon(LeVal(s) % TWO_255)
  }

  /** y below p, the sign bit aside. */
  predicate IsCanonicalString(s: seq<byte>)
    requires |s| == 32
  {
    LeVal(s) % TWO_255 < P
  }

  /** a is the point s decodes to: the code lets the sign bit be anything when x is zero. */
  ghost predicate IsDecoding(d: int, s: seq<byte>, a: Point)
    requires |s| == 32
  {
    OnCurve(d, a) && a.y == NamedY(s) && (a.x == 0 || a.x % 2 == SignBit(s))
  }

  /** The number whose octets encode a. */
  function Encoding(a: Point): int {
    a.y + TWO_255 * (a.x % 2)
  }

  // ---------- The curve equation as a square root ----------

  lemma RootIsOnCurve(d: int, x: int, y: int)
    ensures IsRoot(y * y - 1, y * y * d + 1, x) <==> Cong(y * y - x * x, 1 + d * (x * x * (y * y)))
  {
    var xx, yy := x * x, y * y;
    assert (yy * d + 1) * xx == d * (xx * yy) + xx;
    var e := d * (xx * yy);
    CongRefl(xx + 1);
    CongRefl(xx - 1 - e);
    if Cong(e + xx, yy - 1) {
      CongRefl(1 - xx);
      CongAdd(e + xx, yy - 1, 1 - xx, 1 - xx);
      CongSym(e + 1, yy - xx);
    }
    if Cong(yy - xx, 1 + e) {
      CongRefl(xx - 1);
      CongAdd(yy - xx, 1 + e, xx - 1, xx - 1);
      CongSym(yy - 1, e + xx);
    }
  }

  /** The equation only depends on the residues. */
  lemma EquationRespects(d: int, x: int, y: int, p: int, q: int)
    requires Cong(x, p) && Cong(y, q)
    requires Cong(y * y - x * x, 1 + d * (x * x * (y * y)))
    ensures Cong(q * q - p * p, 1 + d * (p * p * (q * q)))
  {
    CongMul(x, p, x, p);
    CongMul(y, q, y, q);
    CongSub(y * y, q * q, x * x, p * p);
    CongMul(x * x, p * p, y * y, q * q);
    CongScale(d, x * x * (y * y), p * p * (q * q));
    CongRefl(1);
    CongAdd(1, 1, d * (x * x * (y * y)), d * (p * p * (q * q)));
    CongSym(y * y - x * x, q * q - p * p);
    CongTrans(q * q - p * p, y * y - x * x, 1 + d * (x * x * (y * y)));
    CongTrans(q * q - p * p, 1 + d * (x * x * (y * y)), 1 + d * (p * p * (q * q)));
  }

  /** A root gives a curve point, reduced to canonical coordinates. */
  lemma RootGivesPoint(d: int, x: int, y: int)
    requires IsRoot(y * y - 1, y * y * d + 1, x)
    ensures OnCurve(d, Point(Canon(x), Canon(y)))
  {
    RootIsOnCurve(d, x, y);
    CanonIs(x);
    CanonIs(y);
    CongSym(Canon(x), x);
    CongSym(Canon(y), y);
    EquationRespects(d, x, y, Canon(x), Canon(y));
    OnCurveMeans(d, Point(Canon(x), Canon(y)));
  }

  /** A curve point with that y gives a root. */
  lemma PointGivesRoot(d: int, a: Point, y: int)
    requires OnCurve(d, a) && a.y == Canon(y)
    ensures IsRoot(y * y - 1, y * y * d + 1, a.x)
  {
    OnCurveMeans(d, a);
    CanonIs(y);
    CongRefl(a.x);
    EquationRespects(d, a.x, a.y, a.x, y);
    RootIsOnCurve(d, a.x, y);
  }

  /** The denominator d y^2 + 1 never vanishes: otherwise d would be a square. */
  lemma RatioDefined(d: int, y: int)
    requires EdwardsCurve(d)
    ensures !Cong(y * y * d + 1, 0)
  {
    if Cong(y * y * d + 1, 0) {
      CurvePrime(d);
      var i := I;
      RootOfMinusOne();
      CongRefl(1);
      CongSub(y * y * d + 1, 0, 1, 1);
      CongSym(y * y * d, -1);
      CongTrans(i * i, -1, y * y * d);
      if Cong(y, 0) {
        CongMul(y, 0, y, 0);
        CongRefl(d);
        CongMul(y * y, 0, d, d);
        CongSym(y * y * d, 0);
        CongTrans(0, y * y * d, -1);
        CongSym(0, -1);
        CongScale(-1, -1, 0);
        OneIsNotZero(1);
      } else {
        assert y * y * d == d * (y * y);
        RatioIsRoot(d, i, y);
        NotASquare(d, i * Inv(y));
      }
    }
  }

  // ---------- A string decodes to at most one point ----------

  lemma OppositeParity(x: int, y: int)
    requires 0 < x < P && 0 < y < P && Cong(x, -y)
    ensures x % 2 != y % 2
  {
    CongRefl(y);
    CongAdd(x, -y, y, y);
    var k := Multiplier(x + y, 0);
    assert k == 1;
  }

  lemma SameRoots(d: int, a: Point, b: Point)
    requires EdwardsCurve(d) && OnCurve(d, a) && OnCurve(d, b) && a.y == b.y
    ensures Cong(a.x, b.x) || Cong(a.x, -b.x)
  {
    CurvePrime(d);
    OnCurveMeans(d, a);
    OnCurveMeans(d, b);
    var y := a.y;
    var v := y * y * d + 1;
    CanonIs(y);
    CanonUnique(y, y) by {
      CongRefl(y);
    }
    PointGivesRoot(d, a, y);
    PointGivesRoot(d, b, y);
    RatioDefined(d, y);
    CongSym(v * (b.x * b.x), y * y - 1);
    CongTrans(v * (a.x * a.x), y * y - 1, v * (b.x * b.x));
    assert v * (a.x * a.x) == a.x * a.x * v && v * (b.x * b.x) == b.x * b.x * v;
    Cancel(a.x * a.x, b.x * b.x, v);
    CongRefl(b.x * b.x);
    CongSub(a.x * a.x, b.x * b.x, b.x * b.x, b.x * b.x);
    EqualSquares(a.x, b.x);
  }

  lemma EqualSquares(x: int, y: int)
    requires PIsPrime() && Cong(x * x - y * y, 0)
    ensures Cong(x, y) || Cong(x, -y)
  {
    assert x * x - y * y == (x - y) * (x + y);
    NoZeroDivisors(x - y, x + y);
    CongRefl(y);
    if Cong(x - y, 0) {
      CongAdd(x - y, 0, y, y);
    } else {
      CongSub(x + y, 0, y, y);
    }
  }

  lemma DecodingUnique(d: int, s: seq<byte>, a: Point, b: Point)
    requires EdwardsCurve(d) && |s| == 32 && IsDecoding(d, s, a) && IsDecoding(d, s, b)
    ensures a == b
  {
    SameRoots(d, a, b);
    OnCurveMeans(d, a);
    OnCurveMeans(d, b);
    if Cong(a.x, b.x) {
      CongSmall(a.x, b.x);
    } else if a.x == 0 {
      CongScale(-1, a.x, -b.x);
      CongSmall(0, b.x);
    } else if b.x == 0 {
      CongSmall(a.x, 0);
    } else {
      OppositeParity(a.x, b.x);
    }
  }

  // ---------- Round trips ----------

  lemma EncodingParts(s: seq<byte>, y: int, b: int)
    requires |s| == 32 && LeVal(s) == y + TWO_255 * b && 0 <= y < TWO_255 && 0 <= b <= 1
    ensures LeVal(s) % TWO_255 == y && SignBit(s) == b
  {
    LeVal32(s);
    LeValTop(s);
    DivUnique(LeVal(s), TWO_255, b, y);
  }

  lemma LeValTop(s: seq<byte>)
    requires |s| == 32
    ensures LeVal(s) / TWO_255 == s[31] / 128
  {
    var top: int := s[31];
    var low := LeVal(s[..31]);
    assert s == s[..31] + [s[31]];
    LeValConcat(s[..31], [s[31]]);
    LeValBound(s[..31]);
    SingleOctet(s[31]);
    ThirtyOne();
    hide LeVal, Pow256;
    TopBit(low, top);
  }

  lemma SingleOctet(x: byte)
    ensures LeVal([x]) == x
  {
    assert [x][1..] == [];
  }

  const TWO_248: int := 0x100_0000_0000_0000_0000_0000_0000_0000_0000_0000_0000_0000_0000_0000_0000_0000

  lemma ThirtyOne()
    ensures Pow256(31) == TWO_248
  {
    assert Pow256(10) == 0x1_0000_0000_0000_0000_0000;
    assert Pow256(20) == 0x1_0000_0000_0000_0000_0000_0000_0000_0000_0000_0000;
  }

  lemma TopBit(low: int, top: int)
    requires 0 <= low < TWO_248 && 0 <= top < 256
    ensures (low + TWO_248 * top) / TWO_255 == top / 128
  {
    DivUnique(low + TWO_248 * top, TWO_255, top / 128, low + TWO_248 * (top % 128));
  }

  /** Decoding an encoding: canonical, and it names the point. */
  lemma EncodingDecodes(d: int, s: seq<byte>, a: Point)
    requires |s| == 32 && OnCurve(d, a) && LeVal(s) == Encoding(a)
    ensures IsCanonicalString(s) && IsDecoding(d, s, a)
  {
    OnCurveMeans(d, a);
    EncodingParts(s, a.y, a.x % 2);
    CongRefl(a.y);
    CanonUnique(a.y, a.y);
  }

  /** Encoding a decoded point gives the string back exactly when the string was canonical and did
      not put a sign on a zero x. */
  lemma DecodingEncodes(d: int, s: seq<byte>, a: Point)
    requires |s| == 32 && IsDecoding(d, s, a)
    ensures LeVal(s) == Encoding(a) <==> IsCanonicalString(s) && !(a.x == 0 && SignBit(s) == 1)
  {
    OnCurveMeans(d, a);
    LeValTop(s);
    var y := LeVal(s) % TWO_255;
    assert LeVal(s) == TWO_255 * (LeVal(s) / TWO_255) + y;
    if LeVal(s) == Encoding(a) {
      EncodingParts(s, a.y, a.x % 2);
    }
    if IsCanonicalString(s) {
      CongRefl(y);
      CanonUnique(y, y);
    }
  }

  // ---------- ge25519_frombytes ----------

  /** Products and a constant one away from them: still inside the range of the zero test. */
  predicate NearTight(f: Fe) {
    Within(f, TIGHT_EVEN + 1, TIGHT_ODD + 1)
  }

  lemma NearTightOperand(f: Fe)
    requires NearTight(f)
    ensures MulOperand(f) && Within(f, 0x3fff_ffff, 0x3fff_ffff)
  {
  }

  ghost predicate LikeOne(f: Fe) {
    Within(f, 1, 1) && Stands(f, 1) && Val(f) == 1
  }

  lemma OneIs(f: Fe)
    requires f == FeOne
    ensures LikeOne(f) && UpTo(1, f)
  {
    OneValue(f);
    assert Within(f, 1, 1);
    hide UpTo, Within;
    OneStands(f);
  }

  lemma NearOne(f: Fe, one: Fe)
    requires Tight(f) && Within(one, 1, 1)
    ensures NearTight(FeSum(f, one)) && NearTight(FeDifference(f, one))
    ensures Within(f, 0x3fff_ffff, 0x3fff_ffff) && Within(one, 0x3fff_ffff, 0x3fff_ffff)
  {
  }

  lemma ZeroTestRange(f: Fe, g: Fe)
    requires Tight(f) && NearTight(g)
    ensures Wideish(FeSum(f, g)) && Wideish(FeDifference(f, g))
    ensures Within(f, 0x3fff_ffff, 0x3fff_ffff) && Within(g, 0x3fff_ffff, 0x3fff_ffff)
  {
  }

  lemma DIsOperand(f: Fe)
    requires f == FE_D
    ensures MulOperand(f)
  {
  }

  method TimesD(f: Fe, ghost d: int, ghost x: int) returns (h: Fe)
    requires EdwardsCurve(d) && Tight(f) && Stands(f, x)
    ensures Tight(h) && Stands(h, x * d)
  {
    DIsOperand(FE_D);
    hide MulOperand, Tight, Within, Stands;
    StandsForD(d);
    TightIsOperand(f);
    h := FeMul(f, FE_D, x, d);
  }

  lemma OneWithin(f: Fe)
    requires LikeOne(f)
    ensures Within(f, 1, 1) && Stands(f, 1)
  {
  }

  /** u = y^2 - 1, v = d y^2 + 1. */
  method DecodeRatio(Y: Fe, Z: Fe, ghost d: int, ghost y: int) returns (u: Fe, v: Fe)
    requires EdwardsCurve(d) && Tight(Y) && Stands(Y, y) && LikeOne(Z)
    ensures NearTight(u) && Stands(u, y * y - 1) && NearTight(v) && Stands(v, y * y * d + 1)
  {
    hide MulOperand, NearTight, Tight, Within, Stands, LikeOne;
    OneWithin(Z);
    TightIsOperand(Y);
    var yy := FeSq(Y, y);
    v := TimesD(yy, d, y * y);
    NearOne(yy, Z);
    NearOne(v, Z);
    u := FeSub(yy, Z, y * y, 1);
    v := FeAdd(v, Z, y * y * d, 1);
  }

  /** x = u v^3 (u v^7)^((p - 5) / 8). */
  method RootCandidate(u: Fe, v: Fe, ghost a: int, ghost b: int) returns (x: Fe)
    requires NearTight(u) && NearTight(v) && Stands(u, a) && Stands(v, b)
    ensures Tight(x) && Stands(x, Candidate(a, b))
  {
    NearTightOperand(u);
    NearTightOperand(v);
    ghost var c := b * b * b;
    hide NearTight, Stands, Candidate, Radicand;
    var v3 := FeSq(v, b);
    TightIsOperand(v3);
    v3 := FeMul(v3, v, b * b, b);
    TightIsOperand(v3);
    x := FeSq(v3, c);
    TightIsOperand(x);
    x := FeMul(x, v, c * c, b);
    TightIsOperand(x);
    x := FeMul(x, u, c * c * b, a);
    TightIsOperand(x);
    CandidateIs(a, b, c);
    x := PowRadicand(x, Radicand(a, b, c));
    ghost var t := Pow(Radicand(a, b, c), (P - 5) / 8);
    TightIsOperand(x);
    x := FeMul(x, v3, t, c);
    TightIsOperand(x);
    x := FeMul(x, u, t * c, a);
  }

  method PowRadicand(f: Fe, ghost w: int) returns (x: Fe)
    requires Tight(f) && Stands(f, w)
    ensures Tight(x) && Stands(x, Pow(w, (P - 5) / 8))
  {
    TightIsOperand(f);
    x := FePow22523(f, w);
  }

  lemma CandidateIs(a: int, b: int, c: int)
    requires c == b * b * b
    ensures c * c * b * a == Radicand(a, b, c)
    ensures Candidate(a, b) == Pow(Radicand(a, b, c), (P - 5) / 8) * c * a
  {
  }

  lemma ZeroMeansEqual(v: int, x: int, y: int, z: int)
    requires Cong(v, z) && z == x - y
    ensures Cong(v, 0) <==> Cong(x, y)
  {
    CongSym(v, z);
    CongRefl(y);
    if Cong(v, 0) {
      CongTrans(z, v, 0);
      CongAdd(z, 0, y, y);
    }
    if Cong(x, y) {
      CongSub(x, y, y, y);
      CongTrans(v, z, 0);
    }
  }

  /** v x^2 - u and v x^2 + u against zero. */
  method RootChecks(x: Fe, u: Fe, v: Fe, ghost c: int, ghost a: int, ghost b: int) returns (m: bool, p: bool)
    requires Tight(x) && NearTight(u) && NearTight(v) && Stands(x, c) && Stands(u, a) && Stands(v, b)
    ensures m <==> IsRoot(a, b, c)
    ensures p <==> IsRoot(-a, b, c)
  {
    hide NearTight, Tight, MulOperand, Within, Wideish;
    TightIsOperand(x);
    NearTightOperand(v);
    var vxx := FeSq(x, c);
    TightIsOperand(vxx);
    vxx := FeMul(vxx, v, c * c, b);
    ZeroTestRange(vxx, u);
    var mCheck := FeSub(vxx, u, c * c * b, a);
    var pCheck := FeAdd(vxx, u, c * c * b, a);
    m := FeIsZero(mCheck);
    p := FeIsZero(pCheck);
    assert c * c * b == b * (c * c);
    ZeroMeansEqual(Val(mCheck), b * (c * c), a, c * c * b - a);
    ZeroMeansEqual(Val(pCheck), b * (c * c), -a, c * c * b + a);
  }

  /** x, or x times the root of -1 when x itself failed. */
  method FixRoot(x: Fe, m: bool, p: bool, ghost c: int, ghost a: int, ghost b: int) returns (h: Fe, ghost r: int)
    requires Tight(x) && Stands(x, c) && c == Candidate(a, b)
    requires m <==> IsRoot(a, b, c)
    requires p <==> IsRoot(-a, b, c)
    ensures Tight(h) && Stands(h, r)
    ensures m || p ==> IsRoot(a, b, r)
  {
    ghost var i := I;
    StandsForRoot();
    assert MulOperand(FE_SQRTM1);
    TightIsOperand(x);
    hide Stands, Tight, MulOperand, IsRoot;
    var turned := FeMul(x, FE_SQRTM1, c, i);
    h := FeCmov(x, turned, !m);
    r := if m then c else c * i;
    if p {
      TurnedRoot(a, b, c, i);
    }
  }

  lemma NegatedCanon(x: int)
    ensures Canon(-x) == if Canon(x) == 0 then 0 else P - Canon(x)
  {
    CanonIs(x);
    CanonIs(-x);
    CongScale(-1, Canon(x), x);
    CongSym(-Canon(x), -x);
    if Canon(x) == 0 {
      CanonUnique(-x, 0);
    } else {
      CongBy(-Canon(x), P - Canon(x), -1);
      CongTrans(-x, -Canon(x), P - Canon(x));
      CanonUnique(-x, P - Canon(x));
    }
  }

  lemma TightNegation(f: Fe)
    requires Tight(f)
    ensures Tight(FeNegation(f)) && Within(f, 0x7fff_ffff, 0x7fff_ffff)
  {
  }

  lemma CanonOfStands(f: Fe, x: int)
    requires Stands(f, x)
    ensures Canon(Val(f)) == Canon(x)
  {
    CanonIs(x);
    CongSym(Canon(x), x);
    CongTrans(Val(f), x, Canon(x));
    CanonUnique(Val(f), Canon(x));
  }

  /** Negate when the parity differs from the wanted sign. */
  method FixSign(x: Fe, sign: int, ghost r: int) returns (h: Fe, ghost t: int)
    requires Tight(x) && Stands(x, r) && 0 <= sign <= 1
    ensures Tight(h) && Stands(h, t) && (t == r || t == -r)
    ensures Canon(t) == 0 || Canon(t) % 2 == sign
  {
    ResidueTight(x);
    TightNegation(x);
    hide Tight, Stands, Within, Wideish;
    var negx := FeNeg(x, r);
    var negative := FeIsNegative(x);
    h := FeCmov(x, negx, negative != sign);
    t := if negative != sign then -r else r;
    CanonOfStands(x, r);
    NegatedCanon(r);
  }

  lemma RootOfNegation(a: int, b: int, r: int, t: int)
    requires IsRoot(a, b, r) && (t == r || t == -r)
    ensures IsRoot(a, b, t)
  {
    assert -r * -r == r * r;
  }

  lemma DecodedExtended(X: Fe, Y: Fe, Z: Fe, T: Fe, a: Point, x: int, y: int)
    requires Tight(X) && Tight(Y) && LikeOne(Z) && UpTo(1, Z) && Tight(T)
    requires Stands(X, x) && Stands(Y, y) && Stands(T, x * y) && a == Point(Canon(x), Canon(y))
    ensures Extended(X, Y, Z, T, a)
  {
    assert UpTo(1, X) && UpTo(1, Y) && UpTo(1, T);
    hide UpTo, Tight, Within;
    CanonIs(x);
    CanonIs(y);
    CongSym(Canon(x), x);
    CongSym(Canon(y), y);
    CongMul(x, Canon(x), y, Canon(y));
    CongTrans(Val(X), x, Canon(x));
    CongTrans(Val(Y), y, Canon(y));
    CongTrans(Val(T), x * y, Canon(x) * Canon(y));
    OneIsNotZero(Val(Z));
    hide Stands;
    assert a.x * Val(Z) == a.x && a.y * Val(Z) == a.y && a.x * a.y * Val(Z) == a.x * a.y;
  }

  ghost predicate HasNoRoot(u: int, v: int) {
    forall t :: !IsRoot(u, v, t)
  }

  /** The x coordinate for y, if there is one, with the wanted parity. */
  method DecodeX(Y: Fe, Z: Fe, sign: int, ghost d: int, ghost y: int) returns (X: Fe, ok: bool, ghost x: int)
    requires EdwardsCurve(d) && Tight(Y) && Stands(Y, y) && LikeOne(Z) && 0 <= sign <= 1
    ensures Tight(X) && Stands(X, x)
    ensures ok ==> IsRoot(y * y - 1, y * y * d + 1, x) && (Canon(x) == 0 || Canon(x) % 2 == sign)
    ensures !ok ==> HasNoRoot(y * y - 1, y * y * d + 1)
  {
    ghost var a, b := y * y - 1, y * y * d + 1;
    RatioDefined(d, y);
    CurvePrime(d);
    hide Stands, Tight, NearTight, LikeOne, Candidate, IsRoot;
    var u, v := DecodeRatio(Y, Z, d, y);
    X := RootCandidate(u, v, a, b);
    var m, p := RootChecks(X, u, v, Candidate(a, b), a, b);
    ghost var r;
    X, r := FixRoot(X, m, p, Candidate(a, b), a, b);
    X, x := FixSign(X, sign, r);
    ok := m || p;
    if ok {
      RootOfNegation(a, b, r, x);
    } else {
      forall t
        ensures !IsRoot(a, b, t)
      {
        NoOtherRoot(a, b, t);
      }
    }
  }

  /** Succeeds exactly when some curve point has the named y, and then stores the point the
      string decodes to. */
  method GeFromBytes(h: P3, s: seq<byte>, ghost d: int) returns (ok: bool, ghost pt: Point)
    requires EdwardsCurve(d) && |s| == 32
    modifies h
    ensures ok ==> h.Is(pt) && IsDecoding(d, s, pt)
    ensures ok <==> exists a :: OnCurve(d, a) && a.y == NamedY(s)
  {
    ghost var y := LeVal(s) % TWO_255;
    h.Y := FeFromBytes(s);
    h.Z := FeSetOne();
    hide Stands, Tight, UpTo, LikeOne, IsRoot, LeVal;
    ghost var x;
    h.X, ok, x := DecodeX(h.Y, h.Z, s[31] / 128, d, y);
    h.T := ProductTight(h.X, h.Y, x, y);
    pt := Point(Canon(x), NamedY(s));
    DecodedExtended(h.X, h.Y, h.Z, h.T, pt, x, y);
    if ok {
      AcceptedPoint(d, s, x, y);
    } else {
      NothingToDecode(d, s, y);
    }
  }

  method FeSetOne() returns (f: Fe)
    ensures LikeOne(f) && UpTo(1, f)
  {
    f := FeOne;
    OneIs(f);
  }

  method ProductTight(f: Fe, g: Fe, ghost x: int, ghost y: int) returns (h: Fe)
    requires Tight(f) && Tight(g) && Stands(f, x) && Stands(g, y)
    ensures Tight(h) && Stands(h, x * y)
  {
    TightIsOperand(f);
    TightIsOperand(g);
    h := FeMul(f, g, x, y);
  }

  lemma AcceptedPoint(d: int, s: seq<byte>, x: int, y: int)
    requires |s| == 32 && y == LeVal(s) % TWO_255 && IsRoot(y * y - 1, y * y * d + 1, x)
    requires Canon(x) == 0 || Canon(x) % 2 == s[31] / 128
    ensures IsDecoding(d, s, Point(Canon(x), NamedY(s)))
  {
    RootGivesPoint(d, x, y);
  }

  lemma NothingToDecode(d: int, s: seq<byte>, y: int)
    requires |s| == 32 && y == LeVal(s) % TWO_255
    requires HasNoRoot(y * y - 1, y * y * d + 1)
    ensures !exists a :: OnCurve(d, a) && a.y == NamedY(s)
  {
    forall a | OnCurve(d, a)
      ensures a.y != NamedY(s)
    {
      if a.y == NamedY(s) {
        PointGivesRoot(d, a, y);
      }
    }
  }

  // ---------- ge25519_p3_tobytes ----------

  lemma DividedCoordinate(d: int, x: int, z: int)
    requires EdwardsCurve(d) && !Cong(z, 0) && 0 <= x < P
    ensures Canon(x * z * Inv(z)) == x
  {
    CurvePrime(d);
    InverseWorks(z);
    CongScale(x, z * Inv(z), 1);
    assert x * z * Inv(z) == x * (z * Inv(z));
    CanonUnique(x * z * Inv(z), x);
  }

  /** One coordinate divided by Z. */
  method Divide(f: Fe, recip: Fe, ghost d: int, ghost x: int, ghost z: int) returns (h: Fe)
    requires EdwardsCurve(d) && !Cong(z, 0) && 0 <= x < P
    requires UpTo(1, f) && Stands(f, x * z) && Tight(recip) && Stands(recip, Inv(z))
    ensures Wideish(h) && Residue(h) == x
  {
    UpToIsOperand(1, f);
    TightIsOperand(recip);
    h := FeMul(f, recip, x * z, Inv(z));
    DividedCoordinate(d, x, z);
    CanonOfStands(h, x * z * Inv(z));
    ResidueTight(h);
  }

  lemma WithSign(s: seq<byte>, t: seq<byte>, b: int)
    requires |s| == 32 && LeVal(s) < TWO_255 && 0 <= b <= 1
    requires s[31] + 128 * b < 256 && t == s[31 := s[31] + 128 * b]
    ensures LeVal(t) == LeVal(s) + TWO_255 * b
  {
    LastOctet(s);
    LastOctet(t);
    assert s[..31] == t[..31];
    hide LeVal;
  }

  lemma LastOctet(s: seq<byte>)
    requires |s| == 32
    ensures LeVal(s) == LeVal(s[..31]) + TWO_248 * (s[31] as int)
  {
    LeValConcat(s[..31], [s[31]]);
    assert s == s[..31] + [s[31]];
    SingleOctet(s[31]);
    ThirtyOne();
    hide LeVal, Pow256;
  }

  lemma ClearedTop(r: seq<byte>, t: seq<byte>)
    requires |r| == 32 && t == r[31 := r[31] % 128]
    ensures LeVal(t) == LeVal(r) % TWO_255 && LeVal(t) % TWO_255 == LeVal(r) % TWO_255
  {
    LastOctet(r);
    LastOctet(t);
    assert t[..31] == r[..31];
    LeValBound(r[..31]);
    ThirtyOne();
    hide LeVal, Pow256;
    ClearTop(LeVal(r), LeVal(t), LeVal(r[..31]), r[31]);
  }

  lemma ClearTop(x: int, y: int, low: int, top: int)
    requires 0 <= low < TWO_248 && 0 <= top < 256
    requires x == low + TWO_248 * top && y == low + TWO_248 * (top % 128)
    ensures y == x % TWO_255 && y % TWO_255 == y
  {
    DivUnique(x, TWO_255, top / 128, y);
    DivUnique(y, TWO_255, 0, y);
  }

  /** Loading a field element and writing it out again gives the string back with its top bit
      cleared, whenever that is below p. */
  lemma FieldRoundTrip(s: seq<byte>, h: Fe, t: seq<byte>)
    requires |s| == 32 && Tight(h) && Cong(Val(h), LeVal(s) % TWO_255)
    requires |t| == 32 && LeVal(t) == Residue(h)
    requires LeVal(s) % TWO_255 < P
    ensures t == s[31 := s[31] % 128]
  {
    hide LeVal, Residue, Tight, Val;
    ResidueTight(h);
    CanonUnique(Val(h), LeVal(s) % TWO_255);
    ClearedTop(s, s[31 := s[31] % 128]);
    LeValInjective(t, s[31 := s[31] % 128]);
  }

  lemma TopIsClear(s: seq<byte>)
    requires |s| == 32 && LeVal(s) < TWO_255
    ensures s[31] < 128
  {
    LeValTop(s);
    hide LeVal;
  }

  /** The encoding of the stored point, whatever its Z. */
  method GeP3ToBytes(h: P3, ghost d: int, ghost pt: Point) returns (s: seq<byte>)
    requires EdwardsCurve(d) && OnCurve(d, pt) && h.Is(pt)
    ensures |s| == 32 && LeVal(s) == Encoding(pt)
  {
    OnCurveMeans(d, pt);
    ValStands(h.Z);
    UpToIsOperand(1, h.Z);
    hide Stands, Tight, UpTo, MulOperand, LeVal, Inv, Residue, Wideish;
    ghost var z := Val(h.Z);
    var recip := Inverted(h.Z, z);
    var x := Divide(h.X, recip, d, pt.x, z);
    var y := Divide(h.Y, recip, d, pt.y, z);
    var t := FeToBytes(y);
    var b := FeIsNegative(x);
    TopIsClear(t);
    JoinTopBit(t[31], b);
    s := t[31 := Xor(t[31], 128 * b)];
    WithSign(t, s, b);
  }

  method Inverted(f: Fe, ghost z: int) returns (h: Fe)
    requires MulOperand(f) && Stands(f, z)
    ensures Tight(h) && Stands(h, Inv(z))
  {
    h := FeInvert(f, z);
  }

  // ---------- ge25519_is_canonical ----------

  /** The borrow out of eight bits of a difference of unsigned numbers: 0xff or 0. */
  function BorrowMask(x: int): int {
    x % 0x1_0000_0000 / 0x100 % 0x100
  }

  lemma BorrowIs(x: int)
    requires -0x100 <= x < 0x100
    ensures BorrowMask(x) == if x < 0 then 0xff else 0
  {
  }

  /** Every octet from 1 to 30 all ones, octet 31 all ones but for the sign. */
  predicate HighOnes(s: seq<byte>)
    requires |s| == 32
  {
    s[31] % 128 == 127 && forall k :: 1 <= k < 31 ==> s[k] == 255
  }

  /** p <= y means the string is p .. 2^255 - 1, which only the lowest octet tells apart. */
  lemma NotCanonicalMeans(s: seq<byte>)
    requires |s| == 32
    ensures IsCanonicalString(s) <==> !(HighOnes(s) && s[0] >= 0xed)
  {
    OctetsFromTop(s);
    var y := LeVal(s) % TWO_255;
    var top: int := s[31];
    var low: int := s[0];
    var mid := LeVal(s[1..31]);
    MiddleOnes(s[1..31]);
    hide LeVal;
  }

  const TWO_240: int := 0x1_0000_0000_0000_0000_0000_0000_0000_0000_0000_0000_0000_0000_0000_0000_0000

  lemma Thirty()
    ensures Pow256(30) == TWO_240
  {
    assert Pow256(10) == 0x1_0000_0000_0000_0000_0000;
    assert Pow256(20) == 0x1_0000_0000_0000_0000_0000_0000_0000_0000_0000_0000;
  }

  lemma ThreeParts(s: seq<byte>)
    requires |s| == 32
    ensures 0 <= LeVal(s[1..31]) < TWO_240
    ensures LeVal(s) == s[0] as int + 256 * LeVal(s[1..31]) + TWO_248 * (s[31] as int)
  {
    var mid := s[1..31];
    LeValStep(s, 0);
    assert s[0..] == s && s[1..] == mid + [s[31]];
    LeValConcat(mid, [s[31]]);
    LeValBound(mid);
    SingleOctet(s[31]);
    Thirty();
    hide LeVal, Pow256;
  }

  lemma OctetsFromTop(s: seq<byte>)
    requires |s| == 32
    ensures 0 <= LeVal(s[1..31]) < TWO_240
    ensures LeVal(s) % TWO_255 == s[0] as int + 256 * LeVal(s[1..31]) + TWO_248 * ((s[31] as int) % 128)
  {
    ThreeParts(s);
    hide LeVal;
    DropTop(s[0], LeVal(s[1..31]), s[31]);
  }

  lemma DropTop(low: int, m: int, top: int)
    requires 0 <= low < 256 && 0 <= m < TWO_240 && 0 <= top < 256
    ensures (low + 256 * m + TWO_248 * top) % TWO_255 == low + 256 * m + TWO_248 * (top % 128)
  {
    DivUnique(low + 256 * m + TWO_248 * top, TWO_255, top / 128, low + 256 * m + TWO_248 * (top % 128));
  }

  lemma {:induction false} AllOnes(s: seq<byte>)
    ensures LeVal(s) == Pow256(|s|) - 1 <==> forall k :: 0 <= k < |s| ==> s[k] == 255
  {
    if s != [] {
      AllOnes(s[1..]);
      LeValBound(s[1..]);
      if forall k :: 0 <= k < |s| ==> s[k] == 255 {
        assert forall k :: 0 <= k < |s[1..]| ==> s[1..][k] == 255;
      }
      if LeVal(s) == Pow256(|s|) - 1 {
        assert s[0] == 255 && LeVal(s[1..]) == Pow256(|s| - 1) - 1;
        forall k | 0 <= k < |s|
          ensures s[k] == 255
        {
          if k > 0 {
            assert s[k] == s[1..][k - 1];
          }
        }
      }
    }
  }

  lemma MiddleOnes(mid: seq<byte>)
    requires |mid| == 30
    ensures LeVal(mid) == TWO_240 - 1 <==> forall k :: 0 <= k < 30 ==> mid[k] == 255
  {
    AllOnes(mid);
    Thirty();
  }

  /** The scan of the octets above the lowest. */
  method ScanHighOnes(s: seq<byte>) returns (c: byte)
    requires |s| == 32
    ensures c == 0 <==> HighOnes(s)
  {
    ClampOctets(0, s[31]);
    hide Xor, Or, And;
    c := Xor(And(s[31], 0x7f), 0x7f);
    var i := 30;
    while i > 0
      invariant 0 <= i <= 30
      invariant c == 0 <==> OnesAbove(s, i)
    {
      OnesAboveStep(s, i);
      hide OnesAbove;
      c := Or(c, Xor(s[i], 0xff));
      i := i - 1;
    }
  }

  predicate OnesAbove(s: seq<byte>, i: nat)
    requires |s| == 32
  {
    s[31] % 128 == 127 && forall k :: i < k < 31 ==> s[k] == 255
  }

  lemma OnesAboveStep(s: seq<byte>, i: nat)
    requires |s| == 32 && 0 < i < 31
    ensures OnesAbove(s, i - 1) <==> OnesAbove(s, i) && s[i] == 255
  {
  }

  /** Returns 1 exactly for the strings that name y < p. */
  method GeIsCanonical(s: seq<byte>) returns (r: int)
    requires |s| == 32
    ensures r == if IsCanonicalString(s) then 1 else 0
  {
    NotCanonicalMeans(s);
    hide IsCanonicalString, HighOnes;
    var c := ScanHighOnes(s);
    var low: int := s[0];
    var gap: int := c;
    var high := BorrowMask(gap - 1);
    var b := BorrowMask(0xed - 1 - low);
    BorrowIs(gap - 1);
    BorrowIs(0xed - 1 - low);
    r := if high == 0xff && b == 0xff then 0 else 1;
  }
}
