/** The VRF code of keypair.c, prove.c, verify.c and convert.c, on the limb-level point and scalar
    operations, each proved to compute its function in VrfSpec. */
module Vrf {
  import opened Bytes
  import opened Bits
  import opened Edwards
  import opened EdwardsGroup
  import opened Points
  import opened ScalarMult
  import opened ScalarLimbs
  import opened Scalars
  import opened PointEncoding
  import opened PointStrings
  import opened Elligator
  import opened VrfSpec

  // ---------- The low-order strings ----------

  const BLACKLIST: seq<seq<byte>> := [
    Octets([0x00, 0x00, 0x00, 0x00], [0x00, 0x00, 0x00, 0x00], [0x00, 0x00, 0x00, 0x00], [0x00, 0x00, 0x00, 0x00],
           [0x00, 0x00, 0x00, 0x00], [0x00, 0x00, 0x00, 0x00], [0x00, 0x00, 0x00, 0x00], [0x00, 0x00, 0x00, 0x00]),
    Octets([0x01, 0x00, 0x00, 0x00], [0x00, 0x00, 0x00, 0x00], [0x00, 0x00, 0x00, 0x00], [0x00, 0x00, 0x00, 0x00],
           [0x00, 0x00, 0x00, 0x00], [0x00, 0x00, 0x00, 0x00], [0x00, 0x00, 0x00, 0x00], [0x00, 0x00, 0x00, 0x00]),
    Octets([0x26, 0xe8, 0x95, 0x8f], [0xc2, 0xb2, 0x27, 0xb0], [0x45, 0xc3, 0xf4, 0x89], [0xf2, 0xef, 0x98, 0xf0],
           [0xd5, 0xdf, 0xac, 0x05], [0xd3, 0xc6, 0x33, 0x39], [0xb1, 0x38, 0x02, 0x88], [0x6d, 0x53, 0xfc, 0x05]),
    Octets([0xc7, 0x17, 0x6a, 0x70], [0x3d, 0x4d, 0xd8, 0x4f], [0xba, 0x3c, 0x0b, 0x76], [0x0d, 0x10, 0x67, 0x0f],
           [0x2a, 0x20, 0x53, 0xfa], [0x2c, 0x39, 0xcc, 0xc6], [0x4e, 0xc7, 0xfd, 0x77], [0x92, 0xac, 0x03, 0x7a]),
    Octets([0xec, 0xff, 0xff, 0xff], [0xff, 0xff, 0xff, 0xff], [0xff, 0xff, 0xff, 0xff], [0xff, 0xff, 0xff, 0xff],
           [0xff, 0xff, 0xff, 0xff], [0xff, 0xff, 0xff, 0xff], [0xff, 0xff, 0xff, 0xff], [0xff, 0xff, 0xff, 0x7f]),
    Octets([0xed, 0xff, 0xff, 0xff], [0xff, 0xff, 0xff, 0xff], [0xff, 0xff, 0xff, 0xff], [0xff, 0xff, 0xff, 0xff],
           [0xff, 0xff, 0xff, 0xff], [0xff, 0xff, 0xff, 0xff], [0xff, 0xff, 0xff, 0xff], [0xff, 0xff, 0xff, 0x7f]),
    Octets([0xee, 0xff, 0xff, 0xff], [0xff, 0xff, 0xff, 0xff], [0xff, 0xff, 0xff, 0xff], [0xff, 0xff, 0xff, 0xff],
           [0xff, 0xff, 0xff, 0xff], [0xff, 0xff, 0xff, 0xff], [0xff, 0xff, 0xff, 0xff], [0xff, 0xff, 0xff, 0x7f])
  ]

  /** s is a listed string, whatever its sign bit. */
  predicate IsSmallOrder(s: seq<byte>) {
    |s| == 32 && exists i :: 0 <= i < |BLACKLIST| && BLACKLIST[i] == WithoutTopBit(s)
  }

  /** The accumulated differences of one listed string. */
  method AccumulatedDifference(s: seq<byte>, row: seq<byte>) returns (c: byte)
    requires |s| == 32 && |row| == 32
    ensures c == 0 <==> row == WithoutTopBit(s)
  {
    hide Xor, Or;
    c := 0;
    for j := 0 to 31
      invariant c == 0 <==> forall k :: 0 <= k < j ==> s[k] == row[k]
    {
      c := Or(c, Xor(s[j], row[j]));
    }
    var low: byte := s[31] % 128;
    c := Or(c, Xor(low, row[31]));
    assert WithoutTopBit(s)[31] == low;
    if c == 0 {
      assert forall k :: 0 <= k < 32 ==> row[k] == WithoutTopBit(s)[k];
    }
  }

  method HasSmallOrder(s: seq<byte>) returns (r: bool)
    requires |s| == 32
    ensures r <==> IsSmallOrder(s)
  {
    r := false;
    for i := 0 to |BLACKLIST|
      invariant r <==> exists j :: 0 <= j < i && BLACKLIST[j] == WithoutTopBit(s)
    {
      RowLength(i);
      var c := AccumulatedDifference(s, BLACKLIST[i]);
      if c == 0 {
        r := true;
      }
    }
  }

  lemma RowLength(i: nat)
    requires i < |BLACKLIST|
    ensures |BLACKLIST[i]| == 32
  {
  }

  // ---------- Hashing to points and challenges ----------

  method HashToCurve(Y: P3, alpha: seq<byte>, hash: Hash, ghost d: int, ghost y: Point)
    returns (ok: bool, h: seq<byte>)
    requires EdwardsCurve(d) && IsHash(hash) && OnCurve(d, y) && Y.Is(y)
    ensures ok <==> HashPoint(d, hash, y, alpha).Some?
    ensures ok ==> OnCurve(d, HashPoint(d, hash, y, alpha).value) && h == PointString(HashPoint(d, hash, y, alpha).value)
  {
    CoordinatesInRange(d, y);
    hide Extended, PointString, Mapped;
    var yString := PointToString(Y, d, y);
    var r := hash([SUITE] + [0x01] + yString + alpha);
    ok, h := GeFromUniform(WithoutTopBit(r[..32]), d);
  }

  /** The point of an encoding we made ourselves always decodes. */
  method DecodeOwn(h: P3, s: seq<byte>, ghost d: int, ghost a: Point)
    requires EdwardsCurve(d) && OnCurve(d, a) && s == PointString(a)
    modifies h
    ensures h.Is(a)
  {
    CoordinatesInRange(d, a);
    StringRoundTrip(d, a);
    hide Extended, PointString, Decoded;
    var ok := FromBytes(h, s, d);
  }

  method HashPoints(hash: Hash, p1: P3, p2: P3, p3: P3, p4: P3,
                    ghost d: int, ghost a1: Point, ghost a2: Point, ghost a3: Point, ghost a4: Point)
    returns (c: seq<byte>)
    requires EdwardsCurve(d) && IsHash(hash)
    requires OnCurve(d, a1) && OnCurve(d, a2) && OnCurve(d, a3) && OnCurve(d, a4)
    requires p1.Is(a1) && p2.Is(a2) && p3.Is(a3) && p4.Is(a4)
    ensures c == Challenge(hash, a1, a2, a3, a4)
  {
    CoordinatesInRange(d, a1);
    CoordinatesInRange(d, a2);
    CoordinatesInRange(d, a3);
    CoordinatesInRange(d, a4);
    hide Extended, PointString;
    var s1 := PointToString(p1, d, a1);
    var s2 := PointToString(p2, d, a2);
    var s3 := PointToString(p3, d, a3);
    var s4 := PointToString(p4, d, a4);
    c := hash([SUITE, 0x02] + s1 + s2 + s3 + s4)[..16];
  }

  /** gamma, c and s out of the eighty octets. */
  method DecodeProof(Gamma: P3, pi: seq<byte>, ghost d: int) returns (ok: bool, c: seq<byte>, s: seq<byte>)
    requires EdwardsCurve(d) && |pi| == 80
    modifies Gamma
    ensures ok <==> StringPoint(d, pi[..32]).Some?
    ensures ok ==> Gamma.Is(StringPoint(d, pi[..32]).value) && c == pi[32..48] && s == pi[48..]
  {
    hide Extended, StringPoint;
    ok := StringToPoint(Gamma, pi[..32], d);
    c, s := pi[32..48], pi[48..80];
  }

  // ---------- Scalars ----------

  /** A 16-octet challenge as the 32-octet scalar the multiplications take. */
  function Widened(c: seq<byte>): (s: seq<byte>)
    requires |c| == 16
    ensures |s| == 32 && s[31] == 0
  {
    c + seq(16, i => 0)
  }

  lemma {:induction false} ZeroOctets(z: seq<byte>)
    requires forall i :: 0 <= i < |z| ==> z[i] == 0
    ensures LeVal(z) == 0
  {
    if z != [] {
      ZeroOctets(z[1..]);
    }
  }

  lemma PaddedValue(c: seq<byte>, z: seq<byte>)
    requires forall i :: 0 <= i < |z| ==> z[i] == 0
    ensures LeVal(c + z) == LeVal(c)
  {
    LeValConcat(c, z);
    ZeroOctets(z);
  }

  lemma WidenedValue(c: seq<byte>)
    requires |c| == 16
    ensures LeVal(Widened(c)) == LeVal(c)
  {
    PaddedValue(c, seq(16, i => 0));
  }

  lemma BelowLFits(s: seq<byte>)
    requires |s| == 32 && LeVal(s) < L
    ensures s[31] <= 127
  {
    LastOctet(s);
    hide LeVal;
  }

  /** sc25519_reduce on a copy of 64 octets; the first 32 of the result. */
  method ReduceCopy(x: seq<byte>) returns (s: seq<byte>)
    requires |x| == 64
    ensures |s| == 32 && LeVal(s) == ModL(LeVal(x)) && s[31] <= 127
  {
    var buffer := new byte[64](i requires 0 <= i < 64 => x[i]);
    assert buffer[..64] == x;
    ScReduce(buffer);
    s := buffer[..32];
    BelowLFits(s);
  }

  method NonceGeneration(trunc: seq<byte>, hString: seq<byte>, hash: Hash, ghost H: Point) returns (k: seq<byte>)
    requires IsHash(hash) && hString == PointString(H)
    ensures |k| == 32 && LeVal(k) == Nonce(hash, trunc, H) && k[31] <= 127
  {
    k := ReduceCopy(hash(trunc + hString));
  }

  // ---------- Keys ----------

  method KeypairFromSeed(seed: seq<byte>, table: seq<seq<Precomp>>, hash: Hash, ghost d: int, ghost base: Point)
    returns (pk: seq<byte>, sk: seq<byte>)
    requires EdwardsCurve(d) && OnCurve(d, base) && IsBaseTable(d, table, base) && IsHash(hash) && |seed| == 32
    ensures pk == PublicKey(d, base, hash, seed) && sk == seed + pk
  {
    var x := Clamped(hash(seed));
    hide Extended, IsBaseTable, PointString, IsHash, Clamped, LeVal;
    var A := new P3();
    GeScalarmultBase(A, x, table, d, base);
    MulOnCurve(d, LeVal(x), base);
    CoordinatesInRange(d, Mul(d, LeVal(x), base));
    pk := PointToString(A, d, Mul(d, LeVal(x), base));
    sk := seed + pk;
  }

  method ExpandSk(Y: P3, skpk: seq<byte>, hash: Hash, ghost d: int) returns (ok: bool, x: seq<byte>, trunc: seq<byte>)
    requires EdwardsCurve(d) && IsHash(hash) && |skpk| == 64
    modifies Y
    ensures x == Clamped(hash(skpk[..32])) && trunc == hash(skpk[..32])[32..]
    ensures ok <==> StringPoint(d, skpk[32..]).Some?
    ensures ok ==> Y.Is(StringPoint(d, skpk[32..]).value)
  {
    var h := hash(skpk[..32]);
    x := Clamped(h);
    trunc := h[32..];
    hide Extended, StringPoint;
    ok := StringToPoint(Y, skpk[32..], d);
  }

  // ---------- Proving ----------

  /** The commitments k B and k H, and the challenge over them. */
  method Commit(H: P3, Gamma: P3, k: seq<byte>, table: seq<seq<Precomp>>, hash: Hash,
                ghost d: int, ghost base: Point, ghost h: Point, ghost gamma: Point)
    returns (c: seq<byte>)
    requires EdwardsCurve(d) && OnCurve(d, base) && IsBaseTable(d, table, base) && IsHash(hash)
    requires OnCurve(d, h) && H.Is(h) && OnCurve(d, gamma) && Gamma.Is(gamma) && |k| == 32 && k[31] <= 127
    ensures c == Challenge(hash, h, gamma, Mul(d, LeVal(k), base), Mul(d, LeVal(k), h))
  {
    hide Extended, IsBaseTable, Challenge, IsHash, LeVal;
    var kB := new P3();
    var kH := new P3();
    GeScalarmultBase(kB, k, table, d, base);
    GeScalarmult(kH, k, H, d, h);
    MulOnCurve(d, LeVal(k), base);
    MulOnCurve(d, LeVal(k), h);
    c := HashPoints(hash, H, Gamma, kB, kH, d, h, gamma, Mul(d, LeVal(k), base), Mul(d, LeVal(k), h));
  }

  /** The proof once H is known. */
  method ProveAt(hString: seq<byte>, x: seq<byte>, trunc: seq<byte>, table: seq<seq<Precomp>>, hash: Hash,
                 ghost d: int, ghost base: Point, ghost h: Point)
    returns (pi: seq<byte>)
    requires EdwardsCurve(d) && OnCurve(d, base) && IsBaseTable(d, table, base) && IsHash(hash)
    requires OnCurve(d, h) && hString == PointString(h) && |x| == 32 && x[31] <= 127
    ensures var k := Nonce(hash, trunc, h);
            var gamma := Mul(d, LeVal(x), h);
            var c := Challenge(hash, h, gamma, Mul(d, k, base), Mul(d, k, h));
            pi == ProofString(gamma, c, Response(c, LeVal(x), k))
  {
    hide Extended, IsBaseTable, Challenge, IsHash, PointString, Nonce, LeVal;
    var H := new P3();
    DecodeOwn(H, hString, d, h);
    var Gamma := new P3();
    GeScalarmult(Gamma, x, H, d, h);
    ghost var gamma := Mul(d, LeVal(x), h);
    MulOnCurve(d, LeVal(x), h);
    CoordinatesInRange(d, gamma);
    var k := NonceGeneration(trunc, hString, hash, h);
    var c := Commit(H, Gamma, k, table, hash, d, base, h, gamma);
    var gString := PointToString(Gamma, d, gamma);
    WidenedValue(c);
    var s := ScMuladd(Widened(c), x, k);
    ResponseMeans(c, LeVal(x), Nonce(hash, trunc, h));
    StringOfValue(s);
    pi := gString + c + s;
  }

  lemma StringOfValue(s: seq<byte>)
    requires |s| == 32
    ensures ToOctets(LeVal(s), 32) == s
  {
    LeValBound(s);
    ToOctetsValue(LeVal(s), 32);
    LeValInjective(ToOctets(LeVal(s), 32), s);
  }

  method VrfProve(Y: P3, x: seq<byte>, trunc: seq<byte>, alpha: seq<byte>, table: seq<seq<Precomp>>, hash: Hash,
                  ghost d: int, ghost base: Point, ghost y: Point)
    returns (r: Outcome<seq<byte>>)
    requires EdwardsCurve(d) && OnCurve(d, base) && IsBaseTable(d, table, base) && IsHash(hash)
    requires OnCurve(d, y) && Y.Is(y) && |x| == 32 && x[31] <= 127
    ensures r == ProofFor(d, base, hash, y, LeVal(x), trunc, alpha)
  {
    hide Extended, IsBaseTable, Challenge, IsHash, PointString, Nonce, LeVal, HashPoint, ProofString;
    var ok, hString := HashToCurve(Y, alpha, hash, d, y);
    if !ok {
      return Abort;
    }
    var pi := ProveAt(hString, x, trunc, table, hash, d, base, HashPoint(d, hash, y, alpha).value);
    r := Success(pi);
  }

  method ProveMessage(skpk: seq<byte>, alpha: seq<byte>, table: seq<seq<Precomp>>, hash: Hash,
                      ghost d: int, ghost base: Point)
    returns (r: Outcome<seq<byte>>)
    requires EdwardsCurve(d) && OnCurve(d, base) && IsBaseTable(d, table, base) && IsHash(hash) && |skpk| == 64
    ensures r == Prove(d, base, hash, skpk, alpha)
  {
    hide Extended, IsBaseTable, IsHash, LeVal, ProofFor, Clamped, StringPoint, Decoded;
    var Y := new P3();
    var ok, x, trunc := ExpandSk(Y, skpk, hash, d);
    if !ok {
      return Failure;
    }
    StringPointOnCurve(d, skpk[32..]);
    r := VrfProve(Y, x, trunc, alpha, table, hash, d, base, StringPoint(d, skpk[32..]).value);
  }

  lemma StringPointOnCurve(d: int, s: seq<byte>)
    requires |s| == 32 && StringPoint(d, s).Some?
    ensures OnCurve(d, StringPoint(d, s).value)
  {
  }

  // ---------- Output and verification ----------

  /** Three additions of a point to itself, in place. */
  method MultiplyByCofactor(p: P3, ghost d: int, ghost a: Point)
    requires EdwardsCurve(d) && OnCurve(d, a) && p.Is(a)
    modifies p
    ensures p.Is(Mul(d, 8, a))
  {
    MulOne(d, a);
    hide Extended;
    AddToItself(p, 1, d, a);
    AddToItself(p, 2, d, a);
    AddToItself(p, 4, d, a);
  }

  method AddToItself(p: P3, ghost k: int, ghost d: int, ghost a: Point)
    requires EdwardsCurve(d) && OnCurve(d, a) && p.Is(Mul(d, k, a))
    modifies p
    ensures p.Is(Mul(d, 2 * k, a))
  {
    hide Extended, Completed, IsCached;
    MulDouble(d, k, a);
    var c := GeP3ToCached(p, d, Mul(d, k, a));
    var t := new P1P1();
    GeAdd(t, p, c, d, Mul(d, k, a), Mul(d, k, a));
    GeP1P1ToP3(p, t, d, Mul(d, 2 * k, a));
  }

  method HashOfProof(pi: seq<byte>, hash: Hash, ghost d: int) returns (r: Outcome<seq<byte>>)
    requires EdwardsCurve(d) && |pi| == 80
    ensures r == ProofToHash(d, hash, pi)
  {
    hide Extended, PointString, StringPoint, Decoded;
    var Gamma := new P3();
    var ok, c, s := DecodeProof(Gamma, pi, d);
    if !ok {
      return Failure;
    }
    StringPointOnCurve(d, pi[..32]);
    ghost var gamma := StringPoint(d, pi[..32]).value;
    MultiplyByCofactor(Gamma, d, gamma);
    MulOnCurve(d, 8, gamma);
    CoordinatesInRange(d, Mul(d, 8, gamma));
    var g := PointToString(Gamma, d, Mul(d, 8, gamma));
    r := Success(hash([SUITE, 0x03] + g));
  }

  method ValidateKey(Y: P3, pk: seq<byte>, ghost d: int) returns (ok: bool)
    requires EdwardsCurve(d) && |pk| == 32
    modifies Y
    ensures ok <==> ValidKey(d, IsSmallOrder, pk).Some?
    ensures ok ==> Y.Is(ValidKey(d, IsSmallOrder, pk).value)
  {
    hide Extended, StringPoint, IsSmallOrder;
    var small := HasSmallOrder(pk);
    if small {
      return false;
    }
    ok := StringToPoint(Y, pk, d);
  }

  /** One of the two recomputed commitments: sp - c q, for sp given. */
  method MinusMultiple(r: P3, sp: P3, c: seq<byte>, q: P3, ghost d: int, ghost a: Point, ghost b: Point)
    requires EdwardsCurve(d) && OnCurve(d, a) && OnCurve(d, b) && sp.Is(a) && q.Is(b)
    requires |c| == 32 && c[31] <= 127 && r != sp && r != q
    modifies r
    ensures r.Is(Add(d, a, Neg(Mul(d, LeVal(c), b))))
  {
    hide Neg, Extended, Completed, IsCached, LeVal;
    ghost var m := Mul(d, LeVal(c), b);
    MulOnCurve(d, LeVal(c), b);
    GeScalarmult(r, c, q, d, b);
    var cached := GeP3ToCached(r, d, m);
    var t := new P1P1();
    GeSub(t, sp, cached, d, a, m);
    GeP1P1ToP3(r, t, d, Add(d, a, Neg(m)));
  }

  /** The challenge recomputed from c and s. */
  method Recompute(H: P3, Gamma: P3, Y: P3, c: seq<byte>, s: seq<byte>, table: seq<seq<Precomp>>, hash: Hash,
                   ghost d: int, ghost base: Point, ghost h: Point, ghost gamma: Point, ghost y: Point)
    returns (r: seq<byte>)
    requires EdwardsCurve(d) && OnCurve(d, base) && IsBaseTable(d, table, base) && IsHash(hash)
    requires OnCurve(d, h) && H.Is(h) && OnCurve(d, gamma) && Gamma.Is(gamma) && OnCurve(d, y) && Y.Is(y)
    requires |c| == 32 && c[31] <= 127 && |s| == 32 && s[31] <= 127
    ensures r == Challenge(hash, h, gamma, Add(d, Mul(d, LeVal(s), base), Neg(Mul(d, LeVal(c), y))),
                           Add(d, Mul(d, LeVal(s), h), Neg(Mul(d, LeVal(c), gamma))))
  {
    hide Neg, Extended, IsBaseTable, Challenge, IsHash, LeVal;
    ghost var sB, sH := Mul(d, LeVal(s), base), Mul(d, LeVal(s), h);
    var tmp := new P3();
    var U := new P3();
    var V := new P3();
    MulOnCurve(d, LeVal(s), base);
    MulOnCurve(d, LeVal(s), h);
    GeScalarmultBase(tmp, s, table, d, base);
    MinusMultiple(U, tmp, c, Y, d, sB, y);
    GeScalarmult(tmp, s, H, d, h);
    MinusMultiple(V, tmp, c, Gamma, d, sH, gamma);
    DifferenceOnCurve(d, sB, LeVal(c), y);
    DifferenceOnCurve(d, sH, LeVal(c), gamma);
    r := HashPoints(hash, H, Gamma, U, V, d, h, gamma,
                    Add(d, sB, Neg(Mul(d, LeVal(c), y))), Add(d, sH, Neg(Mul(d, LeVal(c), gamma))));
  }

  lemma DifferenceOnCurve(d: int, a: Point, c: nat, b: Point)
    requires EdwardsCurve(d) && OnCurve(d, a) && OnCurve(d, b)
    ensures OnCurve(d, Add(d, a, Neg(Mul(d, c, b))))
  {
    hide Neg;
    MulOnCurve(d, c, b);
    NegOnCurve(d, Mul(d, c, b));
    SumOnCurve(d, a, Neg(Mul(d, c, b)));
  }

  /** crypto_verify_16: or together the differences of the sixteen octets. */
  method Verify16(x: seq<byte>, y: seq<byte>) returns (same: bool)
    requires |x| == 16 && |y| == 16
    ensures same <==> x == y
  {
    hide Xor, Or;
    var c: byte := 0;
    for j := 0 to 16
      invariant c == 0 <==> forall k :: 0 <= k < j ==> x[k] == y[k]
    {
      c := Or(c, Xor(x[j], y[j]));
    }
    same := c == 0;
  }

  method ReduceResponse(s: seq<byte>) returns (r: seq<byte>)
    requires |s| == 32
    ensures |r| == 32 && LeVal(r) == ModL(LeVal(s)) && r[31] <= 127
  {
    PaddedValue(s, seq(32, i => 0));
    r := ReduceCopy(s + seq(32, i => 0));
  }

  method VrfVerify(Y: P3, pi: seq<byte>, alpha: seq<byte>, table: seq<seq<Precomp>>, hash: Hash,
                   ghost d: int, ghost base: Point, ghost y: Point)
    returns (r: Outcome<bool>)
    requires EdwardsCurve(d) && OnCurve(d, base) && IsBaseTable(d, table, base) && IsHash(hash)
    requires OnCurve(d, y) && Y.Is(y) && |pi| == 80
    ensures r == Checks(d, base, hash, y, pi, alpha)
  {
    hide Neg, Extended, IsBaseTable, Challenge, IsHash, PointString, LeVal, HashPoint, StringPoint, Decoded, Widened;
    var Gamma := new P3();
    var ok, c, s := DecodeProof(Gamma, pi, d);
    if !ok {
      return Success(false);
    }
    StringPointOnCurve(d, pi[..32]);
    ghost var gamma := StringPoint(d, pi[..32]).value;
    var reduced := ReduceResponse(s);
    var mapped, hString := HashToCurve(Y, alpha, hash, d, y);
    if !mapped {
      return Abort;
    }
    ghost var h := HashPoint(d, hash, y, alpha).value;
    var H := new P3();
    DecodeOwn(H, hString, d, h);
    WidenedValue(c);
    var again := Recompute(H, Gamma, Y, Widened(c), reduced, table, hash, d, base, h, gamma, y);
    var same := Verify16(c, again);
    r := Success(same);
  }

  method VerifyMessage(pk: seq<byte>, pi: seq<byte>, alpha: seq<byte>, table: seq<seq<Precomp>>, hash: Hash,
                       ghost d: int, ghost base: Point)
    returns (r: Outcome<seq<byte>>)
    requires EdwardsCurve(d) && OnCurve(d, base) && IsBaseTable(d, table, base) && IsHash(hash)
    requires |pk| == 32 && |pi| == 80
    ensures r == Verify(d, base, hash, IsSmallOrder, pk, pi, alpha)
  {
    hide Extended, IsBaseTable, IsHash, IsSmallOrder, StringPoint, Decoded, Checks, ProofToHash;
    var Y := new P3();
    var valid := ValidateKey(Y, pk, d);
    if !valid {
      return Failure;
    }
    StringPointOnCurve(d, pk);
    var checked := VrfVerify(Y, pi, alpha, table, hash, d, base, ValidKey(d, IsSmallOrder, pk).value);
    match checked
    case Abort => r := Abort;
    case Failure => r := Failure;
    case Success(ok) =>
      if ok {
        r := HashOfProof(pi, hash, d);
      } else {
        r := Failure;
      }
  }
}
