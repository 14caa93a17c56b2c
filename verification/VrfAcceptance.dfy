/** What verification accepts, as equations between curve points and hashed octets, and what proving
    produces: the functions of VrfSpec characterised without them. */
module VrfAcceptance {
  import opened Bits
  import opened Wrappers
  import opened Arithmetic
  import opened Bytes
  import opened Edwards
  import opened EdwardsGroup
  import opened ScalarLimbs
  import opened Scalars
  import opened PointEncoding
  import opened PointStrings
  import opened Elligator
  import opened ElligatorTotal
  import opened ElligatorMap
  import opened VrfSpec
  import opened KeyOrder
  import opened Vrf

  // ---------- The point of a message ----------

  /** H is eight times what the map makes of the first 32 octets of hash(04 01 Y alpha), their top bit
      cleared. */
  ghost predicate IsMessagePoint(d: int, hash: Hash, Y: Point, alpha: seq<byte>, H: Point)
    requires IsHash(hash)
  {
    var r := hash([0x04, 0x01] + PointString(Y) + alpha)[..32];
    exists q :: MapsTo(d, r[..31] + [r[31] % 128], q) && H == Mul(d, 8, q)
  }

  lemma MessagePointIs(d: int, hash: Hash, Y: Point, alpha: seq<byte>, H: Point)
    requires EdwardsCurve(d) && IsHash(hash)
    ensures HashPoint(d, hash, Y, alpha) == Some(H) <==> IsMessagePoint(d, hash, Y, alpha, H)
    ensures HashPoint(d, hash, Y, alpha).Some?
  {
    var m := [0x04, 0x01] + PointString(Y) + alpha;
    assert [SUITE] + [0x01] + PointString(Y) + alpha == m;
    var r := hash(m)[..32];
    var s := WithoutTopBit(r);
    assert s == r[..31] + [r[31] % 128];
    hide Mapped, MapsTo, PointString;
    NeverAborts(d, s);
    MapIs(d, s, Mapped(d, s).value);
    forall q ensures Mapped(d, s) == Some(q) <==> MapsTo(d, s, q) {
      MapIs(d, s, q);
    }
  }

  // ---------- Acceptance ----------

  /** The 130 octets the challenge is taken from. */
  function Transcript(H: Point, G: Point, U: Point, V: Point): (m: seq<byte>)
    ensures |m| == 130
  {
    [0x04, 0x02] + PointString(H) + PointString(G) + PointString(U) + PointString(V)
  }

  /** The sixteen octets c open to the response s: they are the hash of H, G, s B - c Y, s H - c G. */
  ghost predicate Opens(d: int, base: Point, hash: Hash, Y: Point, H: Point, G: Point, c: seq<byte>, s: int)
    requires IsHash(hash)
  {
    var U := Add(d, Mul(d, s, base), Neg(Mul(d, LeVal(c), Y)));
    var V := Add(d, Mul(d, s, H), Neg(Mul(d, LeVal(c), G)));
    hash(Transcript(H, G, U, V))[..16] == c
  }

  /** The three points of an accepted proof: the key, which survives the cofactor, the point of the
      message and the point of the proof. */
  ghost predicate Convinces(d: int, base: Point, hash: Hash, pk: seq<byte>, pi: seq<byte>, alpha: seq<byte>,
                            Y: Point, H: Point, G: Point)
    requires IsHash(hash) && |pk| == 32 && |pi| == 80
  {
    && Names(d, pk, Y) && Mul(d, 8, Y) != Zero
    && IsMessagePoint(d, hash, Y, alpha, H)
    && Names(d, pi[..32], G)
    && Opens(d, base, hash, Y, H, G, pi[32..48], LeVal(pi[48..]) % L)
  }

  /** The 64 octets of output: hash(04 03, 8 G). */
  ghost predicate IsOutput(d: int, hash: Hash, G: Point, beta: seq<byte>) {
    beta == hash([0x04, 0x03] + PointString(Mul(d, 8, G)))
  }

  /** The points of a proof, as the code computes them. */
  ghost predicate Computes(d: int, hash: Hash, pk: seq<byte>, pi: seq<byte>, alpha: seq<byte>,
                           Y: Point, H: Point, G: Point)
    requires IsHash(hash) && |pk| == 32 && |pi| == 80
  {
    && ValidKey(d, IsSmallOrder, pk) == Some(Y) && HashPoint(d, hash, Y, alpha) == Some(H)
    && StringPoint(d, pi[..32]) == Some(G)
  }

  lemma ChecksAre(d: int, base: Point, hash: Hash, Y: Point, pi: seq<byte>, alpha: seq<byte>, H: Point, G: Point)
    requires IsHash(hash) && |pi| == 80
    requires HashPoint(d, hash, Y, alpha) == Some(H) && StringPoint(d, pi[..32]) == Some(G)
    ensures Checks(d, base, hash, Y, pi, alpha) ==
            Success(Opens(d, base, hash, Y, H, G, pi[32..48], LeVal(pi[48..]) % L))
  {
    ModLIs(LeVal(pi[48..]));
    hide HashPoint, StringPoint, LeVal, PointString;
    var c, s := pi[32..48], LeVal(pi[48..]) % L;
    var U := Add(d, Mul(d, s, base), Neg(Mul(d, LeVal(c), Y)));
    var V := Add(d, Mul(d, s, H), Neg(Mul(d, LeVal(c), G)));
    assert [SUITE, 0x02] + PointString(H) + PointString(G) + PointString(U) + PointString(V) == Transcript(H, G, U, V);
  }

  lemma VerdictIs(d: int, base: Point, hash: Hash, pk: seq<byte>, pi: seq<byte>, alpha: seq<byte>,
                  Y: Point, H: Point, G: Point)
    requires IsHash(hash) && |pk| == 32 && |pi| == 80 && Computes(d, hash, pk, pi, alpha, Y, H, G)
    ensures Verify(d, base, hash, IsSmallOrder, pk, pi, alpha) ==
            if Opens(d, base, hash, Y, H, G, pi[32..48], LeVal(pi[48..]) % L)
            then Success(hash([0x04, 0x03] + PointString(Mul(d, 8, G)))) else Failure
  {
    ChecksAre(d, base, hash, Y, pi, alpha, H, G);
    hide ValidKey, HashPoint, StringPoint, Checks, LeVal, PointString, Opens;
  }

  /** A valid key names a point that survives the cofactor. */
  lemma KeyNames(d: int, pk: seq<byte>, Y: Point)
    requires EdwardsCurve(d) && |pk| == 32
    ensures ValidKey(d, IsSmallOrder, pk) == Some(Y) <==> Names(d, pk, Y) && Mul(d, 8, Y) != Zero
  {
    ValidKeys(d, pk, Y);
    NamesIs(d, pk, Y);
    hide ValidKey, StringPoint, Names;
  }

  /** What the key and the proof of an accepted call name. */
  lemma AcceptedPoints(d: int, base: Point, hash: Hash, pk: seq<byte>, pi: seq<byte>, alpha: seq<byte>)
    returns (Y: Point, H: Point, G: Point)
    requires EdwardsCurve(d) && IsHash(hash) && |pk| == 32 && |pi| == 80
    ensures !Verify(d, base, hash, IsSmallOrder, pk, pi, alpha).Abort?
    ensures Verify(d, base, hash, IsSmallOrder, pk, pi, alpha).Success? ==> Computes(d, hash, pk, pi, alpha, Y, H, G)
  {
    Y, H, G := Zero, Zero, Zero;
    hide HashPoint, StringPoint, ValidKey, IsMessagePoint, OutputHash, PointString, Opens;
    if ValidKey(d, IsSmallOrder, pk).Some? {
      Y := ValidKey(d, IsSmallOrder, pk).value;
      MessagePointIs(d, hash, Y, alpha, H);
      H := HashPoint(d, hash, Y, alpha).value;
      if StringPoint(d, pi[..32]).Some? {
        G := StringPoint(d, pi[..32]).value;
        VerdictIs(d, base, hash, pk, pi, alpha, Y, H, G);
      }
    }
  }

  /** Verification accepts exactly the proofs with such points, and returns the output of the third. */
  lemma AcceptanceIs(d: int, base: Point, hash: Hash, pk: seq<byte>, pi: seq<byte>, alpha: seq<byte>, beta: seq<byte>)
    requires EdwardsCurve(d) && IsHash(hash) && |pk| == 32 && |pi| == 80
    ensures Verify(d, base, hash, IsSmallOrder, pk, pi, alpha) == Success(beta) <==>
            exists Y, H, G :: Convinces(d, base, hash, pk, pi, alpha, Y, H, G) && IsOutput(d, hash, G, beta)
    ensures !Verify(d, base, hash, IsSmallOrder, pk, pi, alpha).Abort?
  {
    var Y0, H0, G0 := AcceptedPoints(d, base, hash, pk, pi, alpha);
    hide Verify, PointString, LeVal, Names, IsMessagePoint, Opens, ValidKey, HashPoint, StringPoint;
    if Verify(d, base, hash, IsSmallOrder, pk, pi, alpha) == Success(beta) {
      KeyNames(d, pk, Y0);
      NamesIs(d, pi[..32], G0);
      MessagePointIs(d, hash, Y0, alpha, H0);
      VerdictIs(d, base, hash, pk, pi, alpha, Y0, H0, G0);
      assert Convinces(d, base, hash, pk, pi, alpha, Y0, H0, G0);
    }
    if Y, H, G :| Convinces(d, base, hash, pk, pi, alpha, Y, H, G) && IsOutput(d, hash, G, beta) {
      KeyNames(d, pk, Y);
      NamesIs(d, pi[..32], G);
      MessagePointIs(d, hash, Y, alpha, H);
      VerdictIs(d, base, hash, pk, pi, alpha, Y, H, G);
    }
  }

  // ---------- Proving ----------

  const TWO_254: int := 0x4000_0000_0000_0000_0000_0000_0000_0000_0000_0000_0000_0000_0000_0000_0000_0000

  /** Bits 3 to 253 of the first half of the hashed seed, under bit 254. */
  function SecretOf(h: seq<byte>): (x: int)
    requires |h| == 64
  {
    TWO_254 + LeVal(h[..32]) % TWO_254 - h[0] % 8
  }

  lemma ClampedTop(low: int, first: int, last: int)
    requires 0 <= low && 256 * low + first < TWO_248 && 0 <= first < 256 && 0 <= last < 256
    ensures 256 * low + (first - first % 8) + TWO_248 * (last % 64 + 64) ==
            TWO_254 + (256 * low + first + TWO_248 * last) % TWO_254 - first % 8
  {
    var n := 256 * low + first;
    DivUnique(n + TWO_248 * last, TWO_254, last / 64, n + TWO_248 * (last % 64));
  }

  lemma Ends(s: seq<byte>)
    requires |s| == 32
    ensures LeVal(s) == 256 * LeVal(s[1..31]) + s[0] + TWO_248 * (s[31] as int)
    ensures 256 * LeVal(s[1..31]) + s[0] < TWO_248
  {
    var r := s[..31];
    LastOctet(s);
    LeValBound(r);
    ThirtyOne();
    assert r[1..] == s[1..31];
    assert LeVal(r) == r[0] + 256 * LeVal(r[1..]);
  }

  lemma ClampedValue(r: seq<byte>, s: seq<byte>)
    requires |r| == |s| == 32 && s[0] == r[0] - r[0] % 8 && s[31] == r[31] % 64 + 64 && s[1..31] == r[1..31]
    ensures LeVal(s) == TWO_254 + LeVal(r) % TWO_254 - r[0] % 8
  {
    Ends(r);
    Ends(s);
    hide LeVal;
    ClampedTop(LeVal(r[1..31]), r[0], r[31]);
  }

  lemma ScalarIs(h: seq<byte>)
    requires |h| == 64
    ensures LeVal(Clamped(h)) == SecretOf(h)
  {
    hide LeVal, And, Or;
    ClampOctets(h[0], h[31]);
    var r := h[..32];
    ClampedValue(r, r[0 := And(h[0], 248)][31 := Or(And(h[31], 127), 64)]);
  }

  /** pi is the proof for alpha: the point x H, the hash of it with k B and k H, and c x + k; the nonce k
      is hashed from H and the second half of the hashed seed. */
  ghost predicate Proves(d: int, base: Point, hash: Hash, skpk: seq<byte>, alpha: seq<byte>, pi: seq<byte>,
                         Y: Point, H: Point)
    requires IsHash(hash) && |skpk| == 64
  {
    var h := hash(skpk[..32]);
    var x, k := SecretOf(h), LeVal(hash(h[32..] + PointString(H))) % L;
    && Names(d, skpk[32..], Y) && IsMessagePoint(d, hash, Y, alpha, H)
    && |pi| == 80 && pi[..32] == PointString(Mul(d, x, H))
    && pi[32..48] == hash(Transcript(H, Mul(d, x, H), Mul(d, k, base), Mul(d, k, H)))[..16]
    && LeVal(pi[48..]) == (LeVal(pi[32..48]) * x + k) % L
  }

  lemma ProofStringIs(Gamma: Point, c: seq<byte>, s: nat, pi: seq<byte>)
    requires |c| == 16 && s < L
    ensures pi == ProofString(Gamma, c, s) <==>
            |pi| == 80 && pi[..32] == PointString(Gamma) && pi[32..48] == c && LeVal(pi[48..]) == s
  {
    ProofParts(Gamma, c, s);
    hide ProofString, PointString, LeVal;
    var q := ProofString(Gamma, c, s);
    if |pi| == 80 && pi[..32] == PointString(Gamma) && pi[32..48] == c && LeVal(pi[48..]) == s {
      LeValInjective(pi[48..], q[48..]);
      assert pi == pi[..32] + pi[32..48] + pi[48..];
      assert q == q[..32] + q[32..48] + q[48..];
    }
  }

  lemma ProofForIs(d: int, base: Point, hash: Hash, Y: Point, x: nat, trunc: seq<byte>, alpha: seq<byte>, H: Point,
                   pi: seq<byte>)
    requires IsHash(hash) && HashPoint(d, hash, Y, alpha) == Some(H)
    ensures var k := LeVal(hash(trunc + PointString(H))) % L;
            ProofFor(d, base, hash, Y, x, trunc, alpha) == Success(pi) <==>
            (|pi| == 80 && pi[..32] == PointString(Mul(d, x, H)) &&
            pi[32..48] == hash(Transcript(H, Mul(d, x, H), Mul(d, k, base), Mul(d, k, H)))[..16] &&
            LeVal(pi[48..]) == (LeVal(pi[32..48]) * x + k) % L)
    ensures ProofFor(d, base, hash, Y, x, trunc, alpha).Success?
  {
    var G, k := Mul(d, x, H), Nonce(hash, trunc, H);
    ModLIs(LeVal(hash(trunc + PointString(H))));
    var U, V := Mul(d, k, base), Mul(d, k, H);
    hide LeVal, PointString;
    assert [SUITE, 0x02] + PointString(H) + PointString(G) + PointString(U) + PointString(V) == Transcript(H, G, U, V);
    var c := Challenge(hash, H, G, U, V);
    hide HashPoint, Nonce, Challenge, Transcript, ProofString;
    ResponseMeans(c, x, k);
    ModLIs(LeVal(c) * x + k);
    ProofStringIs(G, c, Response(c, x, k), pi);
  }

  /** With the key and the message point that are computed. */
  lemma ProofFrom(d: int, base: Point, hash: Hash, skpk: seq<byte>, alpha: seq<byte>, Y: Point, H: Point, pi: seq<byte>)
    requires EdwardsCurve(d) && IsHash(hash) && |skpk| == 64
    ensures Names(d, skpk[32..], Y) && IsMessagePoint(d, hash, Y, alpha, H) ==>
            (Prove(d, base, hash, skpk, alpha) == Success(pi) <==> Proves(d, base, hash, skpk, alpha, pi, Y, H)) &&
            Prove(d, base, hash, skpk, alpha).Success?
  {
    var h := hash(skpk[..32]);
    ScalarIs(h);
    NamesIs(d, skpk[32..], Y);
    MessagePointIs(d, hash, Y, alpha, H);
    hide StringPoint, HashPoint, Names, IsMessagePoint, LeVal, SecretOf, Clamped, ProofFor, PointString, Transcript;
    if Names(d, skpk[32..], Y) && IsMessagePoint(d, hash, Y, alpha, H) {
      ProofForIs(d, base, hash, Y, SecretOf(h), h[32..], alpha, H, pi);
    }
  }

  lemma ProofNeedsKey(d: int, base: Point, hash: Hash, skpk: seq<byte>, alpha: seq<byte>) returns (Y: Point, H: Point)
    requires EdwardsCurve(d) && IsHash(hash) && |skpk| == 64
    ensures Prove(d, base, hash, skpk, alpha).Failure? ||
            (Names(d, skpk[32..], Y) && IsMessagePoint(d, hash, Y, alpha, H))
  {
    hide StringPoint, HashPoint, Names, IsMessagePoint, ProofFor;
    Y, H := Zero, Zero;
    if StringPoint(d, skpk[32..]).Some? {
      Y := StringPoint(d, skpk[32..]).value;
      NamesIs(d, skpk[32..], Y);
      MessagePointIs(d, hash, Y, alpha, H);
      H := HashPoint(d, hash, Y, alpha).value;
      MessagePointIs(d, hash, Y, alpha, H);
    }
  }

  lemma MessageHasPoint(d: int, hash: Hash, Y: Point, alpha: seq<byte>) returns (H: Point)
    requires EdwardsCurve(d) && IsHash(hash)
    ensures IsMessagePoint(d, hash, Y, alpha, H)
  {
    MessagePointIs(d, hash, Y, alpha, Zero);
    hide HashPoint, IsMessagePoint;
    H := HashPoint(d, hash, Y, alpha).value;
    MessagePointIs(d, hash, Y, alpha, H);
  }

  /** Proving never aborts; it fails exactly where the stored public key names no point, and otherwise
      gives the one string with those parts. */
  lemma ProofIs(d: int, base: Point, hash: Hash, skpk: seq<byte>, alpha: seq<byte>, pi: seq<byte>)
    requires EdwardsCurve(d) && IsHash(hash) && |skpk| == 64
    ensures Prove(d, base, hash, skpk, alpha) == Success(pi) <==>
            exists Y, H :: Proves(d, base, hash, skpk, alpha, pi, Y, H)
    ensures Prove(d, base, hash, skpk, alpha).Failure? <==> !exists Y :: Names(d, skpk[32..], Y)
    ensures !Prove(d, base, hash, skpk, alpha).Abort?
  {
    var Y0, H0 := ProofNeedsKey(d, base, hash, skpk, alpha);
    ProofFrom(d, base, hash, skpk, alpha, Y0, H0, pi);
    if Y :| Names(d, skpk[32..], Y) {
      var H := MessageHasPoint(d, hash, Y, alpha);
      ProofFrom(d, base, hash, skpk, alpha, Y, H, pi);
    }
    if Y, H :| Proves(d, base, hash, skpk, alpha, pi, Y, H) {
      ProofFrom(d, base, hash, skpk, alpha, Y, H, pi);
    }
    hide Prove, Names, IsMessagePoint, Proves;
  }

  // ---------- Outputs and keys ----------

  /** Anyone gets the output of a proof from the point it names, checked or not. */
  lemma OutputIs(d: int, hash: Hash, pi: seq<byte>, beta: seq<byte>)
    requires EdwardsCurve(d) && |pi| == 80
    ensures ProofToHash(d, hash, pi) == Success(beta) <==> exists G :: Names(d, pi[..32], G) && IsOutput(d, hash, G, beta)
    ensures ProofToHash(d, hash, pi).Failure? <==> !exists G :: Names(d, pi[..32], G)
    ensures !ProofToHash(d, hash, pi).Abort?
  {
    forall G ensures StringPoint(d, pi[..32]) == Some(G) <==> Names(d, pi[..32], G) {
      NamesIs(d, pi[..32], G);
    }
    hide StringPoint, Names, PointString;
    if StringPoint(d, pi[..32]).Some? {
      var G := StringPoint(d, pi[..32]).value;
      assert Names(d, pi[..32], G);
    }
  }

  /** The public key of a seed names its secret multiple of the base point, with the sign of a zero x
      clear. */
  lemma KeyIs(d: int, base: Point, hash: Hash, seed: seq<byte>, pk: seq<byte>)
    requires EdwardsCurve(d) && OnCurve(d, base) && IsHash(hash)
    ensures var Y := Mul(d, SecretOf(hash(seed)), base);
            pk == PublicKey(d, base, hash, seed) <==>
            |pk| == 32 && Names(d, pk, Y) && (Y.x == 0 ==> pk[31] < 128)
  {
    var Y := Mul(d, SecretOf(hash(seed)), base);
    ScalarIs(hash(seed));
    MulOnCurve(d, SecretOf(hash(seed)), base);
    CoordinatesInRange(d, Y);
    StringRoundTrip(d, Y);
    hide PointString, StringPoint, Names, SecretOf, Clamped;
    NamesIs(d, PointString(Y), Y);
    PointRoundTrip(d, PointString(Y), Y);
    if |pk| == 32 && Names(d, pk, Y) {
      NamesIs(d, pk, Y);
      PointRoundTrip(d, pk, Y);
    }
  }
}
