/** ECVRF-ED25519-SHA512-Elligator2 of draft-irtf-cfrg-vrf-03 over the curve group: key
    derivation, proving (section 5.1), proof to hash (5.2) and verification (5.3) as functions
    of octet strings, and the completeness of the scheme. */
module VrfSpec {
  import opened Bits
  import opened Wrappers
  import opened Arithmetic
  import opened Bytes
  import opened Edwards
  import opened EdwardsGroup
  import opened GroupOrder
  import opened ScalarLimbs
  import opened Scalars
  import opened PointStrings
  import opened Elligator

  /** Success; an error return; or the abort inside the Elligator map. */
  datatype Outcome<T> = Success(value: T) | Failure | Abort

  type Hash = seq<byte> -> seq<byte>

  ghost predicate IsHash(hash: Hash) {
    forall m :: |hash(m)| == 64
  }

  const SUITE: byte := 0x04

  // ---------- Strings ----------

  function WithoutTopBit(r: seq<byte>): (s: seq<byte>)
    requires |r| == 32
    ensures |s| == 32
  {
    r[31 := r[31] % 128]
  }

  /** The 32 octets of the scalar: & 248 on the first, & 127 and | 64 on the last. */
  function Clamped(h: seq<byte>): (s: seq<byte>)
    requires |h| == 64
    ensures |s| == 32 && s[31] <= 127
  {
    ClampOctets(h[0], h[31]);
    h[..32][0 := And(h[0], 248)][31 := Or(And(h[31], 127), 64)]
  }

  /** Section 5.4.1.2: the point a message hashes to, or None where the map aborts. */
  ghost function HashPoint(d: int, hash: Hash, Y: Point, alpha: seq<byte>): Option<Point>
    requires IsHash(hash)
  {
    match Mapped(d, WithoutTopBit(hash([SUITE] + [0x01] + PointString(Y) + alpha)[..32]))
    case None => None
    case Some(q) => Some(Mul(d, 8, q))
  }

  /** Section 5.4.3: the sixteen challenge octets. */
  function Challenge(hash: Hash, p1: Point, p2: Point, p3: Point, p4: Point): (c: seq<byte>)
    requires IsHash(hash)
    ensures |c| == 16
  {
    hash([SUITE, 0x02] + PointString(p1) + PointString(p2) + PointString(p3) + PointString(p4))[..16]
  }

  /** Section 5.4.2.2: the nonce. */
  function Nonce(hash: Hash, trunc: seq<byte>, H: Point): (k: int)
    requires IsHash(hash)
    ensures 0 <= k < L
  {
    ModL(LeVal(hash(trunc + PointString(H))))
  }

  function ResponseAt(depth: nat, c: seq<byte>, x: nat, k: int): (s: int)
    ensures 0 <= s < L
    decreases depth, c, x, k
  {
    if depth == 0 then ModL(LeVal(c) * x + k) else ResponseAt(depth - 1, c, x, k)
  }

  /** c x + k modulo L, folded up. */
  function Response(c: seq<byte>, x: nat, k: int): (s: int)
    ensures 0 <= s < L
  {
    ResponseAt(4, c, x, k)
  }

  lemma ResponseMeans(c: seq<byte>, x: nat, k: int)
    ensures Response(c, x, k) == ModL(LeVal(c) * x + k)
  {
    assert ResponseAt(2, c, x, k) == ResponseAt(0, c, x, k);
    assert ResponseAt(4, c, x, k) == ResponseAt(2, c, x, k);
  }

  function OutputHash(hash: Hash, Gamma: Point, d: int): seq<byte> {
    hash([SUITE, 0x03] + PointString(Mul(d, 8, Gamma)))
  }

  function ProofString(Gamma: Point, c: seq<byte>, s: nat): seq<byte> {
    PointString(Gamma) + c + ToOctets(s, 32)
  }

  // ---------- The four operations ----------

  function SecretScalar(hash: Hash, seed: seq<byte>): nat
    requires IsHash(hash)
  {
    LeVal(Clamped(hash(seed)))
  }

  function PublicKey(d: int, base: Point, hash: Hash, seed: seq<byte>): (pk: seq<byte>)
    requires IsHash(hash)
    ensures |pk| == 32
  {
    PointString(Mul(d, SecretScalar(hash, seed), base))
  }

  /** vrf_prove. */
  ghost function ProofFor(d: int, base: Point, hash: Hash, Y: Point, x: nat, trunc: seq<byte>, alpha: seq<byte>):
    Outcome<seq<byte>>
    requires IsHash(hash)
  {
    match HashPoint(d, hash, Y, alpha)
    case None => Abort
    case Some(H) =>
      var Gamma := Mul(d, x, H);
      var k := Nonce(hash, trunc, H);
      var c := Challenge(hash, H, Gamma, Mul(d, k, base), Mul(d, k, H));
      Success(ProofString(Gamma, c, Response(c, x, k)))
  }

  /** crypto_vrf_ietfdraft03_prove on a 64-octet seed and public key. */
  ghost function Prove(d: int, base: Point, hash: Hash, skpk: seq<byte>, alpha: seq<byte>): Outcome<seq<byte>>
    requires IsHash(hash) && |skpk| == 64
  {
    var h := hash(skpk[..32]);
    match StringPoint(d, skpk[32..])
    case None => Failure
    case Some(Y) => ProofFor(d, base, hash, Y, LeVal(Clamped(h)), h[32..], alpha)
  }

  /** crypto_vrf_ietfdraft03_proof_to_hash. */
  ghost function ProofToHash(d: int, hash: Hash, pi: seq<byte>): Outcome<seq<byte>>
    requires |pi| == 80
  {
    match StringPoint(d, pi[..32])
    case None => Failure
    case Some(Gamma) => Success(OutputHash(hash, Gamma, d))
  }

  /** vrf_verify: true, false or the abort. */
  ghost function Checks(d: int, base: Point, hash: Hash, Y: Point, pi: seq<byte>, alpha: seq<byte>): Outcome<bool>
    requires IsHash(hash) && |pi| == 80
  {
    match StringPoint(d, pi[..32])
    case None => Success(false)
    case Some(Gamma) =>
      var c, s := pi[32..48], ModL(LeVal(pi[48..]));
      match HashPoint(d, hash, Y, alpha)
      case None => Abort
      case Some(H) =>
        var U := Add(d, Mul(d, s, base), Neg(Mul(d, LeVal(c), Y)));
        var V := Add(d, Mul(d, s, H), Neg(Mul(d, LeVal(c), Gamma)));
        Success(Challenge(hash, H, Gamma, U, V) == c)
  }

  /** vrf_validate_key, for a given low-order test. */
  ghost function ValidKey(d: int, smallOrder: seq<byte> -> bool, pk: seq<byte>): Option<Point>
    requires |pk| == 32
  {
    if smallOrder(pk) then None else StringPoint(d, pk)
  }

  /** crypto_vrf_ietfdraft03_verify. */
  ghost function Verify(d: int, base: Point, hash: Hash, smallOrder: seq<byte> -> bool,
                        pk: seq<byte>, pi: seq<byte>, alpha: seq<byte>): Outcome<seq<byte>>
    requires IsHash(hash) && |pk| == 32 && |pi| == 80
  {
    match ValidKey(d, smallOrder, pk)
    case None => Failure
    case Some(Y) =>
      match Checks(d, base, hash, Y, pi, alpha)
      case Success(ok) => if ok then ProofToHash(d, hash, pi) else Failure
      case Failure => Failure
      case Abort => Abort
  }

  // ---------- Completeness ----------

  /** Multiples of a point killed by L only depend on the scalar modulo L. */
  lemma MulModL(d: int, n: nat, a: Point)
    requires EdwardsCurve(d) && OnCurve(d, a) && KilledBy(d, L, a)
    ensures Mul(d, ModL(n), a) == Mul(d, n, a)
  {
    ModLIs(n);
    MulMod(d, n, L, a);
  }

  /** (c x + k) a - c (x a) = k a. */
  lemma ResponseCancels(d: int, a: Point, c: nat, x: nat, k: nat)
    requires EdwardsCurve(d) && OnCurve(d, a) && KilledBy(d, L, a)
    ensures c * x + k >= 0
    ensures Add(d, Mul(d, ModL(c * x + k), a), Neg(Mul(d, c, Mul(d, x, a)))) == Mul(d, k, a)
  {
    ProductNonNegative(c, x);

    MulModL(d, c * x + k, a);
    MulMulNat(d, c, x, a);
    MulNeg(d, c * x, a);
    MulAdd(d, c * x + k, -(c * x), a);
  }

  /** What the map reaches, times the cofactor, lies in the subgroup of order L. */
  lemma HashPointInSubgroup(d: int, base: Point, hash: Hash, Y: Point, alpha: seq<byte>)
    requires EdwardsCurve(d) && GroupOrders(d, base) && IsHash(hash) && HashPoint(d, hash, Y, alpha).Some?
    ensures OnCurve(d, HashPoint(d, hash, Y, alpha).value) && KilledBy(d, L, HashPoint(d, hash, Y, alpha).value)
  {
    var q := Mapped(d, WithoutTopBit(hash([SUITE] + [0x01] + PointString(Y) + alpha)[..32])).value;

    MulOnCurve(d, 8, q);
    MulMulNat(d, L, 8, q);
    CurveExponent(d, base, q);
  }

  lemma ProofParts(Gamma: Point, c: seq<byte>, s: nat)
    requires |c| == 16 && s < L
    ensures var pi := ProofString(Gamma, c, s);
            |pi| == 80 && pi[..32] == PointString(Gamma) && pi[32..48] == c && LeVal(pi[48..]) == s
  {
    var pi := ProofString(Gamma, c, s);
    Weight32();
    hide ToOctets, Pow256, LeVal, PointString;
    ToOctetsValue(s, 32);
    assert pi[48..] == ToOctets(s, 32);
  }

  /** A derived public key decodes to the secret multiple of the base point. */
  lemma PublicKeyDecodes(d: int, base: Point, hash: Hash, seed: seq<byte>)
    requires EdwardsCurve(d) && GroupOrders(d, base) && IsHash(hash)
    ensures StringPoint(d, PublicKey(d, base, hash, seed)) == Some(Mul(d, SecretScalar(hash, seed), base))
    ensures OnCurve(d, Mul(d, SecretScalar(hash, seed), base))
  {
    hide SecretScalar;
    MulOnCurve(d, SecretScalar(hash, seed), base);
    CoordinatesInRange(d, Mul(d, SecretScalar(hash, seed), base));
    StringRoundTrip(d, Mul(d, SecretScalar(hash, seed), base));
  }

  lemma ReducedTwice(x: int)
    ensures ModL(ModL(x)) == ModL(x)
  {
    ModLUnique(ModL(x), 0, ModL(x));
  }

  /** The verifier recomputes exactly the two points the prover committed to. */
  lemma HonestChecks(d: int, base: Point, hash: Hash, x: nat, trunc: seq<byte>, alpha: seq<byte>, pi: seq<byte>)
    requires EdwardsCurve(d) && GroupOrders(d, base) && IsHash(hash)
    requires ProofFor(d, base, hash, Mul(d, x, base), x, trunc, alpha) == Success(pi)
    ensures |pi| == 80 && Checks(d, base, hash, Mul(d, x, base), pi, alpha) == Success(true)
    ensures StringPoint(d, pi[..32]).Some?
    ensures StringPoint(d, pi[..32]).value == Mul(d, x, HashPoint(d, hash, Mul(d, x, base), alpha).value)
  {
    var Y := Mul(d, x, base);
    var H := HashPoint(d, hash, Y, alpha).value;
    HashPointInSubgroup(d, base, hash, Y, alpha);
    hide HashPoint, PointString, IsHash;
    var Gamma, k := Mul(d, x, H), Nonce(hash, trunc, H);
    var c := Challenge(hash, H, Gamma, Mul(d, k, base), Mul(d, k, H));
    var s := Response(c, x, k);
    ResponseMeans(c, x, k);
    ProofParts(Gamma, c, s);
    hide ProofString, Challenge, Nonce, LeVal;
    MulOnCurve(d, x, H);
    CoordinatesInRange(d, Gamma);
    StringRoundTrip(d, Gamma);
    ReducedTwice(LeVal(c) * x + k);
    ResponseCancels(d, base, LeVal(c), x, k);
    ResponseCancels(d, H, LeVal(c), x, k);
  }

  /** The output a key and a message determine. */
  ghost function HonestOutput(d: int, base: Point, hash: Hash, seed: seq<byte>, alpha: seq<byte>): Outcome<seq<byte>>
    requires IsHash(hash)
  {
    var x := SecretScalar(hash, seed);
    match HashPoint(d, hash, Mul(d, x, base), alpha)
    case None => Abort
    case Some(H) => Success(OutputHash(hash, Mul(d, x, H), d))
  }

  /** pi verifies under pk and yields beta, from the verifier and from the proof alone. */
  ghost predicate Accepted(d: int, base: Point, hash: Hash, smallOrder: seq<byte> -> bool,
                           pk: seq<byte>, pi: seq<byte>, alpha: seq<byte>, beta: Outcome<seq<byte>>)
    requires IsHash(hash) && |pk| == 32
  {
    |pi| == 80 && Verify(d, base, hash, smallOrder, pk, pi, alpha) == beta && ProofToHash(d, hash, pi) == beta
  }

  /** Completeness: for every seed and message, unless the public key is one of the listed low-order
      strings, the proof of its owner verifies and yields the hash of eight times x H. */
  lemma Completeness(d: int, base: Point, hash: Hash, smallOrder: seq<byte> -> bool, seed: seq<byte>, alpha: seq<byte>)
    requires EdwardsCurve(d) && GroupOrders(d, base) && IsHash(hash) && |seed| == 32
    requires !smallOrder(PublicKey(d, base, hash, seed))
    ensures var pk := PublicKey(d, base, hash, seed);
            var beta := HonestOutput(d, base, hash, seed, alpha);
            match Prove(d, base, hash, seed + pk, alpha)
            case Failure => false
            case Abort => beta == Abort
            case Success(pi) => beta.Success? && Accepted(d, base, hash, smallOrder, pk, pi, alpha, beta)
  {
    var pk := PublicKey(d, base, hash, seed);
    var x := SecretScalar(hash, seed);
    var skpk := seed + pk;
    assert skpk[..32] == seed && skpk[32..] == pk;
    PublicKeyDecodes(d, base, hash, seed);
    hide HashPoint, PublicKey, OutputHash, IsHash, Checks;
    var r := Prove(d, base, hash, skpk, alpha);
    if r.Success? {
      HonestChecks(d, base, hash, x, hash(seed)[32..], alpha, r.value);
    }
  }
}
