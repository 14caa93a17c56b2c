/** What an accepted proof commits its owner to.  Two proofs accepted under one key with the same
    challenge are the same answer or show two transcripts with one truncated hash; and a point with the
    wrong output answers at most one of the 2^128 challenges of a transcript. */
module VrfSoundness {
  import opened Bytes
  import opened Edwards
  import opened EdwardsGroup
  import opened GroupOrder
  import opened ScalarLimbs
  import opened PointStrings
  import opened ElligatorMap
  import opened VrfSpec
  import opened VrfAcceptance
  import opened Vrf

  // ---------- Transcripts ----------

  /** Encoding tells curve points apart. */
  lemma EncodingInjective(d: int, a: Point, b: Point)
    requires EdwardsCurve(d) && OnCurve(d, a) && OnCurve(d, b) && PointString(a) == PointString(b)
    ensures a == b
  {
    hide PointString, StringPoint;
    CoordinatesInRange(d, a);
    CoordinatesInRange(d, b);
    StringRoundTrip(d, a);
    StringRoundTrip(d, b);
  }

  lemma TranscriptParts(H: Point, G: Point, U: Point, V: Point)
    ensures var m := Transcript(H, G, U, V);
            m[2..34] == PointString(H) && m[34..66] == PointString(G) && m[66..98] == PointString(U) &&
            m[98..] == PointString(V)
  {
    hide PointString;
  }

  ghost predicate FourOnCurve(d: int, H: Point, G: Point, U: Point, V: Point) {
    OnCurve(d, H) && OnCurve(d, G) && OnCurve(d, U) && OnCurve(d, V)
  }

  lemma TranscriptInjective(d: int, H: Point, G: Point, U: Point, V: Point, H': Point, G': Point, U': Point, V': Point)
    requires EdwardsCurve(d) && FourOnCurve(d, H, G, U, V) && FourOnCurve(d, H', G', U', V')
    requires Transcript(H, G, U, V) == Transcript(H', G', U', V')
    ensures H == H' && G == G' && U == U' && V == V'
  {
    TranscriptParts(H, G, U, V);
    TranscriptParts(H', G', U', V');
    hide PointString, Transcript;
    EncodingInjective(d, H, H');
    EncodingInjective(d, G, G');
    EncodingInjective(d, U, U');
    EncodingInjective(d, V, V');
  }

  /** What the message point is hashed from determines the key and the message. */
  lemma MessageOctetsInjective(d: int, Y: Point, alpha: seq<byte>, Y': Point, alpha': seq<byte>)
    requires EdwardsCurve(d) && OnCurve(d, Y) && OnCurve(d, Y')
    requires [0x04, 0x01] + PointString(Y) + alpha == [0x04, 0x01] + PointString(Y') + alpha'
    ensures Y == Y' && alpha == alpha'
  {
    var m, m' := [0x04, 0x01] + PointString(Y) + alpha, [0x04, 0x01] + PointString(Y') + alpha';
    hide PointString;
    assert m[2..34] == PointString(Y) && m[34..] == alpha;
    assert m'[2..34] == PointString(Y') && m'[34..] == alpha';
    EncodingInjective(d, Y, Y');
  }

  /** What the nonce is hashed from determines the secret half and the message point. */
  lemma NonceOctetsInjective(d: int, trunc: seq<byte>, H: Point, trunc': seq<byte>, H': Point)
    requires EdwardsCurve(d) && OnCurve(d, H) && OnCurve(d, H')
    requires |trunc| == |trunc'| && trunc + PointString(H) == trunc' + PointString(H')
    ensures trunc == trunc' && H == H'
  {
    var m, m', n := trunc + PointString(H), trunc' + PointString(H'), |trunc|;
    hide PointString;
    assert m[..n] == trunc && m[n..] == PointString(H);
    assert m'[..n] == trunc' && m'[n..] == PointString(H');
    EncodingInjective(d, H, H');
  }

  // ---------- Linear combinations ----------

  /** s a - c b = t a - e b moves across to (t - s) a = (e - c) b. */
  lemma MovedAcross(d: int, a: Point, b: Point, s: int, c: int, t: int, e: int)
    requires EdwardsCurve(d) && OnCurve(d, a) && OnCurve(d, b)
    requires Add(d, Mul(d, s, a), Neg(Mul(d, c, b))) == Add(d, Mul(d, t, a), Neg(Mul(d, e, b)))
    ensures Mul(d, t - s, a) == Mul(d, e - c, b)
  {
    MulNeg(d, c, b);
    MulNeg(d, e, b);
    Combined(d, a, b, s, -c, -s, e);
    Combined(d, a, b, t, -e, -s, e);
    MulZero(d, a);
    MulZero(d, b);
    MulOnCurve(d, t - s, a);
    MulOnCurve(d, e - c, b);
    ZeroOnCurve(d);
    AddZero(d, Mul(d, t - s, a));
    AddZero(d, Mul(d, e - c, b));
    AddCommutes(d, Zero, Mul(d, e - c, b));
  }

  lemma Combined(d: int, a: Point, b: Point, i: int, j: int, k: int, l: int)
    requires EdwardsCurve(d) && OnCurve(d, a) && OnCurve(d, b)
    ensures Add(d, Add(d, Mul(d, i, a), Mul(d, j, b)), Add(d, Mul(d, k, a), Mul(d, l, b))) ==
            Add(d, Mul(d, i + k, a), Mul(d, j + l, b))
  {
    MulOnCurve(d, i, a);
    MulOnCurve(d, k, a);
    MulOnCurve(d, j, b);
    MulOnCurve(d, l, b);
    Interchange(d, Mul(d, i, a), Mul(d, j, b), Mul(d, k, a), Mul(d, l, b));
    MulAdd(d, i, k, a);
    MulAdd(d, j, l, b);
  }

  /** Below L, the multiples of the base point are different. */
  lemma BaseMultiples(d: int, base: Point, s: int, t: int)
    requires EdwardsCurve(d) && GroupOrders(d, base) && 0 <= s < L && 0 <= t < L && s != t
    ensures Mul(d, s, base) != Mul(d, t, base)
  {
    var i, j := if s < t then s else t, if s < t then t else s;
    assert !KilledBy(d, j - i, base);
    MultiplesDiffer(d, base, i, j);
  }

  // ---------- One challenge, one answer ----------

  /** Two different transcripts with the same sixteen octets of hash. */
  ghost predicate Collide(hash: Hash, m: seq<byte>, n: seq<byte>)
    requires IsHash(hash)
  {
    |m| == |n| == 130 && m != n && hash(m)[..16] == hash(n)[..16]
  }

  ghost predicate HasCollision(hash: Hash)
    requires IsHash(hash)
  {
    exists m, n :: Collide(hash, m, n)
  }

  lemma ResponseMatters(d: int, base: Point, s: int, t: int, C: Point)
    requires EdwardsCurve(d) && GroupOrders(d, base) && OnCurve(d, C) && 0 <= s < L && 0 <= t < L
    requires Add(d, Mul(d, s, base), C) == Add(d, Mul(d, t, base), C)
    ensures s == t
  {
    MulOnCurve(d, s, base);
    MulOnCurve(d, t, base);
    AddThenSubtract(d, Mul(d, s, base), C);
    AddThenSubtract(d, Mul(d, t, base), C);
    if s != t {
      BaseMultiples(d, base, s, t);
    }
  }

  lemma CombinationOnCurve(d: int, a: Point, b: Point, s: int, c: int)
    requires EdwardsCurve(d) && OnCurve(d, a) && OnCurve(d, b)
    ensures OnCurve(d, Add(d, Mul(d, s, a), Neg(Mul(d, c, b)))) && OnCurve(d, Neg(Mul(d, c, b)))
  {
    MulOnCurve(d, s, a);
    MulOnCurve(d, c, b);
    NegOnCurve(d, Mul(d, c, b));
    SumOnCurve(d, Mul(d, s, a), Neg(Mul(d, c, b)));
  }

  /** Two openings of the same sixteen octets under one key agree in everything, or show a collision. */
  lemma SameOpening(d: int, base: Point, hash: Hash, Y: Point, H: Point, G: Point, s: int, H': Point, G': Point, s': int,
                    c: seq<byte>)
    requires EdwardsCurve(d) && GroupOrders(d, base) && IsHash(hash) && OnCurve(d, Y)
    requires OnCurve(d, H) && OnCurve(d, G) && OnCurve(d, H') && OnCurve(d, G') && 0 <= s < L && 0 <= s' < L
    requires Opens(d, base, hash, Y, H, G, c, s) && Opens(d, base, hash, Y, H', G', c, s')
    ensures (H == H' && G == G' && s == s') || HasCollision(hash)
  {
    var e := LeVal(c);
    var U, V := Add(d, Mul(d, s, base), Neg(Mul(d, e, Y))), Add(d, Mul(d, s, H), Neg(Mul(d, e, G)));
    var U', V' := Add(d, Mul(d, s', base), Neg(Mul(d, e, Y))), Add(d, Mul(d, s', H'), Neg(Mul(d, e, G')));
    CombinationOnCurve(d, base, Y, s, e);
    CombinationOnCurve(d, base, Y, s', e);
    CombinationOnCurve(d, H, G, s, e);
    CombinationOnCurve(d, H', G', s', e);
    hide LeVal, Transcript;
    if Transcript(H, G, U, V) == Transcript(H', G', U', V') {
      TranscriptInjective(d, H, G, U, V, H', G', U', V');
      ResponseMatters(d, base, s, s', Neg(Mul(d, e, Y)));
    } else {
      assert Collide(hash, Transcript(H, G, U, V), Transcript(H', G', U', V'));
    }
  }

  // ---------- Accepted twice ----------

  ghost predicate Accepts(d: int, base: Point, hash: Hash, pk: seq<byte>, pi: seq<byte>, alpha: seq<byte>)
    requires IsHash(hash) && |pk| == 32 && |pi| == 80
  {
    Verify(d, base, hash, IsSmallOrder, pk, pi, alpha).Success?
  }

  /** The two proofs name one point and one response, and the two messages have one point. */
  ghost predicate SameAnswer(d: int, hash: Hash, pk: seq<byte>, pi: seq<byte>, alpha: seq<byte>,
                             pi': seq<byte>, alpha': seq<byte>)
    requires IsHash(hash) && |pk| == 32 && |pi| == 80 && |pi'| == 80
  {
    && LeVal(pi[48..]) % L == LeVal(pi'[48..]) % L
    && (forall G :: Names(d, pi[..32], G) <==> Names(d, pi'[..32], G))
    && exists Y, H :: Names(d, pk, Y) && IsMessagePoint(d, hash, Y, alpha, H) && IsMessagePoint(d, hash, Y, alpha', H)
  }

  lemma NamesUnique(d: int, s: seq<byte>, a: Point, b: Point)
    requires EdwardsCurve(d) && |s| == 32 && Names(d, s, a) && Names(d, s, b)
    ensures a == b
  {
    hide StringPoint, Names;
    NamesIs(d, s, a);
    NamesIs(d, s, b);
  }

  lemma ConvincingPoints(d: int, base: Point, hash: Hash, pk: seq<byte>, pi: seq<byte>, alpha: seq<byte>)
    returns (Y: Point, H: Point, G: Point)
    requires EdwardsCurve(d) && IsHash(hash) && |pk| == 32 && |pi| == 80 && Accepts(d, base, hash, pk, pi, alpha)
    ensures Convinces(d, base, hash, pk, pi, alpha, Y, H, G)
    ensures IsOutput(d, hash, G, Verify(d, base, hash, IsSmallOrder, pk, pi, alpha).value)
    ensures OnCurve(d, Y) && OnCurve(d, H) && OnCurve(d, G)
  {
    var beta := Verify(d, base, hash, IsSmallOrder, pk, pi, alpha).value;
    AcceptanceIs(d, base, hash, pk, pi, alpha, beta);
    hide Verify, Opens, IsMessagePoint, Names;
    Y, H, G :| Convinces(d, base, hash, pk, pi, alpha, Y, H, G) && IsOutput(d, hash, G, beta);
    NamesMeans(d, pk, Y);
    NamesMeans(d, pi[..32], G);
    MessagePointOnCurve(d, hash, Y, alpha, H);
  }

  lemma MessagePointOnCurve(d: int, hash: Hash, Y: Point, alpha: seq<byte>, H: Point)
    requires EdwardsCurve(d) && IsHash(hash) && IsMessagePoint(d, hash, Y, alpha, H)
    ensures OnCurve(d, H)
  {
    var r := hash([0x04, 0x01] + PointString(Y) + alpha)[..32];
    hide PointString;
    var q :| MapsTo(d, r[..31] + [r[31] % 128], q) && H == Mul(d, 8, q);
    MulOnCurve(d, 8, q);
  }

  /** Two proofs with the same challenge octets, accepted under one key for whatever messages, are the
      same answer, unless two different transcripts have the same truncated hash. */
  lemma AcceptedTwice(d: int, base: Point, hash: Hash, pk: seq<byte>, pi: seq<byte>, alpha: seq<byte>,
                      pi': seq<byte>, alpha': seq<byte>)
    requires EdwardsCurve(d) && GroupOrders(d, base) && IsHash(hash) && |pk| == 32 && |pi| == 80 && |pi'| == 80
    requires Accepts(d, base, hash, pk, pi, alpha) && Accepts(d, base, hash, pk, pi', alpha')
    requires pi[32..48] == pi'[32..48]
    ensures SameAnswer(d, hash, pk, pi, alpha, pi', alpha') || HasCollision(hash)
  {
    var Y, H, G := ConvincingPoints(d, base, hash, pk, pi, alpha);
    var Y', H', G' := ConvincingPoints(d, base, hash, pk, pi', alpha');
    hide LeVal, Opens, Names, IsMessagePoint, Accepts, IsOutput, HasCollision, OnCurve;
    NamesUnique(d, pk, Y, Y');
    SameOpening(d, base, hash, Y, H, G, LeVal(pi[48..]) % L, H', G', LeVal(pi'[48..]) % L, pi[32..48]);
    if H == H' && G == G' {
      forall F ensures Names(d, pi[..32], F) <==> Names(d, pi'[..32], F) {
        if Names(d, pi[..32], F) {
          NamesUnique(d, pi[..32], F, G);
        }
        if Names(d, pi'[..32], F) {
          NamesUnique(d, pi'[..32], F, G);
        }
      }
    }
  }

  lemma SamePrefix(p: seq<byte>, q: seq<byte>)
    requires |p| == |q| == 80 && p[..48] == q[..48]
    ensures p[..32] == q[..32] && p[32..48] == q[32..48]
  {
    assert p[..48][..32] == p[..32] && q[..48][..32] == q[..32];
    assert p[..48][32..] == p[32..48] && q[..48][32..] == q[32..48];
  }

  lemma SameSuffix(p: seq<byte>, q: seq<byte>)
    requires |p| == |q| == 80 && p[32..] == q[32..]
    ensures p[48..] == q[48..] && p[32..48] == q[32..48]
  {
    assert p[32..][16..] == p[48..] && q[32..][16..] == q[48..];
    assert p[32..][..16] == p[32..48] && q[32..][..16] == q[32..48];
  }

  lemma ResponseModL(d: int, base: Point, hash: Hash, pk: seq<byte>, pi: seq<byte>, alpha: seq<byte>, pi': seq<byte>)
    requires EdwardsCurve(d) && IsHash(hash) && |pk| == 32 && |pi| == 80 && |pi'| == 80
    requires Accepts(d, base, hash, pk, pi, alpha)
    requires pi[..32] == pi'[..32] && pi[32..48] == pi'[32..48] && LeVal(pi[48..]) % L == LeVal(pi'[48..]) % L
    ensures Accepts(d, base, hash, pk, pi', alpha)
  {
    var Y, H, G := ConvincingPoints(d, base, hash, pk, pi, alpha);
    var beta := hash([0x04, 0x03] + PointString(Mul(d, 8, G)));
    hide LeVal, Names, Opens, IsMessagePoint, PointString;
    assert Convinces(d, base, hash, pk, pi', alpha, Y, H, G) && IsOutput(d, hash, G, beta);
    AcceptanceIs(d, base, hash, pk, pi', alpha, beta);
    hide Verify;
  }

  /** With another response an accepted proof stays accepted if the two agree modulo L, and otherwise
      only at the price of a collision. */
  lemma ChangedResponse(d: int, base: Point, hash: Hash, pk: seq<byte>, pi: seq<byte>, pi': seq<byte>, alpha: seq<byte>)
    requires EdwardsCurve(d) && GroupOrders(d, base) && IsHash(hash) && |pk| == 32 && |pi| == 80 && |pi'| == 80
    requires Accepts(d, base, hash, pk, pi, alpha)
    requires pi[..48] == pi'[..48]
    ensures if LeVal(pi[48..]) % L == LeVal(pi'[48..]) % L then Accepts(d, base, hash, pk, pi', alpha)
            else Accepts(d, base, hash, pk, pi', alpha) ==> HasCollision(hash)
  {
    hide LeVal, Names, IsMessagePoint, HasCollision, Accepts;
    SamePrefix(pi, pi');
    if LeVal(pi[48..]) % L == LeVal(pi'[48..]) % L {
      ResponseModL(d, base, hash, pk, pi, alpha, pi');
    } else if Accepts(d, base, hash, pk, pi', alpha) {
      AcceptedTwice(d, base, hash, pk, pi, alpha, pi', alpha);
    }
  }

  /** So with octets that name no point the first 32 name. */
  lemma ChangedPoint(d: int, base: Point, hash: Hash, pk: seq<byte>, pi: seq<byte>, pi': seq<byte>, alpha: seq<byte>)
    requires EdwardsCurve(d) && GroupOrders(d, base) && IsHash(hash) && |pk| == 32 && |pi| == 80 && |pi'| == 80
    requires Accepts(d, base, hash, pk, pi, alpha)
    requires pi[32..] == pi'[32..] && forall G :: Names(d, pi[..32], G) ==> !Names(d, pi'[..32], G)
    ensures Accepts(d, base, hash, pk, pi', alpha) ==> HasCollision(hash)
  {
    hide LeVal, Names, IsMessagePoint, HasCollision;
    SameSuffix(pi, pi');
    if Accepts(d, base, hash, pk, pi', alpha) {
      AcceptedTwice(d, base, hash, pk, pi, alpha, pi', alpha);
      var Y, H, G := ConvincingPoints(d, base, hash, pk, pi, alpha);
    }
  }

  /** And so with a message that has another point. */
  lemma ChangedMessage(d: int, base: Point, hash: Hash, pk: seq<byte>, pi: seq<byte>, alpha: seq<byte>, alpha': seq<byte>)
    requires EdwardsCurve(d) && GroupOrders(d, base) && IsHash(hash) && |pk| == 32 && |pi| == 80
    requires Accepts(d, base, hash, pk, pi, alpha)
    requires forall Y, H :: Names(d, pk, Y) && IsMessagePoint(d, hash, Y, alpha, H) ==>
                            !IsMessagePoint(d, hash, Y, alpha', H)
    ensures Accepts(d, base, hash, pk, pi, alpha') ==> HasCollision(hash)
  {
    hide LeVal, Names, IsMessagePoint, HasCollision, Accepts;
    if Accepts(d, base, hash, pk, pi, alpha') {
      AcceptedTwice(d, base, hash, pk, pi, alpha, pi, alpha');
    }
  }

  // ---------- One output ----------

  /** L is prime. */
  ghost predicate LIsPrime() {
    forall k :: 1 < k < L ==> L % k != 0
  }

  /** What L and a smaller number kill is zero. */
  lemma {:induction false} KilledByBoth(d: int, m: nat, a: Point)
    requires EdwardsCurve(d) && OnCurve(d, a) && LIsPrime() && 0 < m < L && KilledBy(d, m, a) && KilledBy(d, L, a)
    ensures a == Zero
    decreases m
  {
    if m == 1 {
      MulOne(d, a);
    } else {
      MulMod(d, L, m, a);
      KilledByBoth(d, L % m, a);
    }
  }

  /** Only multiples of L kill the base point. */
  lemma OrderDivides(d: int, base: Point, n: int)
    requires EdwardsCurve(d) && GroupOrders(d, base) && KilledBy(d, n, base)
    ensures n % L == 0
  {
    var m: nat := if n >= 0 then n else -n;
    if n < 0 {
      MulNeg(d, n, base);
      NegZero();
    }
    MulMod(d, m, L, base);
    assert !(0 < m % L < L) || !KilledBy(d, m % L, base);
    if n < 0 {
      NegatedMultiple(n);
    }
  }

  lemma NegatedMultiple(n: int)
    requires -n % L == 0
    ensures n % L == 0
  {
  }

  lemma EqualMultiples(d: int, a: Point, i: int, j: int)
    requires EdwardsCurve(d) && OnCurve(d, a)
    ensures Mul(d, i, a) == Mul(d, j, a) <==> KilledBy(d, i - j, a)
  {
    MulAdd(d, i - j, j, a);
    MulOnCurve(d, i - j, a);
    MulOnCurve(d, j, a);
    ZeroOnCurve(d);
    AddZero(d, Mul(d, j, a));
    AddCommutes(d, Zero, Mul(d, j, a));
    AddThenSubtract(d, Mul(d, i - j, a), Mul(d, j, a));
    AddNeg(d, Mul(d, j, a));
  }

  /** What holds of multiples of the base point holds of those of any point L kills. */
  lemma EqualForAll(d: int, base: Point, a: Point, i: int, j: int)
    requires EdwardsCurve(d) && GroupOrders(d, base) && OnCurve(d, a) && KilledBy(d, L, a)
    requires Mul(d, i, base) == Mul(d, j, base)
    ensures Mul(d, i, a) == Mul(d, j, a)
  {
    EqualMultiples(d, base, i, j);
    EqualMultiples(d, a, i, j);
    OrderDivides(d, base, i - j);
    KilledByMultiple(d, a, i - j);
  }

  lemma KilledByMultiple(d: int, a: Point, n: int)
    requires EdwardsCurve(d) && OnCurve(d, a) && KilledBy(d, L, a) && n % L == 0
    ensures KilledBy(d, n, a)
  {
    var q := n / L;
    assert n == q * L;
    if q >= 0 {
      MultipleOfKiller(d, q, L, a);
    } else {
      MultipleOfKiller(d, -q, L, a);
      MulNeg(d, -n, a);
      NegZero();
    }
  }

  /** Below L, multiples can be divided. */
  lemma CancelMultiple(d: int, m: nat, a: Point, b: Point)
    requires EdwardsCurve(d) && OnCurve(d, a) && OnCurve(d, b) && LIsPrime() && 0 < m < L
    requires KilledBy(d, L, a) && KilledBy(d, L, b) && Mul(d, m, a) == Mul(d, m, b)
    ensures a == b
  {
    var c := Add(d, a, Neg(b));
    MulOfDifference(d, m, a, b);
    MulOfDifference(d, L, a, b);
    MulOnCurve(d, m, b);
    AddNeg(d, Mul(d, m, b));
    ZeroOnCurve(d);
    NegZero();
    AddZero(d, Zero);
    KilledByBoth(d, m, c);
    NegOnCurve(d, b);
    NegUnique(d, a, Neg(b));
    NegNeg(d, a);
    NegNeg(d, b);
  }

  lemma NegNeg(d: int, a: Point)
    requires EdwardsCurve(d) && OnCurve(d, a)
    ensures OnCurve(d, Neg(a)) && Neg(Neg(a)) == a
  {
    NegOnCurve(d, a);
    AddNeg(d, a);
    AddCommutes(d, a, Neg(a));
    NegUnique(d, Neg(a), a);
  }

  lemma MulOfDifference(d: int, m: nat, a: Point, b: Point)
    requires EdwardsCurve(d) && OnCurve(d, a) && OnCurve(d, b)
    ensures OnCurve(d, Add(d, a, Neg(b)))
    ensures Mul(d, m, Add(d, a, Neg(b))) == Add(d, Mul(d, m, a), Neg(Mul(d, m, b)))
  {
    NegOnCurve(d, b);
    SumOnCurve(d, a, Neg(b));
    MulOfSum(d, m, a, Neg(b));
    MulOne(d, b);
    MulNeg(d, 1, b);
    MulMulNat(d, m, -1, b);
    MulNeg(d, m, b);
    assert m * -1 == 0 - m;
  }

  /** Every key is x times the base point up to the cofactor. */
  lemma KeyMultiple(d: int, base: Point, Y: Point) returns (x: nat)
    requires EdwardsCurve(d) && GroupOrders(d, base) && OnCurve(d, Y)
    ensures Mul(d, 8, Y) == Mul(d, 8 * x, base)
  {
    var g := Generator(d, base);
    GeneratorMultiple(d, base, 0);
    GeneratorKilled(d, base);
    forall k | 0 < k < 8 * L ensures !KilledBy(d, k, g) {
      GeneratorSurvives(d, base, k);
    }
    OneCoset(d, g, Y);
    var n :| 0 <= n < 8 * L && Mul(d, n, g) == Y;
    x := n;
    MulMulNat(d, 8, x, g);
    GeneratorMultiple(d, base, 8 * x);
    TorsionOrder(d);
    MultipleOfKiller(d, x, 8, Torsion);
    MulOnCurve(d, 8 * x, base);
    AddZero(d, Mul(d, 8 * x, base));
  }

  /** Two challenges answered for one pair of commitments: the point is the right one, up to the
      cofactor. */
  lemma TwoChallenges(d: int, base: Point, x: nat, Y: Point, H: Point, G: Point, s: int, c: int, t: int, e: int)
    requires EdwardsCurve(d) && GroupOrders(d, base) && LIsPrime() && OnCurve(d, Y) && OnCurve(d, G)
    requires OnCurve(d, H) && KilledBy(d, L, H) && Mul(d, 8, Y) == Mul(d, 8 * x, base) && 0 < e - c < L
    requires Add(d, Mul(d, s, base), Neg(Mul(d, c, Y))) == Add(d, Mul(d, t, base), Neg(Mul(d, e, Y)))
    requires Add(d, Mul(d, s, H), Neg(Mul(d, c, G))) == Add(d, Mul(d, t, H), Neg(Mul(d, e, G)))
    ensures Mul(d, 8, G) == Mul(d, 8 * x, H)
  {
    var r, m := t - s, e - c;
    MovedAcross(d, base, Y, s, c, t, e);
    MovedAcross(d, H, G, s, c, t, e);
    EightTimes(d, base, Y, r, m);
    EightTimes(d, H, G, r, m);
    MulMulNat(d, m, 8 * x, base);
    MulMulNat(d, m, 8 * x, H);
    EqualForAll(d, base, H, 8 * r, m * (8 * x));
    MulOnCurve(d, 8, G);
    MulOnCurve(d, 8 * x, H);
    MulMulNat(d, L, 8, G);
    CurveExponent(d, base, G);
    MulMulNat(d, L, 8 * x, H);
    MultipleOfKiller(d, 8 * x, L, H);
    assert L * (8 * x) == 8 * x * L;
    CancelMultiple(d, m, Mul(d, 8, G), Mul(d, 8 * x, H));
  }

  lemma EightTimes(d: int, a: Point, b: Point, r: int, m: nat)
    requires EdwardsCurve(d) && OnCurve(d, a) && OnCurve(d, b) && Mul(d, r, a) == Mul(d, m, b)
    ensures Mul(d, 8 * r, a) == Mul(d, m, Mul(d, 8, b))
  {
    MulMulNat(d, 8, r, a);
    MulMulNat(d, 8, m, b);
    MulMulNat(d, m, 8, b);
    assert 8 * m == m * 8;
  }

  /** Sixteen octets that some response answers, for the commitments U and V. */
  ghost predicate Answerable(d: int, base: Point, Y: Point, H: Point, G: Point, U: Point, V: Point, c: seq<byte>) {
    |c| == 16 && exists s: int :: Answers(d, base, Y, H, G, U, V, c, s)
  }

  ghost predicate Answers(d: int, base: Point, Y: Point, H: Point, G: Point, U: Point, V: Point, c: seq<byte>, s: int) {
    U == Add(d, Mul(d, s, base), Neg(Mul(d, LeVal(c), Y))) && V == Add(d, Mul(d, s, H), Neg(Mul(d, LeVal(c), G)))
  }

  /** A point other than the key's own multiple of H answers one challenge at most. */
  lemma OneChallenge(d: int, base: Point, x: nat, Y: Point, H: Point, G: Point, U: Point, V: Point,
                     c: seq<byte>, e: seq<byte>)
    requires EdwardsCurve(d) && GroupOrders(d, base) && LIsPrime() && OnCurve(d, Y) && OnCurve(d, G)
    requires OnCurve(d, H) && KilledBy(d, L, H) && Mul(d, 8, Y) == Mul(d, 8 * x, base)
    requires Answerable(d, base, Y, H, G, U, V, c) && Answerable(d, base, Y, H, G, U, V, e)
    ensures c == e || Mul(d, 8, G) == Mul(d, 8 * x, H)
  {
    var s :| Answers(d, base, Y, H, G, U, V, c, s);
    var t :| Answers(d, base, Y, H, G, U, V, e, t);
    Sixteen(c);
    Sixteen(e);
    hide LeVal;
    if LeVal(c) == LeVal(e) {
      LeValInjective(c, e);
    } else if LeVal(c) < LeVal(e) {
      TwoChallenges(d, base, x, Y, H, G, s, LeVal(c), t, LeVal(e));
    } else {
      TwoChallenges(d, base, x, Y, H, G, t, LeVal(e), s, LeVal(c));
    }
  }

  lemma Sixteen(c: seq<byte>)
    requires |c| == 16
    ensures LeVal(c) < L
  {
    LeValBound(c);
    assert Pow256(8) == 0x1_0000_0000_0000_0000;
    assert Pow256(16) == 0x1_0000_0000_0000_0000_0000_0000_0000_0000;
  }

  // ---------- The theorem ----------

  /** Of all challenges, pi's is the only one that could have been answered with the point and the
      commitments of pi: its transcript had to hash to it. */
  ghost predicate OnlyChallenge(d: int, base: Point, hash: Hash, pk: seq<byte>, pi: seq<byte>, alpha: seq<byte>)
    requires IsHash(hash) && |pk| == 32 && |pi| == 80
  {
    exists Y, H, G, U, V :: Names(d, pk, Y) && IsMessagePoint(d, hash, Y, alpha, H) && Names(d, pi[..32], G) &&
                            hash(Transcript(H, G, U, V))[..16] == pi[32..48] &&
                            OnlyAnswerable(d, base, Y, H, G, U, V, pi[32..48])
  }

  ghost predicate OnlyAnswerable(d: int, base: Point, Y: Point, H: Point, G: Point, U: Point, V: Point, c: seq<byte>) {
    forall e :: Answerable(d, base, Y, H, G, U, V, e) <==> e == c
  }

  /** The output that belongs to a key and a message: hash(04 03, 8 x H) for 8 Y = 8 x B. */
  ghost predicate BelongsTo(d: int, base: Point, hash: Hash, pk: seq<byte>, alpha: seq<byte>, beta: seq<byte>)
    requires IsHash(hash) && |pk| == 32
  {
    exists Y, H, x: nat :: Names(d, pk, Y) && IsMessagePoint(d, hash, Y, alpha, H) &&
                           Mul(d, 8, Y) == Mul(d, 8 * x, base) && IsOutputOf(d, hash, x, H, beta)
  }

  ghost predicate IsOutputOf(d: int, hash: Hash, x: nat, H: Point, beta: seq<byte>) {
    beta == hash([0x04, 0x03] + PointString(Mul(d, 8 * x, H)))
  }

  lemma MessagePointInSubgroup(d: int, base: Point, hash: Hash, Y: Point, alpha: seq<byte>, H: Point)
    requires EdwardsCurve(d) && GroupOrders(d, base) && IsHash(hash) && IsMessagePoint(d, hash, Y, alpha, H)
    ensures OnCurve(d, H) && KilledBy(d, L, H)
  {
    MessagePointIs(d, hash, Y, alpha, H);
    hide HashPoint, IsMessagePoint;
    HashPointInSubgroup(d, base, hash, Y, alpha);
  }

  /** An accepted proof yields the output that belongs to the key and the message, or it answered the
      only challenge it could have. */
  lemma OutputOrLuck(d: int, base: Point, hash: Hash, pk: seq<byte>, pi: seq<byte>, alpha: seq<byte>, beta: seq<byte>)
    requires EdwardsCurve(d) && GroupOrders(d, base) && LIsPrime() && IsHash(hash) && |pk| == 32 && |pi| == 80
    requires Verify(d, base, hash, IsSmallOrder, pk, pi, alpha) == Success(beta)
    ensures BelongsTo(d, base, hash, pk, alpha, beta) || OnlyChallenge(d, base, hash, pk, pi, alpha)
  {
    var Y, H, G := ConvincingPoints(d, base, hash, pk, pi, alpha);
    var c, s := pi[32..48], LeVal(pi[48..]) % L;
    var U := Add(d, Mul(d, s, base), Neg(Mul(d, LeVal(c), Y)));
    var V := Add(d, Mul(d, s, H), Neg(Mul(d, LeVal(c), G)));
    hide Verify, LeVal, Names, IsMessagePoint, Transcript, PointString, LIsPrime, GroupOrders;
    var x := KeyMultiple(d, base, Y);
    MessagePointInSubgroup(d, base, hash, Y, alpha, H);
    assert Answers(d, base, Y, H, G, U, V, c, s);
    if Mul(d, 8, G) == Mul(d, 8 * x, H) {
      assert IsOutputOf(d, hash, x, H, beta);
    } else {
      forall e | Answerable(d, base, Y, H, G, U, V, e) ensures e == c {
        OneChallenge(d, base, x, Y, H, G, U, V, c, e);
      }
      assert OnlyAnswerable(d, base, Y, H, G, U, V, c);
    }
  }

  /** There is one such output. */
  lemma OutputIsUnique(d: int, base: Point, hash: Hash, pk: seq<byte>, alpha: seq<byte>, beta: seq<byte>, beta': seq<byte>)
    requires EdwardsCurve(d) && GroupOrders(d, base) && IsHash(hash) && |pk| == 32
    requires BelongsTo(d, base, hash, pk, alpha, beta) && BelongsTo(d, base, hash, pk, alpha, beta')
    ensures beta == beta'
  {
    hide Names, IsMessagePoint, PointString, GroupOrders;
    var Y, H, x: nat :| Names(d, pk, Y) && IsMessagePoint(d, hash, Y, alpha, H) &&
                        Mul(d, 8, Y) == Mul(d, 8 * x, base) && IsOutputOf(d, hash, x, H, beta);
    var Y', H', x': nat :| Names(d, pk, Y') && IsMessagePoint(d, hash, Y', alpha, H') &&
                           Mul(d, 8, Y') == Mul(d, 8 * x', base) && IsOutputOf(d, hash, x', H', beta');
    NamesUnique(d, pk, Y, Y');
    MessagePointIs(d, hash, Y, alpha, H);
    MessagePointIs(d, hash, Y, alpha, H');
    hide HashPoint;
    MessagePointInSubgroup(d, base, hash, Y, alpha, H);
    EqualForAll(d, base, H, 8 * x, 8 * x');
  }

  /** The output of an honest owner is the one that belongs to the key. */
  lemma HonestOutputBelongs(d: int, base: Point, hash: Hash, seed: seq<byte>, alpha: seq<byte>)
    requires EdwardsCurve(d) && GroupOrders(d, base) && IsHash(hash) && |seed| == 32
    ensures var beta := HonestOutput(d, base, hash, seed, alpha);
            beta.Success? && BelongsTo(d, base, hash, PublicKey(d, base, hash, seed), alpha, beta.value)
  {
    var x, pk := SecretScalar(hash, seed), PublicKey(d, base, hash, seed);
    var Y := Mul(d, x, base);
    PublicKeyDecodes(d, base, hash, seed);
    hide SecretScalar, PublicKey, StringPoint, Names, IsMessagePoint, PointString, GroupOrders;
    NamesIs(d, pk, Y);
    MessagePointIs(d, hash, Y, alpha, Zero);
    hide HashPoint;
    var H := HashPoint(d, hash, Y, alpha).value;
    MessagePointIs(d, hash, Y, alpha, H);
    MessagePointInSubgroup(d, base, hash, Y, alpha, H);
    MulMulNat(d, 8, x, base);
    MulMulNat(d, 8, x, H);
    assert IsOutputOf(d, hash, x, H, OutputHash(hash, Mul(d, x, H), d));
  }
}
