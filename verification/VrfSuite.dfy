/** The suite the repository ships: SHA-512 in place of the abstract hash, and the listed
    low-order strings in place of the abstract test. */
module VrfSuite {
  import opened Bytes
  import opened Edwards
  import opened EdwardsGroup
  import opened GroupOrder
  import opened PointStrings
  import opened Elligator
  import opened ElligatorTotal
  import opened KeyOrder
  import opened Sha512Spec
  import opened VrfSpec
  import Vrf

  /** SHA-512 gives 64 octets on every input, all the scheme asks of its hash. */
  lemma Sha512IsHash()
    ensures IsHash(Sha512)
  {
    forall m ensures |Sha512(m)| == 64 {
    }
  }

  /** What a message hashes to is always a point. */
  lemma HashPointExists(d: int, Y: Point, alpha: seq<byte>)
    requires EdwardsCurve(d) && IsHash(Sha512)
    ensures HashPoint(d, Sha512, Y, alpha).Some?
  {
    hide Sha512, PointString, Mapped;
    NeverAborts(d, WithoutTopBit(Sha512([SUITE] + [0x01] + PointString(Y) + alpha)[..32]));
  }

  /** Completeness of ECVRF-ED25519-SHA512-Elligator2, without exceptions: the key derived from any
      seed is valid, its owner's proof for any message exists, verifies, and gives the verifier the
      output it gives anyone who hashes the proof.  Vrf.KeypairFromSeed, Vrf.ProveMessage and
      Vrf.VerifyMessage compute PublicKey, Prove and Verify exactly, so this speaks of the code. */
  lemma SuiteCompleteness(d: int, base: Point, seed: seq<byte>, alpha: seq<byte>)
    requires EdwardsCurve(d) && GroupOrders(d, base) && |seed| == 32
    ensures IsHash(Sha512)
    ensures var pk := PublicKey(d, base, Sha512, seed);
            var r, beta := Prove(d, base, Sha512, seed + pk, alpha), HonestOutput(d, base, Sha512, seed, alpha);
            r.Success? && beta.Success? && Accepted(d, base, Sha512, Vrf.IsSmallOrder, pk, r.value, alpha, beta)
  {
    Sha512IsHash();
    DerivedKeysAreValid(d, base, Sha512, seed);
    Completeness(d, base, Sha512, Vrf.IsSmallOrder, seed, alpha);
    HashPointExists(d, Mul(d, SecretScalar(Sha512, seed), base), alpha);
    hide Prove, Accepted, PublicKey, Vrf.IsSmallOrder, Sha512, HashPoint, ValidKey;
  }
}
