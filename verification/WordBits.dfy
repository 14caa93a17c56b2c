/** 64-bit words as numbers: addition modulo 2^64, the logical functions of SHA-512 through their
    bit patterns, and the source's cheaper forms of two of them. */
module WordBits {

  const TWO_64: int := 0x1_0000_0000_0000_0000

  type word = x: int | 0 <= x < 0x1_0000_0000_0000_0000

  function Plus(x: word, y: word): word {
    (x as int + y as int) % TWO_64
  }

  function ChoiceOf(x: bv64, y: bv64, z: bv64): bv64 {
    (x & y) ^ (!x & z)
  }

  function ShortChoiceOf(x: bv64, y: bv64, z: bv64): bv64 {
    (x & (y ^ z)) ^ z
  }

  function MajorityOf(x: bv64, y: bv64, z: bv64): bv64 {
    (x & y) ^ (x & z) ^ (y & z)
  }

  function ShortMajorityOf(x: bv64, y: bv64, z: bv64): bv64 {
    (x & (y | z)) | (y & z)
  }

  function Ch(x: word, y: word, z: word): word {
    ChoiceOf(x as bv64, y as bv64, z as bv64) as int
  }

  function ChShort(x: word, y: word, z: word): word {
    ShortChoiceOf(x as bv64, y as bv64, z as bv64) as int
  }

  function Maj(x: word, y: word, z: word): word {
    MajorityOf(x as bv64, y as bv64, z as bv64) as int
  }

  function MajShort(x: word, y: word, z: word): word {
    ShortMajorityOf(x as bv64, y as bv64, z as bv64) as int
  }

  // A rotation by n is the source's (x >> n) | (x << (64 - n)).

  function Sum0Bits(x: bv64): bv64 {
    ((x >> 28) | (x << 36)) ^ ((x >> 34) | (x << 30)) ^ ((x >> 39) | (x << 25))
  }

  function Sum0(x: word): word {
    Sum0Bits(x as bv64) as int
  }

  function Sum1Bits(x: bv64): bv64 {
    ((x >> 14) | (x << 50)) ^ ((x >> 18) | (x << 46)) ^ ((x >> 41) | (x << 23))
  }

  function Sum1(x: word): word {
    Sum1Bits(x as bv64) as int
  }

  function Small0Bits(x: bv64): bv64 {
    ((x >> 1) | (x << 63)) ^ ((x >> 8) | (x << 56)) ^ (x >> 7)
  }

  function Small0(x: word): word {
    Small0Bits(x as bv64) as int
  }

  function Small1Bits(x: bv64): bv64 {
    ((x >> 19) | (x << 45)) ^ ((x >> 61) | (x << 3)) ^ (x >> 6)
  }

  function Small1(x: word): word {
    Small1Bits(x as bv64) as int
  }

  lemma ChoiceBits(x: bv64, y: bv64, z: bv64)
    ensures (x & (y ^ z)) ^ z == (x & y) ^ (!x & z)
  {
  }

  lemma ChoiceAgrees(x: bv64, y: bv64, z: bv64)
    ensures ShortChoiceOf(x, y, z) == ChoiceOf(x, y, z)
  {
    ChoiceBits(x, y, z);
  }

  /** The source's choice function is the standard's. */
  lemma ChShortIs(x: word, y: word, z: word)
    ensures ChShort(x, y, z) == Ch(x, y, z)
  {
    hide ChoiceOf, ShortChoiceOf;
    ChoiceAgrees(x as bv64, y as bv64, z as bv64);
  }

  lemma MajorityBits(x: bv64, y: bv64, z: bv64)
    ensures (x & (y | z)) | (y & z) == (x & y) ^ (x & z) ^ (y & z)
  {
  }

  lemma MajorityAgrees(x: bv64, y: bv64, z: bv64)
    ensures ShortMajorityOf(x, y, z) == MajorityOf(x, y, z)
  {
    MajorityBits(x, y, z);
  }

  /** The source's majority function is the standard's. */
  lemma MajShortIs(x: word, y: word, z: word)
    ensures MajShort(x, y, z) == Maj(x, y, z)
  {
    hide MajorityOf, ShortMajorityOf;
    MajorityAgrees(x as bv64, y as bv64, z as bv64);
  }

  lemma PlusCases(x: word, y: word)
    ensures Plus(x, y) as int == (if x as int + y as int < TWO_64 then x as int + y as int else x as int + y as int - TWO_64)
  {
  }

  lemma PlusAssociates(x: word, y: word, z: word)
    ensures Plus(Plus(x, y), z) == Plus(x, Plus(y, z))
  {
    PlusCases(x, y);
    PlusCases(y, z);
    PlusCases(Plus(x, y), z);
    PlusCases(x, Plus(y, z));
    hide Plus;
  }

  lemma PlusCommutes(x: word, y: word)
    ensures Plus(x, y) == Plus(y, x)
  {
  }

  /** The order in which the source adds the five terms of a round. */
  lemma PlusRegroups(h: word, s: word, c: word, k: word, w: word)
    ensures Plus(h, Plus(Plus(s, c), Plus(w, k))) == Plus(Plus(Plus(Plus(h, s), c), k), w)
  {
    PlusCommutes(w, k);
    hide Plus;
    PlusAssociates(h, Plus(s, c), Plus(w, k));
    PlusAssociates(h, s, c);
    PlusAssociates(Plus(Plus(h, s), c), k, w);
  }
}
