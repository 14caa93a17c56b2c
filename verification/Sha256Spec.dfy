/** SHA-256 as FIPS 180-4 defines it (sections 4.1.2, 5.1.1, 5.2.1 and 6.2.2). */
module Sha256Spec {
  import opened Bytes

  const TWO_32: int := 0x1_0000_0000
  const TWO_64: int := 0x1_0000_0000_0000_0000

  type word = x: int | 0 <= x < 0x1_0000_0000

  const K: seq<word> :=
    ([0x428a_2f98, 0x7137_4491, 0xb5c0_fbcf, 0xe9b5_dba5] +
     [0x3956_c25b, 0x59f1_11f1, 0x923f_82a4, 0xab1c_5ed5] +
     [0xd807_aa98, 0x1283_5b01, 0x2431_85be, 0x550c_7dc3] +
     [0x72be_5d74, 0x80de_b1fe, 0x9bdc_06a7, 0xc19b_f174]) +
    ([0xe49b_69c1, 0xefbe_4786, 0x0fc1_9dc6, 0x240c_a1cc] +
     [0x2de9_2c6f, 0x4a74_84aa, 0x5cb0_a9dc, 0x76f9_88da] +
     [0x983e_5152, 0xa831_c66d, 0xb003_27c8, 0xbf59_7fc7] +
     [0xc6e0_0bf3, 0xd5a7_9147, 0x06ca_6351, 0x1429_2967]) +
    ([0x27b7_0a85, 0x2e1b_2138, 0x4d2c_6dfc, 0x5338_0d13] +
     [0x650a_7354, 0x766a_0abb, 0x81c2_c92e, 0x9272_2c85] +
     [0xa2bf_e8a1, 0xa81a_664b, 0xc24b_8b70, 0xc76c_51a3] +
     [0xd192_e819, 0xd699_0624, 0xf40e_3585, 0x106a_a070]) +
    ([0x19a4_c116, 0x1e37_6c08, 0x2748_774c, 0x34b0_bcb5] +
     [0x391c_0cb3, 0x4ed8_aa4a, 0x5b9c_ca4f, 0x682e_6ff3] +
     [0x748f_82ee, 0x78a5_636f, 0x84c8_7814, 0x8cc7_0208] +
     [0x90be_fffa, 0xa450_6ceb, 0xbef9_a3f7, 0xc671_78f2])

  const IV: seq<word> := [
    0x6a09_e667, 0xbb67_ae85, 0x3c6e_f372, 0xa54f_f53a,
    0x510e_527f, 0x9b05_688c, 0x1f83_d9ab, 0x5be0_cd19
  ]

  lemma Tables()
    ensures |K| == 64 && |IV| == 8
  {
  }

  // ---------- The logical functions ----------

  function Plus(x: word, y: word): word {
    (x as int + y as int) % TWO_32
  }

  function ChoiceOf(x: bv32, y: bv32, z: bv32): bv32 {
    (x & y) ^ (!x & z)
  }

  function MajorityOf(x: bv32, y: bv32, z: bv32): bv32 {
    (x & y) ^ (x & z) ^ (y & z)
  }

  function Ch(x: word, y: word, z: word): word {
    ChoiceOf(x as bv32, y as bv32, z as bv32) as int
  }

  function Maj(x: word, y: word, z: word): word {
    MajorityOf(x as bv32, y as bv32, z as bv32) as int
  }

  // A rotation by n is (x >> n) | (x << (32 - n)).

  function Sum0Bits(x: bv32): bv32 {
    ((x >> 2) | (x << 30)) ^ ((x >> 13) | (x << 19)) ^ ((x >> 22) | (x << 10))
  }

  function Sum0(x: word): word {
    Sum0Bits(x as bv32) as int
  }

  function Sum1Bits(x: bv32): bv32 {
    ((x >> 6) | (x << 26)) ^ ((x >> 11) | (x << 21)) ^ ((x >> 25) | (x << 7))
  }

  function Sum1(x: word): word {
    Sum1Bits(x as bv32) as int
  }

  function Small0Bits(x: bv32): bv32 {
    ((x >> 7) | (x << 25)) ^ ((x >> 18) | (x << 14)) ^ (x >> 3)
  }

  function Small0(x: word): word {
    Small0Bits(x as bv32) as int
  }

  function Small1Bits(x: bv32): bv32 {
    ((x >> 17) | (x << 15)) ^ ((x >> 19) | (x << 13)) ^ (x >> 10)
  }

  function Small1(x: word): word {
    Small1Bits(x as bv32) as int
  }

  // ---------- Compression ----------

  datatype Registers = Registers(a: word, b: word, c: word, d: word, e: word, f: word, g: word, h: word)

  function T1(r: Registers, k: word, w: word): word {
    Plus(Plus(Plus(Plus(r.h, Sum1(r.e)), Ch(r.e, r.f, r.g)), k), w)
  }

  function T2(r: Registers): word {
    Plus(Sum0(r.a), Maj(r.a, r.b, r.c))
  }

  function Round(r: Registers, k: word, w: word): Registers {
    Registers(Plus(T1(r, k, w), T2(r)), r.a, r.b, r.c, Plus(r.d, T1(r, k, w)), r.e, r.f, r.g)
  }

  /** Word t of the message schedule. */
  function Schedule(m: seq<word>, t: nat): word
    requires |m| == 16
    decreases t, m
  {
    if t < 16 then m[t]
    else Plus(Plus(Plus(Small1(Schedule(m, t - 2)), Schedule(m, t - 7)), Small0(Schedule(m, t - 15))), Schedule(m, t - 16))
  }

  function Rounds(r: Registers, m: seq<word>, t: nat): Registers
    requires |m| == 16 && t <= 64
    decreases t, r, m
  {
    if t == 0 then r else
      Tables();
      Round(Rounds(r, m, t - 1), K[t - 1], Schedule(m, t - 1))
  }

  function FromWords(s: seq<word>): Registers
    requires |s| == 8
  {
    Registers(s[0], s[1], s[2], s[3], s[4], s[5], s[6], s[7])
  }

  function AddRegisters(s: seq<word>, r: Registers): (t: seq<word>)
    requires |s| == 8
    ensures |t| == 8
  {
    [Plus(s[0], r.a), Plus(s[1], r.b), Plus(s[2], r.c), Plus(s[3], r.d),
     Plus(s[4], r.e), Plus(s[5], r.f), Plus(s[6], r.g), Plus(s[7], r.h)]
  }

  // ---------- Octets and words, most significant first ----------

  function LoadWord(s: seq<int>, i: nat): word
    requires i + 4 <= |s| && forall k :: 0 <= k < |s| ==> 0 <= s[k] < 256
  {
    0x100_0000 * s[i] + 0x1_0000 * s[i + 1] + 0x100 * s[i + 2] + s[i + 3]
  }

  function StoreWord(x: int): (s: seq<byte>)
    ensures |s| == 4
  {
    [x / 0x100_0000 % 256, x / 0x1_0000 % 256, x / 0x100 % 256, x % 256]
  }

  function BlockWords(block: seq<byte>): (m: seq<word>)
    requires |block| == 64
    ensures |m| == 16
  {
    seq(16, i requires 0 <= i < 16 => LoadWord(block, 4 * i))
  }

  function Compressed(s: seq<word>, block: seq<byte>): (t: seq<word>)
    requires |s| == 8 && |block| == 64
    ensures |t| == 8
  {
    AddRegisters(s, Rounds(FromWords(s), BlockWords(block), 64))
  }

  function CompressAt(depth: nat, s: seq<word>, block: seq<byte>): (t: seq<word>)
    requires |s| == 8 && |block| == 64
    ensures |t| == 8
    decreases depth, s, block
  {
    hide Compressed;
    if depth == 0 then Compressed(s, block) else CompressAt(depth - 1, s, block)
  }

  /** One step of the hash: H(i) from H(i - 1) and block i; folded up. */
  function Compress(s: seq<word>, block: seq<byte>): (t: seq<word>)
    requires |s| == 8 && |block| == 64
    ensures |t| == 8
  {
    CompressAt(4, s, block)
  }

  lemma CompressMeans(s: seq<word>, block: seq<byte>)
    requires |s| == 8 && |block| == 64
    ensures Compress(s, block) == Compressed(s, block)
  {
    hide Compressed;
    assert CompressAt(2, s, block) == CompressAt(0, s, block);
    assert CompressAt(4, s, block) == CompressAt(2, s, block);
  }

  lemma AtLeastABlock(n: nat)
    requires n > 0 && n % 64 == 0
    ensures n >= 64 && (n - 64) % 64 == 0
  {
  }

  function CompressAll(s: seq<word>, blocks: seq<byte>): (t: seq<word>)
    requires |s| == 8 && |blocks| % 64 == 0
    ensures |t| == 8
    decreases |blocks|
  {
    hide Compress;
    if blocks == [] then s else
      AtLeastABlock(|blocks|);
      CompressAll(Compress(s, blocks[..64]), blocks[64..])
  }

  // ---------- Padding and the digest ----------

  function Zeros(n: nat): (z: seq<byte>)
    ensures |z| == n
  {
    seq(n, i => 0)
  }

  function ZeroCount(n: nat): nat {
    (55 - n) % 64
  }

  lemma PaddedLength(n: nat)
    ensures (n + 1 + ZeroCount(n) + 8) % 64 == 0
  {
    var q := (55 - n) / 64;
    assert 55 - n == 64 * q + ZeroCount(n);
  }

  /** The length in bits as 64 bits; the standard hashes nothing longer than 64 bits can count. */
  function LengthField(n: nat): (s: seq<byte>)
    ensures |s| == 8
  {
    var bits := 8 * n % TWO_64;
    StoreWord(bits / TWO_32) + StoreWord(bits % TWO_32)
  }

  /** The message, the marker 0x80, zeros, and the length. */
  function Padded(m: seq<byte>): (p: seq<byte>)
    ensures |p| % 64 == 0
  {
    PaddedLength(|m|);
    hide LengthField;
    m + [0x80] + Zeros(ZeroCount(|m|)) + LengthField(|m|)
  }

  function DigestOf(s: seq<word>): (d: seq<byte>)
    requires |s| == 8
    ensures |d| == 32
  {
    StoreWord(s[0]) + StoreWord(s[1]) + StoreWord(s[2]) + StoreWord(s[3]) +
    StoreWord(s[4]) + StoreWord(s[5]) + StoreWord(s[6]) + StoreWord(s[7])
  }

  function Sha256(m: seq<byte>): (d: seq<byte>)
    ensures |d| == 32
  {
    Tables();
    DigestOf(CompressAll(IV, Padded(m)))
  }

  // ---------- Compression over concatenations ----------

  lemma {:induction false} CompressAllConcat(s: seq<word>, x: seq<byte>, y: seq<byte>)
    requires |s| == 8 && |x| % 64 == 0 && |y| % 64 == 0
    ensures |x + y| % 64 == 0
    ensures CompressAll(s, x + y) == CompressAll(CompressAll(s, x), y)
    decreases |x|
  {
    hide Compress;
    if x == [] {
      assert x + y == y;
    } else {
      AtLeastABlock(|x|);
      assert (x + y)[..64] == x[..64] && (x + y)[64..] == x[64..] + y;
      CompressAllConcat(Compress(s, x[..64]), x[64..], y);
    }
  }

  lemma CompressOne(s: seq<word>, block: seq<byte>)
    requires |s| == 8 && |block| == 64
    ensures CompressAll(s, block) == Compress(s, block)
  {
    hide Compress;
    assert block[..64] == block && block[64..] == [];
    assert CompressAll(Compress(s, block), []) == Compress(s, block);
  }
}
