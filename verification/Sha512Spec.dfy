/** SHA-512 as FIPS 180-4 defines it (sections 4.1.3, 5.1.2, 5.2.2 and 6.4.2): padding, the message
    schedule and the compression function in register-shift form. */
module Sha512Spec {
  import opened Bytes
  import opened WordBits

  const K: seq<word> :=
    ([0x428a_2f98_d728_ae22, 0x7137_4491_23ef_65cd, 0xb5c0_fbcf_ec4d_3b2f, 0xe9b5_dba5_8189_dbbc] +
     [0x3956_c25b_f348_b538, 0x59f1_11f1_b605_d019, 0x923f_82a4_af19_4f9b, 0xab1c_5ed5_da6d_8118] +
     [0xd807_aa98_a303_0242, 0x1283_5b01_4570_6fbe, 0x2431_85be_4ee4_b28c, 0x550c_7dc3_d5ff_b4e2] +
     [0x72be_5d74_f27b_896f, 0x80de_b1fe_3b16_96b1, 0x9bdc_06a7_25c7_1235, 0xc19b_f174_cf69_2694] +
     [0xe49b_69c1_9ef1_4ad2, 0xefbe_4786_384f_25e3, 0x0fc1_9dc6_8b8c_d5b5, 0x240c_a1cc_77ac_9c65]) +
    ([0x2de9_2c6f_592b_0275, 0x4a74_84aa_6ea6_e483, 0x5cb0_a9dc_bd41_fbd4, 0x76f9_88da_8311_53b5] +
     [0x983e_5152_ee66_dfab, 0xa831_c66d_2db4_3210, 0xb003_27c8_98fb_213f, 0xbf59_7fc7_beef_0ee4] +
     [0xc6e0_0bf3_3da8_8fc2, 0xd5a7_9147_930a_a725, 0x06ca_6351_e003_826f, 0x1429_2967_0a0e_6e70] +
     [0x27b7_0a85_46d2_2ffc, 0x2e1b_2138_5c26_c926, 0x4d2c_6dfc_5ac4_2aed, 0x5338_0d13_9d95_b3df] +
     [0x650a_7354_8baf_63de, 0x766a_0abb_3c77_b2a8, 0x81c2_c92e_47ed_aee6, 0x9272_2c85_1482_353b]) +
    ([0xa2bf_e8a1_4cf1_0364, 0xa81a_664b_bc42_3001, 0xc24b_8b70_d0f8_9791, 0xc76c_51a3_0654_be30] +
     [0xd192_e819_d6ef_5218, 0xd699_0624_5565_a910, 0xf40e_3585_5771_202a, 0x106a_a070_32bb_d1b8] +
     [0x19a4_c116_b8d2_d0c8, 0x1e37_6c08_5141_ab53, 0x2748_774c_df8e_eb99, 0x34b0_bcb5_e19b_48a8] +
     [0x391c_0cb3_c5c9_5a63, 0x4ed8_aa4a_e341_8acb, 0x5b9c_ca4f_7763_e373, 0x682e_6ff3_d6b2_b8a3] +
     [0x748f_82ee_5def_b2fc, 0x78a5_636f_4317_2f60, 0x84c8_7814_a1f0_ab72, 0x8cc7_0208_1a64_39ec]) +
    ([0x90be_fffa_2363_1e28, 0xa450_6ceb_de82_bde9, 0xbef9_a3f7_b2c6_7915, 0xc671_78f2_e372_532b] +
     [0xca27_3ece_ea26_619c, 0xd186_b8c7_21c0_c207, 0xeada_7dd6_cde0_eb1e, 0xf57d_4f7f_ee6e_d178] +
     [0x06f0_67aa_7217_6fba, 0x0a63_7dc5_a2c8_98a6, 0x113f_9804_bef9_0dae, 0x1b71_0b35_131c_471b] +
     [0x28db_77f5_2304_7d84, 0x32ca_ab7b_40c7_2493, 0x3c9e_be0a_15c9_bebc, 0x431d_67c4_9c10_0d4c] +
     [0x4cc5_d4be_cb3e_42b6, 0x597f_299c_fc65_7e2a, 0x5fcb_6fab_3ad6_faec, 0x6c44_198c_4a47_5817])

  const IV: seq<word> := [
    0x6a09_e667_f3bc_c908, 0xbb67_ae85_84ca_a73b, 0x3c6e_f372_fe94_f82b, 0xa54f_f53a_5f1d_36f1,
    0x510e_527f_ade6_82d1, 0x9b05_688c_2b3e_6c1f, 0x1f83_d9ab_fb41_bd6b, 0x5be0_cd19_137e_2179
  ]

  lemma Tables()
    ensures |K| == 80 && |IV| == 8
  {
  }

  // ---------- Compression ----------

  datatype Registers = Registers(a: word, b: word, c: word, d: word, e: word, f: word, g: word, h: word)

  function T1(r: Registers, k: word, w: word): word {
    Plus(Plus(Plus(Plus(r.h, Sum1(r.e)), Ch(r.e, r.f, r.g)), k), w)
  }

  function T2(r: Registers): word {
    Plus(Sum0(r.a), Maj(r.a, r.b, r.c))
  }

  function Round(r: Registers, k: word, w: word): Registers {
    Registers(Plus(T1(r, k, w), T2(r)), r.a, r.b, r.c, Plus(r.d, T1(r, k, w)), r.e, r.f, r.g)
  }

  /** Word t of the message schedule. */
  function Schedule(m: seq<word>, t: nat): word
    requires |m| == 16
    decreases t, m
  {
    if t < 16 then m[t]
    else Plus(Plus(Plus(Small1(Schedule(m, t - 2)), Schedule(m, t - 7)), Small0(Schedule(m, t - 15))), Schedule(m, t - 16))
  }

  function Rounds(r: Registers, m: seq<word>, t: nat): Registers
    requires |m| == 16 && t <= 80
    decreases t, r, m
  {
    if t == 0 then r else
      Tables();
      Round(Rounds(r, m, t - 1), K[t - 1], Schedule(m, t - 1))
  }

  function FromWords(s: seq<word>): Registers
    requires |s| == 8
  {
    Registers(s[0], s[1], s[2], s[3], s[4], s[5], s[6], s[7])
  }

  function AddRegisters(s: seq<word>, r: Registers): (t: seq<word>)
    requires |s| == 8
    ensures |t| == 8
  {
    [Plus(s[0], r.a), Plus(s[1], r.b), Plus(s[2], r.c), Plus(s[3], r.d),
     Plus(s[4], r.e), Plus(s[5], r.f), Plus(s[6], r.g), Plus(s[7], r.h)]
  }

  // ---------- Octets and words, most significant first ----------

  function LoadWord(s: seq<int>, i: nat): word
    requires i + 8 <= |s| && forall k :: 0 <= k < |s| ==> 0 <= s[k] < 256
  {
    (0x100_0000_0000_0000 * s[i] + 0x1_0000_0000_0000 * s[i + 1] + 0x100_0000_0000 * s[i + 2] + 0x1_0000_0000 * s[i + 3] +
     0x100_0000 * s[i + 4] + 0x1_0000 * s[i + 5] + 0x100 * s[i + 6] + s[i + 7])
  }

  /** The eight octets of a number below 2^64. */
  function StoreWord(x: int): (s: seq<byte>)
    ensures |s| == 8
  {
    [x / 0x100_0000_0000_0000 % 256, x / 0x1_0000_0000_0000 % 256, x / 0x100_0000_0000 % 256, x / 0x1_0000_0000 % 256,
     x / 0x100_0000 % 256, x / 0x1_0000 % 256, x / 0x100 % 256, x % 256]
  }

  function BlockWords(block: seq<byte>): (m: seq<word>)
    requires |block| == 128
    ensures |m| == 16
  {
    seq(16, i requires 0 <= i < 16 => LoadWord(block, 8 * i))
  }

  function Compressed(s: seq<word>, block: seq<byte>): (t: seq<word>)
    requires |s| == 8 && |block| == 128
    ensures |t| == 8
  {
    AddRegisters(s, Rounds(FromWords(s), BlockWords(block), 80))
  }

  function CompressAt(depth: nat, s: seq<word>, block: seq<byte>): (t: seq<word>)
    requires |s| == 8 && |block| == 128
    ensures |t| == 8
    decreases depth, s, block
  {
    hide Compressed;
    if depth == 0 then Compressed(s, block) else CompressAt(depth - 1, s, block)
  }

  /** One step of the hash: H(i) from H(i - 1) and block i; folded up. */
  function Compress(s: seq<word>, block: seq<byte>): (t: seq<word>)
    requires |s| == 8 && |block| == 128
    ensures |t| == 8
  {
    CompressAt(4, s, block)
  }

  lemma CompressMeans(s: seq<word>, block: seq<byte>)
    requires |s| == 8 && |block| == 128
    ensures Compress(s, block) == Compressed(s, block)
  {
    hide Compressed;
    assert CompressAt(2, s, block) == CompressAt(0, s, block);
    assert CompressAt(4, s, block) == CompressAt(2, s, block);
  }

  lemma AtLeastABlock(n: nat)
    requires n > 0 && n % 128 == 0
    ensures n >= 128 && (n - 128) % 128 == 0
  {
  }

  function CompressAll(s: seq<word>, blocks: seq<byte>): (t: seq<word>)
    requires |s| == 8 && |blocks| % 128 == 0
    ensures |t| == 8
    decreases |blocks|
  {
    hide Compress;
    if blocks == [] then s else
      AtLeastABlock(|blocks|);
      CompressAll(Compress(s, blocks[..128]), blocks[128..])
  }

  // ---------- Padding and the digest ----------

  function Zeros(n: nat): (z: seq<byte>)
    ensures |z| == n
  {
    seq(n, i => 0)
  }

  /** How many zero octets follow the marker. */
  function ZeroCount(n: nat): nat {
    (111 - n) % 128
  }

  lemma PaddedLength(n: nat)
    ensures (n + 1 + ZeroCount(n) + 16) % 128 == 0
  {
    var q := (111 - n) / 128;
    assert 111 - n == 128 * q + ZeroCount(n);
  }

  /** The length in bits as 128 bits; the standard hashes nothing longer than 128 bits can count. */
  function LengthField(n: nat): (s: seq<byte>)
    ensures |s| == 16
  {
    StoreWord(8 * n / TWO_64 % TWO_64) + StoreWord(8 * n % TWO_64)
  }

  /** The message, the marker 0x80, zeros, and the length in bits as 128 bits. */
  function Padded(m: seq<byte>): (p: seq<byte>)
    ensures |p| % 128 == 0
  {
    PaddedLength(|m|);
    hide LengthField;
    m + [0x80] + Zeros(ZeroCount(|m|)) + LengthField(|m|)
  }

  function DigestOf(s: seq<word>): (d: seq<byte>)
    requires |s| == 8
    ensures |d| == 64
  {
    StoreWord(s[0]) + StoreWord(s[1]) + StoreWord(s[2]) + StoreWord(s[3]) +
    StoreWord(s[4]) + StoreWord(s[5]) + StoreWord(s[6]) + StoreWord(s[7])
  }

  function Sha512(m: seq<byte>): (d: seq<byte>)
    ensures |d| == 64
  {
    Tables();
    DigestOf(CompressAll(IV, Padded(m)))
  }

  // ---------- Compression over concatenations ----------

  lemma {:induction false} CompressAllConcat(s: seq<word>, x: seq<byte>, y: seq<byte>)
    requires |s| == 8 && |x| % 128 == 0 && |y| % 128 == 0
    ensures |x + y| % 128 == 0
    ensures CompressAll(s, x + y) == CompressAll(CompressAll(s, x), y)
    decreases |x|
  {
    hide Compress;
    if x == [] {
      assert x + y == y;
    } else {
      AtLeastABlock(|x|);
      assert (x + y)[..128] == x[..128] && (x + y)[128..] == x[128..] + y;
      CompressAllConcat(Compress(s, x[..128]), x[128..], y);
    }
  }

  lemma CompressOne(s: seq<word>, block: seq<byte>)
    requires |s| == 8 && |block| == 128
    ensures CompressAll(s, block) == Compress(s, block)
  {
    hide Compress;
    assert block[..128] == block && block[128..] == [];
    assert CompressAll(Compress(s, block), []) == Compress(s, block);
  }
}
