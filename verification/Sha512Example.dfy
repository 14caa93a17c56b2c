/** The one-block example of the standard: Sha512 of "abc", computed round by round.  It fixes what the
    standard gives as tables and figures: constants, rotations, the order of octets, padding. */
module Sha512Example {
  import opened Arithmetic
  import opened Bytes
  import opened WordBits
  import opened Sha512Spec
  import opened Sha512Constants

  // ---------- One step on bit patterns ----------

  function Num(x: bv64): word {
    x as int
  }

  function State(a: bv64, b: bv64, c: bv64, d: bv64, e: bv64, f: bv64, g: bv64, h: bv64): Registers {
    Registers(Num(a), Num(b), Num(c), Num(d), Num(e), Num(f), Num(g), Num(h))
  }

  lemma LargeSums(x: bv64)
    ensures Sum0(Num(x)) == Num(Sum0Bits(x)) && Sum1(Num(x)) == Num(Sum1Bits(x))
  {
    hide Sum0Bits, Sum1Bits;
  }

  lemma SmallSums(x: bv64)
    ensures Small0(Num(x)) == Num(Small0Bits(x)) && Small1(Num(x)) == Num(Small1Bits(x))
  {
    hide Small0Bits, Small1Bits;
  }

  predicate WordAt(depth: nat, m: seq<word>, t: nat, w: word)
    decreases depth, m, t, w
  {
    if depth == 0 then |m| == 16 && Schedule(m, t) == w else WordAt(depth - 1, m, t, w)
  }

  /** Word t of the message schedule is w; folded up. */
  predicate Word(m: seq<word>, t: nat, w: word) {
    WordAt(4, m, t, w)
  }

  lemma WordMeans(m: seq<word>, t: nat, w: word)
    ensures Word(m, t, w) <==> |m| == 16 && Schedule(m, t) == w
  {
    hide Schedule;
    assert WordAt(2, m, t, w) == WordAt(0, m, t, w);
    assert WordAt(4, m, t, w) == WordAt(2, m, t, w);
  }

  predicate AfterAt(depth: nat, m: seq<word>, t: nat, r: Registers)
    decreases depth, m, t, r
  {
    if depth == 0 then |m| == 16 && t <= 80 && Rounds(Start(), m, t) == r else AfterAt(depth - 1, m, t, r)
  }

  /** The registers after t rounds; folded up. */
  predicate After(m: seq<word>, t: nat, a: bv64, b: bv64, c: bv64, d: bv64, e: bv64, f: bv64, g: bv64, h: bv64)
  {
    AfterAt(4, m, t, State(a, b, c, d, e, f, g, h))
  }

  lemma AfterMeans(m: seq<word>, t: nat, a: bv64, b: bv64, c: bv64, d: bv64, e: bv64, f: bv64, g: bv64, h: bv64)
    ensures After(m, t, a, b, c, d, e, f, g, h) <==>
            |m| == 16 && t <= 80 && Rounds(Start(), m, t) == State(a, b, c, d, e, f, g, h)
  {
    var r := State(a, b, c, d, e, f, g, h);
    hide Rounds, State, Start;
    assert AfterAt(2, m, t, r) == AfterAt(0, m, t, r);
    assert AfterAt(4, m, t, r) == AfterAt(2, m, t, r);
  }

  lemma ChoiceIs(x: bv64, y: bv64, z: bv64)
    ensures Ch(Num(x), Num(y), Num(z)) == Num(ChoiceOf(x, y, z))
    ensures Maj(Num(x), Num(y), Num(z)) == Num(MajorityOf(x, y, z))
  {
  }

  lemma PlusIs(x: word, y: word, c: int, z: word)
    requires x + y == z + c * 0x0001_0000_0000_0000_0000 && 0 <= c
    ensures Plus(x, y) == z
  {
  }

  lemma Wraps(x: int, c: int, s: word)
    requires x == s + c * 0x0001_0000_0000_0000_0000
    ensures x % 0x0001_0000_0000_0000_0000 == s
  {
  }

  /** Adding to a sum that already wrapped. */
  lemma PlusMore(x: int, p: word, y: word)
    requires p == x % 0x0001_0000_0000_0000_0000
    ensures Plus(p, y) == (x + y) % 0x0001_0000_0000_0000_0000
  {
    var q := x / 0x0001_0000_0000_0000_0000;
    assert p + y == x + y - q * 0x0001_0000_0000_0000_0000;
  }

  lemma SumOfFour(x: word, y: word, z: word, v: word, c: int, s: word)
    requires x + y + z + v == s + c * 0x0001_0000_0000_0000_0000
    ensures Plus(Plus(Plus(x, y), z), v) == s
  {
    hide Plus;
    PlusMore(x, x, y);
    PlusMore(x + y, Plus(x, y), z);
    PlusMore(x + y + z, Plus(Plus(x, y), z), v);
    Wraps(x + y + z + v, c, s);
  }

  lemma SumOfFive(x: word, y: word, z: word, v: word, w: word, c: int, s: word)
    requires x + y + z + v + w == s + c * 0x0001_0000_0000_0000_0000
    ensures Plus(Plus(Plus(Plus(x, y), z), v), w) == s
  {
    hide Plus;
    PlusMore(x, x, y);
    PlusMore(x + y, Plus(x, y), z);
    PlusMore(x + y + z, Plus(Plus(x, y), z), v);
    PlusMore(x + y + z + v, Plus(Plus(Plus(x, y), z), v), w);
    Wraps(x + y + z + v + w, c, s);
  }

  lemma SumOfThree(x: word, y: word, z: word, c: int, s: word)
    requires x + y + z == s + c * 0x0001_0000_0000_0000_0000
    ensures Plus(x, Plus(y, z)) == s
  {
    PlusMore(y, y, z);
    PlusMore(y + z, Plus(y, z), x);
    Wraps(x + y + z, c, s);
  }

  lemma RoundIs(k: word, w: word, a: bv64, b: bv64, c: bv64, d: bv64, e: bv64, f: bv64, g: bv64, h: bv64,
                t1: word, x: bv64, y: bv64, i: int, j: int, l: int)
    requires 0 <= l
    requires Num(h) + Num(Sum1Bits(e)) + Num(ChoiceOf(e, f, g)) + k + w == t1 + i * 0x0001_0000_0000_0000_0000
    requires t1 + Num(Sum0Bits(a)) + Num(MajorityOf(a, b, c)) == Num(x) + j * 0x0001_0000_0000_0000_0000
    requires Num(d) + t1 == Num(y) + l * 0x0001_0000_0000_0000_0000
    ensures Round(State(a, b, c, d, e, f, g, h), k, w) == State(x, a, b, c, y, e, f, g)
  {
    LargeSums(a);
    LargeSums(e);
    ChoiceIs(a, b, c);
    ChoiceIs(e, f, g);
    hide Num, Sum0, Sum1, Ch, Maj, Plus, Sum0Bits, Sum1Bits, ChoiceOf, MajorityOf;
    SumOfFive(Num(h), Num(Sum1Bits(e)), Num(ChoiceOf(e, f, g)), k, w, i, t1);
    SumOfThree(t1, Num(Sum0Bits(a)), Num(MajorityOf(a, b, c)), j, Num(x));
    PlusIs(Num(d), t1, l, Num(y));
  }

  /** One round: registers a to h, the constant k, the word w; t1 is the sum of five, x and y are the
      new a and e, and i, j, l count how often the sums pass 2^64. */
  lemma Step(m: seq<word>, t: nat, k: word, w: word, a: bv64, b: bv64, c: bv64, d: bv64, e: bv64, f: bv64, g: bv64,
             h: bv64, t1: word, x: bv64, y: bv64, i: int, j: int, l: int)
    requires t < 80 && |K| == 80 && K[t] == k && Word(m, t, w) && After(m, t, a, b, c, d, e, f, g, h)
    requires 0 <= l
    requires Num(h) + Num(Sum1Bits(e)) + Num(ChoiceOf(e, f, g)) + k + w == t1 + i * 0x0001_0000_0000_0000_0000
    requires t1 + Num(Sum0Bits(a)) + Num(MajorityOf(a, b, c)) == Num(x) + j * 0x0001_0000_0000_0000_0000
    requires Num(d) + t1 == Num(y) + l * 0x0001_0000_0000_0000_0000
    ensures After(m, t + 1, x, a, b, c, y, e, f, g)
  {
    RoundIs(k, w, a, b, c, d, e, f, g, h, t1, x, y, i, j, l);
    WordMeans(m, t, w);
    AfterMeans(m, t, a, b, c, d, e, f, g, h);
    AfterMeans(m, t + 1, x, a, b, c, y, e, f, g);
    hide Num, State, Round, Start, Schedule, K, Sum0Bits, Sum1Bits, ChoiceOf, MajorityOf;
  }

  /** Word t of the schedule. */
  lemma Extend(m: seq<word>, t: nat, s: bv64, p: word, q: bv64, r: word, w: word, c: int)
    requires 16 <= t && Word(m, t - 2, Num(s)) && Word(m, t - 7, p) && Word(m, t - 15, Num(q)) && Word(m, t - 16, r)
    requires Num(Small1Bits(s)) + p + Num(Small0Bits(q)) + r == w + c * 0x0001_0000_0000_0000_0000
    ensures Word(m, t, w)
  {
    WordMeans(m, t - 2, Num(s));
    WordMeans(m, t - 7, p);
    WordMeans(m, t - 15, Num(q));
    WordMeans(m, t - 16, r);
    WordMeans(m, t, w);
    SmallSums(s);
    SmallSums(q);
    SumOfFour(Num(Small1Bits(s)), p, Num(Small0Bits(q)), r, c, w);
    hide Num, Small0, Small1, Plus;
  }

  // ---------- The message ----------

  /** "abc". */
  const ABC: seq<byte> := [0x61, 0x62, 0x63]

  /** The words of the padded message. */
  predicate IsMessage(m: seq<word>) {
    |m| == 16 && m[0] == 0x6162_6380_0000_0000 && m[15] == 24 && forall t :: 1 <= t < 15 ==> m[t] == 0
  }

  function Start(): Registers {
    Tables();
    FromWords(IV)
  }

  /** The message padded: the marker after its three octets, and 24 bits counted at the end. */
  function Block(): (b: seq<byte>)
    ensures |b| == 128
  {
    ABC + [0x80] + Zeros(108) + Zeros(15) + [24]
  }

  lemma BlockIs()
    ensures Padded(ABC) == Block()
  {
    assert ZeroCount(3) == 108;
    assert LengthField(3) == Zeros(15) + [24];
    assert ABC + [0x80] + Zeros(108) + LengthField(3) == Block();
  }

  lemma BlockWordsAre()
    ensures IsMessage(BlockWords(Block()))
  {
    var b := Block();
    assert b[0] == 0x61 && b[1] == 0x62 && b[2] == 0x63 && b[3] == 0x80 && b[127] == 24;
    assert forall i :: 4 <= i < 127 ==> b[i] == 0;
    hide Block;
    forall t | 1 <= t < 15 ensures LoadWord(b, 8 * t) == 0 {
    }
  }

  lemma Words0(m: seq<word>)
    requires IsMessage(m)
    ensures Word(m, 0, 0x6162_6380_0000_0000) && Word(m, 15, 0x0000_0000_0000_0018) && forall t :: 1 <= t < 15 ==> Word(m, t, 0)
  {
    WordMeans(m, 0, 0x6162_6380_0000_0000);
    WordMeans(m, 15, 0x0000_0000_0000_0018);
    forall t | 1 <= t < 15 ensures Word(m, t, 0) {
      WordMeans(m, t, 0);
    }
  }

  lemma Words16(m: seq<word>)
    requires IsMessage(m)
    ensures Word(m, 16, 0x6162_6380_0000_0000)
    ensures Word(m, 17, 0x0003_0000_0000_00c0)
    ensures Word(m, 18, 0x0a96_99a2_4c70_0003)
    ensures Word(m, 19, 0x0000_0c00_6000_0603)
    ensures Word(m, 20, 0x549e_f626_3985_8996)
    ensures Word(m, 21, 0x00c0_0033_0000_3c00)
    ensures Word(m, 22, 0x1497_007a_8a0e_9dbc)
    ensures Word(m, 23, 0x62e5_6500_cc07_80f0)
  {
    Words0(m);
    hide Word, IsMessage;
    Extend(m, 16, 0x0000_0000_0000_0000, 0x0000_0000_0000_0000, 0x0000_0000_0000_0000,
           0x6162_6380_0000_0000, 0x6162_6380_0000_0000, 0);
    Extend(m, 17, 0x0000_0000_0000_0018, 0x0000_0000_0000_0000, 0x0000_0000_0000_0000,
           0x0000_0000_0000_0000, 0x0003_0000_0000_00c0, 0);
    Extend(m, 18, 0x6162_6380_0000_0000, 0x0000_0000_0000_0000, 0x0000_0000_0000_0000,
           0x0000_0000_0000_0000, 0x0a96_99a2_4c70_0003, 0);
    Extend(m, 19, 0x0003_0000_0000_00c0, 0x0000_0000_0000_0000, 0x0000_0000_0000_0000,
           0x0000_0000_0000_0000, 0x0000_0c00_6000_0603, 0);
    Extend(m, 20, 0x0a96_99a2_4c70_0003, 0x0000_0000_0000_0000, 0x0000_0000_0000_0000,
           0x0000_0000_0000_0000, 0x549e_f626_3985_8996, 0);
    Extend(m, 21, 0x0000_0c00_6000_0603, 0x0000_0000_0000_0000, 0x0000_0000_0000_0000,
           0x0000_0000_0000_0000, 0x00c0_0033_0000_3c00, 0);
    Extend(m, 22, 0x549e_f626_3985_8996, 0x0000_0000_0000_0018, 0x0000_0000_0000_0000,
           0x0000_0000_0000_0000, 0x1497_007a_8a0e_9dbc, 0);
    Extend(m, 23, 0x00c0_0033_0000_3c00, 0x6162_6380_0000_0000, 0x0000_0000_0000_0000,
           0x0000_0000_0000_0000, 0x62e5_6500_cc07_80f0, 0);
  }

  lemma Words24(m: seq<word>)
    requires IsMessage(m)
    ensures Word(m, 24, 0x7760_dd47_5a53_8797)
    ensures Word(m, 25, 0xf155_4b71_1c1c_0003)
    ensures Word(m, 26, 0xca29_93a4_345d_9ff2)
    ensures Word(m, 27, 0x5e0e_66b5_c783_dd32)
    ensures Word(m, 28, 0xe25a_625d_0049_4b62)
    ensures Word(m, 29, 0x9f44_486f_b1e4_fbd2)
    ensures Word(m, 30, 0xb31b_8c2b_0608_5f2f)
    ensures Word(m, 31, 0x0e98_7660_9341_42f6)
  {
    Words0(m);
    Words16(m);
    hide Word, IsMessage;
    Extend(m, 24, 0x1497_007a_8a0e_9dbc, 0x0003_0000_0000_00c0, 0x0000_0000_0000_0000,
           0x0000_0000_0000_0000, 0x7760_dd47_5a53_8797, 0);
    Extend(m, 25, 0x62e5_6500_cc07_80f0, 0x0a96_99a2_4c70_0003, 0x0000_0000_0000_0000,
           0x0000_0000_0000_0000, 0xf155_4b71_1c1c_0003, 0);
    Extend(m, 26, 0x7760_dd47_5a53_8797, 0x0000_0c00_6000_0603, 0x0000_0000_0000_0000,
           0x0000_0000_0000_0000, 0xca29_93a4_345d_9ff2, 0);
    Extend(m, 27, 0xf155_4b71_1c1c_0003, 0x549e_f626_3985_8996, 0x0000_0000_0000_0000,
           0x0000_0000_0000_0000, 0x5e0e_66b5_c783_dd32, 0);
    Extend(m, 28, 0xca29_93a4_345d_9ff2, 0x00c0_0033_0000_3c00, 0x0000_0000_0000_0000,
           0x0000_0000_0000_0000, 0xe25a_625d_0049_4b62, 0);
    Extend(m, 29, 0x5e0e_66b5_c783_dd32, 0x1497_007a_8a0e_9dbc, 0x0000_0000_0000_0000,
           0x0000_0000_0000_0000, 0x9f44_486f_b1e4_fbd2, 0);
    Extend(m, 30, 0xe25a_625d_0049_4b62, 0x62e5_6500_cc07_80f0, 0x0000_0000_0000_0018,
           0x0000_0000_0000_0000, 0xb31b_8c2b_0608_5f2f, 0);
    Extend(m, 31, 0x9f44_486f_b1e4_fbd2, 0x7760_dd47_5a53_8797, 0x6162_6380_0000_0000,
           0x0000_0000_0000_0018, 0x0e98_7660_9341_42f6, 1);
  }

  lemma Words32(m: seq<word>)
    requires IsMessage(m)
    ensures Word(m, 32, 0xa4af_2cfd_09fb_b924)
    ensures Word(m, 33, 0xad28_9e2e_0bd5_3186)
    ensures Word(m, 34, 0x3c74_563a_a2f9_673e)
    ensures Word(m, 35, 0x6ccd_cd14_cc14_b53f)
    ensures Word(m, 36, 0xc3f9_25b3_37f2_2bde)
    ensures Word(m, 37, 0x5bcc_77a7_5ad9_5b54)
    ensures Word(m, 38, 0x3ec2_257a_dca0_9a52)
    ensures Word(m, 39, 0x2824_6960_001f_c5eb)
  {
    Words16(m);
    Words24(m);
    hide Word, IsMessage;
    Extend(m, 32, 0xb31b_8c2b_0608_5f2f, 0xf155_4b71_1c1c_0003, 0x0003_0000_0000_00c0,
           0x6162_6380_0000_0000, 0xa4af_2cfd_09fb_b924, 2);
    Extend(m, 33, 0x0e98_7660_9341_42f6, 0xca29_93a4_345d_9ff2, 0x0a96_99a2_4c70_0003,
           0x0003_0000_0000_00c0, 0xad28_9e2e_0bd5_3186, 1);
    Extend(m, 34, 0xa4af_2cfd_09fb_b924, 0x5e0e_66b5_c783_dd32, 0x0000_0c00_6000_0603,
           0x0a96_99a2_4c70_0003, 0x3c74_563a_a2f9_673e, 1);
    Extend(m, 35, 0xad28_9e2e_0bd5_3186, 0xe25a_625d_0049_4b62, 0x549e_f626_3985_8996,
           0x0000_0c00_6000_0603, 0x6ccd_cd14_cc14_b53f, 2);
    Extend(m, 36, 0x3c74_563a_a2f9_673e, 0x9f44_486f_b1e4_fbd2, 0x00c0_0033_0000_3c00,
           0x549e_f626_3985_8996, 0xc3f9_25b3_37f2_2bde, 1);
    Extend(m, 37, 0x6ccd_cd14_cc14_b53f, 0xb31b_8c2b_0608_5f2f, 0x1497_007a_8a0e_9dbc,
           0x00c0_0033_0000_3c00, 0x5bcc_77a7_5ad9_5b54, 2);
    Extend(m, 38, 0xc3f9_25b3_37f2_2bde, 0x0e98_7660_9341_42f6, 0x62e5_6500_cc07_80f0,
           0x1497_007a_8a0e_9dbc, 0x3ec2_257a_dca0_9a52, 1);
    Extend(m, 39, 0x5bcc_77a7_5ad9_5b54, 0xa4af_2cfd_09fb_b924, 0x7760_dd47_5a53_8797,
           0x62e5_6500_cc07_80f0, 0x2824_6960_001f_c5eb, 2);
  }

  lemma Words40(m: seq<word>)
    requires IsMessage(m)
    ensures Word(m, 40, 0x04e3_3a75_ce2b_e88a)
    ensures Word(m, 41, 0x7d53_14b3_c359_e0e7)
    ensures Word(m, 42, 0xaef7_a285_ff25_1266)
    ensures Word(m, 43, 0x0b84_7258_1dee_a04f)
    ensures Word(m, 44, 0xb174_e26e_ddc7_b033)
    ensures Word(m, 45, 0x5d63_bae5_8ddd_88de)
    ensures Word(m, 46, 0x4c04_4007_b744_ccbb)
    ensures Word(m, 47, 0xe6a9_aa4d_74dc_7d43)
  {
    Words24(m);
    Words32(m);
    hide Word, IsMessage;
    Extend(m, 40, 0x3ec2_257a_dca0_9a52, 0xad28_9e2e_0bd5_3186, 0xf155_4b71_1c1c_0003,
           0x7760_dd47_5a53_8797, 0x04e3_3a75_ce2b_e88a, 3);
    Extend(m, 41, 0x2824_6960_001f_c5eb, 0x3c74_563a_a2f9_673e, 0xca29_93a4_345d_9ff2,
           0xf155_4b71_1c1c_0003, 0x7d53_14b3_c359_e0e7, 2);
    Extend(m, 42, 0x04e3_3a75_ce2b_e88a, 0x6ccd_cd14_cc14_b53f, 0x5e0e_66b5_c783_dd32,
           0xca29_93a4_345d_9ff2, 0xaef7_a285_ff25_1266, 1);
    Extend(m, 43, 0x7d53_14b3_c359_e0e7, 0xc3f9_25b3_37f2_2bde, 0xe25a_625d_0049_4b62,
           0x5e0e_66b5_c783_dd32, 0x0b84_7258_1dee_a04f, 2);
    Extend(m, 44, 0xaef7_a285_ff25_1266, 0x5bcc_77a7_5ad9_5b54, 0x9f44_486f_b1e4_fbd2,
           0xe25a_625d_0049_4b62, 0xb174_e26e_ddc7_b033, 2);
    Extend(m, 45, 0x0b84_7258_1dee_a04f, 0x3ec2_257a_dca0_9a52, 0xb31b_8c2b_0608_5f2f,
           0x9f44_486f_b1e4_fbd2, 0x5d63_bae5_8ddd_88de, 2);
    Extend(m, 46, 0xb174_e26e_ddc7_b033, 0x2824_6960_001f_c5eb, 0x0e98_7660_9341_42f6,
           0xb31b_8c2b_0608_5f2f, 0x4c04_4007_b744_ccbb, 2);
    Extend(m, 47, 0x5d63_bae5_8ddd_88de, 0x04e3_3a75_ce2b_e88a, 0xa4af_2cfd_09fb_b924,
           0x0e98_7660_9341_42f6, 0xe6a9_aa4d_74dc_7d43, 0);
  }

  lemma Words48(m: seq<word>)
    requires IsMessage(m)
    ensures Word(m, 48, 0xebea_f123_7248_019c)
    ensures Word(m, 49, 0x361e_80b2_d00f_3193)
    ensures Word(m, 50, 0x2e98_3912_5df3_b175)
    ensures Word(m, 51, 0x3319_6292_93ad_5363)
    ensures Word(m, 52, 0x9cbc_5d89_ac1b_89d5)
    ensures Word(m, 53, 0x275e_23ff_eeca_50b7)
    ensures Word(m, 54, 0x3b80_d680_bf69_ef58)
    ensures Word(m, 55, 0x0d06_9693_3945_a125)
  {
    Words32(m);
    Words40(m);
    hide Word, IsMessage;
    Extend(m, 48, 0x4c04_4007_b744_ccbb, 0x7d53_14b3_c359_e0e7, 0xad28_9e2e_0bd5_3186,
           0xa4af_2cfd_09fb_b924, 0xebea_f123_7248_019c, 2);
    Extend(m, 49, 0xe6a9_aa4d_74dc_7d43, 0xaef7_a285_ff25_1266, 0x3c74_563a_a2f9_673e,
           0xad28_9e2e_0bd5_3186, 0x361e_80b2_d00f_3193, 2);
    Extend(m, 50, 0xebea_f123_7248_019c, 0x0b84_7258_1dee_a04f, 0x6ccd_cd14_cc14_b53f,
           0x3c74_563a_a2f9_673e, 0x2e98_3912_5df3_b175, 1);
    Extend(m, 51, 0x361e_80b2_d00f_3193, 0xb174_e26e_ddc7_b033, 0xc3f9_25b3_37f2_2bde,
           0x6ccd_cd14_cc14_b53f, 0x3319_6292_93ad_5363, 2);
    Extend(m, 52, 0x2e98_3912_5df3_b175, 0x5d63_bae5_8ddd_88de, 0x5bcc_77a7_5ad9_5b54,
           0xc3f9_25b3_37f2_2bde, 0x9cbc_5d89_ac1b_89d5, 1);
    Extend(m, 53, 0x3319_6292_93ad_5363, 0x4c04_4007_b744_ccbb, 0x3ec2_257a_dca0_9a52,
           0x5bcc_77a7_5ad9_5b54, 0x275e_23ff_eeca_50b7, 1);
    Extend(m, 54, 0x9cbc_5d89_ac1b_89d5, 0xe6a9_aa4d_74dc_7d43, 0x2824_6960_001f_c5eb,
           0x3ec2_257a_dca0_9a52, 0x3b80_d680_bf69_ef58, 2);
    Extend(m, 55, 0x275e_23ff_eeca_50b7, 0xebea_f123_7248_019c, 0x04e3_3a75_ce2b_e88a,
           0x2824_6960_001f_c5eb, 0x0d06_9693_3945_a125, 2);
  }

  lemma Words56(m: seq<word>)
    requires IsMessage(m)
    ensures Word(m, 56, 0x7533_eabc_b786_ff00)
    ensures Word(m, 57, 0xb898_26ce_e6fb_f0e5)
    ensures Word(m, 58, 0x249b_4fbc_ad62_3e9f)
    ensures Word(m, 59, 0x4aea_9df2_b02d_6f1e)
    ensures Word(m, 60, 0x2cc5_7475_a55e_8d8f)
    ensures Word(m, 61, 0xb257_4ae9_38d8_be89)
    ensures Word(m, 62, 0xc1b3_5a57_b16d_6aea)
    ensures Word(m, 63, 0xcc49_18b5_9492_06bb)
  {
    Words40(m);
    Words48(m);
    hide Word, IsMessage;
    Extend(m, 56, 0x3b80_d680_bf69_ef58, 0x361e_80b2_d00f_3193, 0x7d53_14b3_c359_e0e7,
           0x04e3_3a75_ce2b_e88a, 0x7533_eabc_b786_ff00, 1);
    Extend(m, 57, 0x0d06_9693_3945_a125, 0x2e98_3912_5df3_b175, 0xaef7_a285_ff25_1266,
           0x7d53_14b3_c359_e0e7, 0xb898_26ce_e6fb_f0e5, 1);
    Extend(m, 58, 0x7533_eabc_b786_ff00, 0x3319_6292_93ad_5363, 0x0b84_7258_1dee_a04f,
           0xaef7_a285_ff25_1266, 0x249b_4fbc_ad62_3e9f, 2);
    Extend(m, 59, 0xb898_26ce_e6fb_f0e5, 0x9cbc_5d89_ac1b_89d5, 0xb174_e26e_ddc7_b033,
           0x0b84_7258_1dee_a04f, 0x4aea_9df2_b02d_6f1e, 2);
    Extend(m, 60, 0x249b_4fbc_ad62_3e9f, 0x275e_23ff_eeca_50b7, 0x5d63_bae5_8ddd_88de,
           0xb174_e26e_ddc7_b033, 0x2cc5_7475_a55e_8d8f, 2);
    Extend(m, 61, 0x4aea_9df2_b02d_6f1e, 0x3b80_d680_bf69_ef58, 0x4c04_4007_b744_ccbb,
           0x5d63_bae5_8ddd_88de, 0xb257_4ae9_38d8_be89, 1);
    Extend(m, 62, 0x2cc5_7475_a55e_8d8f, 0x0d06_9693_3945_a125, 0xe6a9_aa4d_74dc_7d43,
           0x4c04_4007_b744_ccbb, 0xc1b3_5a57_b16d_6aea, 1);
    Extend(m, 63, 0xb257_4ae9_38d8_be89, 0x7533_eabc_b786_ff00, 0xebea_f123_7248_019c,
           0xe6a9_aa4d_74dc_7d43, 0xcc49_18b5_9492_06bb, 2);
  }

  lemma Words64(m: seq<word>)
    requires IsMessage(m)
    ensures Word(m, 64, 0x5099_c3ad_d79f_90ec)
    ensures Word(m, 65, 0x5ea8_1d78_e766_0bf1)
    ensures Word(m, 66, 0xebee_6267_405a_c2a9)
    ensures Word(m, 67, 0xb01f_2192_6108_a4ab)
    ensures Word(m, 68, 0x7864_33dd_2fe6_5556)
    ensures Word(m, 69, 0xc54a_6eaa_24a0_552c)
    ensures Word(m, 70, 0xb3c8_f153_0bdb_aa9e)
    ensures Word(m, 71, 0xbb8a_bfe5_6f46_9338)
  {
    Words48(m);
    Words56(m);
    hide Word, IsMessage;
    Extend(m, 64, 0xc1b3_5a57_b16d_6aea, 0xb898_26ce_e6fb_f0e5, 0x361e_80b2_d00f_3193,
           0xebea_f123_7248_019c, 0x5099_c3ad_d79f_90ec, 2);
    Extend(m, 65, 0xcc49_18b5_9492_06bb, 0x249b_4fbc_ad62_3e9f, 0x2e98_3912_5df3_b175,
           0x361e_80b2_d00f_3193, 0x5ea8_1d78_e766_0bf1, 1);
    Extend(m, 66, 0x5099_c3ad_d79f_90ec, 0x4aea_9df2_b02d_6f1e, 0x3319_6292_93ad_5363,
           0x2e98_3912_5df3_b175, 0xebee_6267_405a_c2a9, 1);
    Extend(m, 67, 0x5ea8_1d78_e766_0bf1, 0x2cc5_7475_a55e_8d8f, 0x9cbc_5d89_ac1b_89d5,
           0x3319_6292_93ad_5363, 0xb01f_2192_6108_a4ab, 0);
    Extend(m, 68, 0xebee_6267_405a_c2a9, 0xb257_4ae9_38d8_be89, 0x275e_23ff_eeca_50b7,
           0x9cbc_5d89_ac1b_89d5, 0x7864_33dd_2fe6_5556, 1);
    Extend(m, 69, 0xb01f_2192_6108_a4ab, 0xc1b3_5a57_b16d_6aea, 0x3b80_d680_bf69_ef58,
           0x275e_23ff_eeca_50b7, 0xc54a_6eaa_24a0_552c, 1);
    Extend(m, 70, 0x7864_33dd_2fe6_5556, 0xcc49_18b5_9492_06bb, 0x0d06_9693_3945_a125,
           0x3b80_d680_bf69_ef58, 0xb3c8_f153_0bdb_aa9e, 1);
    Extend(m, 71, 0xc54a_6eaa_24a0_552c, 0x5099_c3ad_d79f_90ec, 0x7533_eabc_b786_ff00,
           0x0d06_9693_3945_a125, 0xbb8a_bfe5_6f46_9338, 0);
  }

  lemma Words72(m: seq<word>)
    requires IsMessage(m)
    ensures Word(m, 72, 0xf63d_4265_cc1c_5a78)
    ensures Word(m, 73, 0xbe83_55ea_7312_9afb)
    ensures Word(m, 74, 0x49e2_db8e_bdcf_beb5)
    ensures Word(m, 75, 0x8226_9d4a_883a_3d99)
    ensures Word(m, 76, 0xfdf5_3df3_011f_362b)
    ensures Word(m, 77, 0x464a_f567_1d71_c12e)
    ensures Word(m, 78, 0xe449_b681_98ec_611c)
    ensures Word(m, 79, 0x92ae_eed1_a7bc_f7d2)
  {
    Words56(m);
    Words64(m);
    hide Word, IsMessage;
    Extend(m, 72, 0xb3c8_f153_0bdb_aa9e, 0x5ea8_1d78_e766_0bf1, 0xb898_26ce_e6fb_f0e5,
           0x7533_eabc_b786_ff00, 0xf63d_4265_cc1c_5a78, 1);
    Extend(m, 73, 0xbb8a_bfe5_6f46_9338, 0xebee_6267_405a_c2a9, 0x249b_4fbc_ad62_3e9f,
           0xb898_26ce_e6fb_f0e5, 0xbe83_55ea_7312_9afb, 1);
    Extend(m, 74, 0xf63d_4265_cc1c_5a78, 0xb01f_2192_6108_a4ab, 0x4aea_9df2_b02d_6f1e,
           0x249b_4fbc_ad62_3e9f, 0x49e2_db8e_bdcf_beb5, 1);
    Extend(m, 75, 0xbe83_55ea_7312_9afb, 0x7864_33dd_2fe6_5556, 0x2cc5_7475_a55e_8d8f,
           0x4aea_9df2_b02d_6f1e, 0x8226_9d4a_883a_3d99, 1);
    Extend(m, 76, 0x49e2_db8e_bdcf_beb5, 0xc54a_6eaa_24a0_552c, 0xb257_4ae9_38d8_be89,
           0x2cc5_7475_a55e_8d8f, 0xfdf5_3df3_011f_362b, 1);
    Extend(m, 77, 0x8226_9d4a_883a_3d99, 0xb3c8_f153_0bdb_aa9e, 0xc1b3_5a57_b16d_6aea,
           0xb257_4ae9_38d8_be89, 0x464a_f567_1d71_c12e, 2);
    Extend(m, 78, 0xfdf5_3df3_011f_362b, 0xbb8a_bfe5_6f46_9338, 0xcc49_18b5_9492_06bb,
           0xc1b3_5a57_b16d_6aea, 0xe449_b681_98ec_611c, 1);
    Extend(m, 79, 0x464a_f567_1d71_c12e, 0xf63d_4265_cc1c_5a78, 0x5099_c3ad_d79f_90ec,
           0xcc49_18b5_9492_06bb, 0x92ae_eed1_a7bc_f7d2, 2);
  }

  // ---------- The rounds ----------

  lemma Rounds0(m: seq<word>)
    requires IsMessage(m)
    ensures After(m, 0, 0x6a09_e667_f3bc_c908, 0xbb67_ae85_84ca_a73b, 0x3c6e_f372_fe94_f82b, 0xa54f_f53a_5f1d_36f1,
                  0x510e_527f_ade6_82d1, 0x9b05_688c_2b3e_6c1f, 0x1f83_d9ab_fb41_bd6b, 0x5be0_cd19_137e_2179)
  {
    Tables();
    AfterMeans(m, 0, 0x6a09_e667_f3bc_c908, 0xbb67_ae85_84ca_a73b, 0x3c6e_f372_fe94_f82b, 0xa54f_f53a_5f1d_36f1,
                  0x510e_527f_ade6_82d1, 0x9b05_688c_2b3e_6c1f, 0x1f83_d9ab_fb41_bd6b, 0x5be0_cd19_137e_2179);
  }

  lemma Rounds8(m: seq<word>)
    requires IsMessage(m)
    ensures After(m, 8, 0x8093_d195_e005_4fa3, 0xc487_5b0c_7abc_076b, 0xaf57_3b02_403e_89cd, 0xb680_9539_5160_4860,
                0x86f6_7263_a0f0_ec0a, 0x5a6c_781f_54dc_c00c, 0x96f6_0209_b6dc_35ba, 0x745a_ca4a_342e_d2e2)
  {
    Rounds0(m);
    Constants0();
    Words0(m);
    hide After, Word, IsMessage, K;
    Step(m, 0, 0x428a_2f98_d728_ae22, 0x6162_6380_0000_0000, 0x6a09_e667_f3bc_c908, 0xbb67_ae85_84ca_a73b, 0x3c6e_f372_fe94_f82b, 0xa54f_f53a_5f1d_36f1,
         0x510e_527f_ade6_82d1, 0x9b05_688c_2b3e_6c1f, 0x1f83_d9ab_fb41_bd6b, 0x5be0_cd19_137e_2179,
         0xb37b_0cfa_1b97_e8a0, 0xf6af_ceb8_bcfc_ddf5, 0x58cb_0234_7ab5_1f91, 1, 0, 1);
    Step(m, 1, 0x7137_4491_23ef_65cd, 0x0000_0000_0000_0000, 0xf6af_ceb8_bcfc_ddf5, 0x6a09_e667_f3bc_c908, 0xbb67_ae85_84ca_a73b, 0x3c6e_f372_fe94_f82b,
         0x58cb_0234_7ab5_1f91, 0x510e_527f_ade6_82d1, 0x9b05_688c_2b3e_6c1f, 0x1f83_d9ab_fb41_bd6b,
         0x8765_f88a_49d0_17cf, 0x1320_f8c9_fb87_2cc0, 0xc3d4_ebfd_4865_0ffa, 1, 2, 0);
    Step(m, 2, 0xb5c0_fbcf_ec4d_3b2f, 0x0000_0000_0000_0000, 0x1320_f8c9_fb87_2cc0, 0xf6af_ceb8_bcfc_ddf5, 0x6a09_e667_f3bc_c908, 0xbb67_ae85_84ca_a73b,
         0xc3d4_ebfd_4865_0ffa, 0x58cb_0234_7ab5_1f91, 0x510e_527f_ade6_82d1, 0x9b05_688c_2b3e_6c1f,
         0x2442_03b4_6d9e_d0d7, 0xebcf_fc07_203d_91f3, 0xdfa9_b239_f269_7812, 2, 0, 0);
    Step(m, 3, 0xe9b5_dba5_8189_dbbc, 0x0000_0000_0000_0000, 0xebcf_fc07_203d_91f3, 0x1320_f8c9_fb87_2cc0, 0xf6af_ceb8_bcfc_ddf5, 0x6a09_e667_f3bc_c908,
         0xdfa9_b239_f269_7812, 0xc3d4_ebfd_4865_0ffa, 0x58cb_0234_7ab5_1f91, 0x510e_527f_ade6_82d1,
         0xa13d_ce53_256b_d006, 0x5a83_cb3e_8005_0e82, 0x0b47_b4bb_1928_990e, 2, 2, 1);
    Step(m, 4, 0x3956_c25b_f348_b538, 0x0000_0000_0000_0000, 0x5a83_cb3e_8005_0e82, 0xebcf_fc07_203d_91f3, 0x1320_f8c9_fb87_2cc0, 0xf6af_ceb8_bcfc_ddf5,
         0x0b47_b4bb_1928_990e, 0xdfa9_b239_f269_7812, 0xc3d4_ebfd_4865_0ffa, 0x58cb_0234_7ab5_1f91,
         0x7daa_fb91_7731_f4ed, 0xb680_9539_5160_4860, 0x745a_ca4a_342e_d2e2, 1, 1, 1);
    Step(m, 5, 0x59f1_11f1_b605_d019, 0x0000_0000_0000_0000, 0xb680_9539_5160_4860, 0x5a83_cb3e_8005_0e82, 0xebcf_fc07_203d_91f3, 0x1320_f8c9_fb87_2cc0,
         0x745a_ca4a_342e_d2e2, 0x0b47_b4bb_1928_990e, 0xdfa9_b239_f269_7812, 0xc3d4_ebfd_4865_0ffa,
         0x83d5_093f_bb55_08fa, 0xaf57_3b02_403e_89cd, 0x96f6_0209_b6dc_35ba, 2, 1, 0);
    Step(m, 6, 0x923f_82a4_af19_4f9b, 0x0000_0000_0000_0000, 0xaf57_3b02_403e_89cd, 0xb680_9539_5160_4860, 0x5a83_cb3e_8005_0e82, 0xebcf_fc07_203d_91f3,
         0x96f6_0209_b6dc_35ba, 0x745a_ca4a_342e_d2e2, 0x0b47_b4bb_1928_990e, 0xdfa9_b239_f269_7812,
         0x6e9c_7c18_349f_2e19, 0xc487_5b0c_7abc_076b, 0x5a6c_781f_54dc_c00c, 2, 1, 1);
    Step(m, 7, 0xab1c_5ed5_da6d_8118, 0x0000_0000_0000_0000, 0xc487_5b0c_7abc_076b, 0xaf57_3b02_403e_89cd, 0xb680_9539_5160_4860, 0x5a83_cb3e_8005_0e82,
         0x5a6c_781f_54dc_c00c, 0x96f6_0209_b6dc_35ba, 0x745a_ca4a_342e_d2e2, 0x0b47_b4bb_1928_990e,
         0x2c72_a725_20eb_dd88, 0x8093_d195_e005_4fa3, 0x86f6_7263_a0f0_ec0a, 1, 1, 0);
  }

  lemma Rounds16(m: seq<word>)
    requires IsMessage(m)
    ensures After(m, 16, 0x0ae0_7c86_b118_1c75, 0xfa96_7eed_85a0_8028, 0x4424_9631_255d_2ca0, 0x5e41_2143_8818_6c14,
                0xa77b_7c03_5dd4_c161, 0x874b_fe5f_6aae_9f2f, 0x860a_cf9e_ffba_6f61, 0xcdf3_bff2_883f_c9d9)
  {
    Rounds8(m);
    Constants8();
    Words0(m);
    hide After, Word, IsMessage, K;
    Step(m, 8, 0xd807_aa98_a303_0242, 0x0000_0000_0000_0000, 0x8093_d195_e005_4fa3, 0xc487_5b0c_7abc_076b, 0xaf57_3b02_403e_89cd, 0xb680_9539_5160_4860,
         0x86f6_7263_a0f0_ec0a, 0x5a6c_781f_54dc_c00c, 0x96f6_0209_b6dc_35ba, 0x745a_ca4a_342e_d2e2,
         0x19bf_a700_3e63_b7a2, 0xf1ec_a554_4cb8_9225, 0xd040_3c39_8fc4_0002, 2, 0, 0);
    Step(m, 9, 0x1283_5b01_4570_6fbe, 0x0000_0000_0000_0000, 0xf1ec_a554_4cb8_9225, 0x8093_d195_e005_4fa3, 0xc487_5b0c_7abc_076b, 0xaf57_3b02_403e_89cd,
         0xd040_3c39_8fc4_0002, 0x86f6_7263_a0f0_ec0a, 0x5a6c_781f_54dc_c00c, 0x96f6_0209_b6dc_35ba,
         0x50b1_e443_cba5_e285, 0x8178_2d4a_5db4_8f03, 0x0009_1f46_0be4_6c52, 1, 1, 1);
    Step(m, 10, 0x2431_85be_4ee4_b28c, 0x0000_0000_0000_0000, 0x8178_2d4a_5db4_8f03, 0xf1ec_a554_4cb8_9225, 0x8093_d195_e005_4fa3, 0xc487_5b0c_7abc_076b,
         0x0009_1f46_0be4_6c52, 0xd040_3c39_8fc4_0002, 0x86f6_7263_a0f0_ec0a, 0x5a6c_781f_54dc_c00c,
         0x0eed_ec0f_635f_9c89, 0x6985_4c4a_a0f2_5b59, 0xd375_471b_de1b_a3f4, 1, 1, 0);
    Step(m, 11, 0x550c_7dc3_d5ff_b4e2, 0x0000_0000_0000_0000, 0x6985_4c4a_a0f2_5b59, 0x8178_2d4a_5db4_8f03, 0xf1ec_a554_4cb8_9225, 0x8093_d195_e005_4fa3,
         0xd375_471b_de1b_a3f4, 0x0009_1f46_0be4_6c52, 0xd040_3c39_8fc4_0002, 0x86f6_7263_a0f0_ec0a,
         0xc6c5_a423_3a74_f689, 0xdb0a_9963_f80c_2eaa, 0x4759_75b9_1a7a_462c, 1, 1, 1);
    Step(m, 12, 0x72be_5d74_f27b_896f, 0x0000_0000_0000_0000, 0xdb0a_9963_f80c_2eaa, 0x6985_4c4a_a0f2_5b59, 0x8178_2d4a_5db4_8f03, 0xf1ec_a554_4cb8_9225,
         0x4759_75b9_1a7a_462c, 0xd375_471b_de1b_a3f4, 0x0009_1f46_0be4_6c52, 0xd040_3c39_8fc4_0002,
         0xdc07_1a9e_3b87_37b4, 0x5e41_2143_8818_6c14, 0xcdf3_bff2_883f_c9d9, 1, 2, 1);
    Step(m, 13, 0x80de_b1fe_3b16_96b1, 0x0000_0000_0000_0000, 0x5e41_2143_8818_6c14, 0xdb0a_9963_f80c_2eaa, 0x6985_4c4a_a0f2_5b59, 0x8178_2d4a_5db4_8f03,
         0xcdf3_bff2_883f_c9d9, 0x4759_75b9_1a7a_462c, 0xd375_471b_de1b_a3f4, 0x0009_1f46_0be4_6c52,
         0x0492_a254_a205_e05e, 0x4424_9631_255d_2ca0, 0x860a_cf9e_ffba_6f61, 1, 1, 0);
    Step(m, 14, 0x9bdc_06a7_25c7_1235, 0x0000_0000_0000_0000, 0x4424_9631_255d_2ca0, 0x5e41_2143_8818_6c14, 0xdb0a_9963_f80c_2eaa, 0x6985_4c4a_a0f2_5b59,
         0x860a_cf9e_ffba_6f61, 0xcdf3_bff2_883f_c9d9, 0x4759_75b9_1a7a_462c, 0xd375_471b_de1b_a3f4,
         0x1dc6_b214_c9bc_43d6, 0xfa96_7eed_85a0_8028, 0x874b_fe5f_6aae_9f2f, 3, 0, 0);
    Step(m, 15, 0xc19b_f174_cf69_2694, 0x0000_0000_0000_0018, 0xfa96_7eed_85a0_8028, 0x4424_9631_255d_2ca0, 0x5e41_2143_8818_6c14, 0xdb0a_9963_f80c_2eaa,
         0x874b_fe5f_6aae_9f2f, 0x860a_cf9e_ffba_6f61, 0xcdf3_bff2_883f_c9d9, 0x4759_75b9_1a7a_462c,
         0xcc70_e29f_65c8_92b7, 0x0ae0_7c86_b118_1c75, 0xa77b_7c03_5dd4_c161, 2, 2, 1);
  }

  lemma Rounds24(m: seq<word>)
    requires IsMessage(m)
    ensures After(m, 24, 0x4f68_77b5_8fe5_5484, 0x3e26_4456_7b70_9a78, 0xda34_d667_3d45_2dcf, 0x8dc5_ae65_569d_3855,
                0xc660_05f8_7db5_5233, 0x0ac2_b11d_a8f5_71c6, 0x8e30_ff09_ad48_8753, 0x4bb9_e66d_1145_bfdc)
  {
    Rounds16(m);
    Constants16();
    Words16(m);
    hide After, Word, IsMessage, K;
    Step(m, 16, 0xe49b_69c1_9ef1_4ad2, 0x6162_6380_0000_0000, 0x0ae0_7c86_b118_1c75, 0xfa96_7eed_85a0_8028, 0x4424_9631_255d_2ca0, 0x5e41_2143_8818_6c14,
         0xa77b_7c03_5dd4_c161, 0x874b_fe5f_6aae_9f2f, 0x860a_cf9e_ffba_6f61, 0xcdf3_bff2_883f_c9d9,
         0xcfad_ab27_b1bd_e164, 0xcaf8_1a42_5d80_0537, 0x2dee_cc6b_39d6_4d78, 2, 1, 1);
    Step(m, 17, 0xefbe_4786_384f_25e3, 0x0003_0000_0000_00c0, 0xcaf8_1a42_5d80_0537, 0x0ae0_7c86_b118_1c75, 0xfa96_7eed_85a0_8028, 0x4424_9631_255d_2ca0,
         0x2dee_cc6b_39d6_4d78, 0xa77b_7c03_5dd4_c161, 0x874b_fe5f_6aae_9f2f, 0x860a_cf9e_ffba_6f61,
         0xb059_ed22_d2a7_47b5, 0x4725_be24_9ad1_9e6b, 0xf47e_8353_f804_7455, 2, 2, 0);
    Step(m, 18, 0x0fc1_9dc6_8b8c_d5b5, 0x0a96_99a2_4c70_0003, 0x4725_be24_9ad1_9e6b, 0xcaf8_1a42_5d80_0537, 0x0ae0_7c86_b118_1c75, 0xfa96_7eed_85a0_8028,
         0xf47e_8353_f804_7455, 0x2dee_cc6b_39d6_4d78, 0xa77b_7c03_5dd4_c161, 0x874b_fe5f_6aae_9f2f,
         0x2ed2_e0eb_07e1_5ba8, 0x3c4b_4104_168e_3edb, 0x2969_5fd8_8d81_dbd0, 1, 1, 1);
    Step(m, 19, 0x240c_a1cc_77ac_9c65, 0x0000_0c00_6000_0603, 0x3c4b_4104_168e_3edb, 0x4725_be24_9ad1_9e6b, 0xcaf8_1a42_5d80_0537, 0x0ae0_7c86_b118_1c75,
         0x2969_5fd8_8d81_dbd0, 0xf47e_8353_f804_7455, 0x2dee_cc6b_39d6_4d78, 0xa77b_7c03_5dd4_c161,
         0xe669_1c56_ae58_5a09, 0x9a3f_b4d3_8ab6_cf06, 0xf149_98dd_5f70_767e, 1, 1, 0);
    Step(m, 20, 0x2de9_2c6f_592b_0275, 0x549e_f626_3985_8996, 0x9a3f_b4d3_8ab6_cf06, 0x3c4b_4104_168e_3edb, 0x4725_be24_9ad1_9e6b, 0xcaf8_1a42_5d80_0537,
         0xf149_98dd_5f70_767e, 0x2969_5fd8_8d81_dbd0, 0xf47e_8353_f804_7455, 0x2dee_cc6b_39d6_4d78,
         0x80c1_cc2a_b3c5_baa5, 0x8dc5_ae65_569d_3855, 0x4bb9_e66d_1145_bfdc, 1, 1, 1);
    Step(m, 21, 0x4a74_84aa_6ea6_e483, 0x00c0_0033_0000_3c00, 0x8dc5_ae65_569d_3855, 0x9a3f_b4d3_8ab6_cf06, 0x3c4b_4104_168e_3edb, 0x4725_be24_9ad1_9e6b,
         0x4bb9_e66d_1145_bfdc, 0xf149_98dd_5f70_767e, 0x2969_5fd8_8d81_dbd0, 0xf47e_8353_f804_7455,
         0x470b_40e5_1276_e8e8, 0xda34_d667_3d45_2dcf, 0x8e30_ff09_ad48_8753, 2, 1, 0);
    Step(m, 22, 0x5cb0_a9dc_bd41_fbd4, 0x1497_007a_8a0e_9dbc, 0xda34_d667_3d45_2dcf, 0x8dc5_ae65_569d_3855, 0x9a3f_b4d3_8ab6_cf06, 0x3c4b_4104_168e_3edb,
         0x8e30_ff09_ad48_8753, 0x4bb9_e66d_1145_bfdc, 0xf149_98dd_5f70_767e, 0x2969_5fd8_8d81_dbd0,
         0xce77_7019_9267_32eb, 0x3e26_4456_7b70_9a78, 0x0ac2_b11d_a8f5_71c6, 1, 2, 1);
    Step(m, 23, 0x76f9_88da_8311_53b5, 0x62e5_6500_cc07_80f0, 0x3e26_4456_7b70_9a78, 0xda34_d667_3d45_2dcf, 0x8dc5_ae65_569d_3855, 0x9a3f_b4d3_8ab6_cf06,
         0x0ac2_b11d_a8f5_71c6, 0x8e30_ff09_ad48_8753, 0x4bb9_e66d_1145_bfdc, 0xf149_98dd_5f70_767e,
         0x2c20_5124_f2fe_832d, 0x4f68_77b5_8fe5_5484, 0xc660_05f8_7db5_5233, 2, 1, 0);
  }

  lemma Rounds32(m: seq<word>)
    requires IsMessage(m)
    ensures After(m, 32, 0xff4d_3f1f_0d46_a736, 0x4c4f_bbb7_5f18_73a6, 0x74bf_40f8_6909_4c63, 0xe623_4909_0f47_d30a,
                0x3cd3_88e1_19e8_162e, 0x73e0_25d9_1b9e_fea3, 0xf0ae_c2fe_1437_f085, 0x0fcd_f997_10f2_1584)
  {
    Rounds24(m);
    Constants24();
    Words24(m);
    hide After, Word, IsMessage, K;
    Step(m, 24, 0x983e_5152_ee66_dfab, 0x7760_dd47_5a53_8797, 0x4f68_77b5_8fe5_5484, 0x3e26_4456_7b70_9a78, 0xda34_d667_3d45_2dcf, 0x8dc5_ae65_569d_3855,
         0xc660_05f8_7db5_5233, 0x0ac2_b11d_a8f5_71c6, 0x8e30_ff09_ad48_8753, 0x4bb9_e66d_1145_bfdc,
         0x4627_42d2_127a_d61a, 0x9aff_7116_3fa3_a940, 0xd3ec_f137_6918_0e6f, 2, 1, 0);
    Step(m, 25, 0xa831_c66d_2db4_3210, 0xf155_4b71_1c1c_0003, 0x9aff_7116_3fa3_a940, 0x4f68_77b5_8fe5_5484, 0x3e26_4456_7b70_9a78, 0xda34_d667_3d45_2dcf,
         0xd3ec_f137_6918_0e6f, 0xc660_05f8_7db5_5233, 0x0ac2_b11d_a8f5_71c6, 0x8e30_ff09_ad48_8753,
         0x93aa_4970_b087_b567, 0x0bc5_f791_f8e6_816b, 0x6ddf_1fd7_edcc_e336, 3, 1, 1);
    Step(m, 26, 0xb003_27c8_98fb_213f, 0xca29_93a4_345d_9ff2, 0x0bc5_f791_f8e6_816b, 0x9aff_7116_3fa3_a940, 0x4f68_77b5_8fe5_5484, 0x3e26_4456_7b70_9a78,
         0x6ddf_1fd7_edcc_e336, 0xd3ec_f137_6918_0e6f, 0xc660_05f8_7db5_5233, 0x0ac2_b11d_a8f5_71c6,
         0xa8be_4844_1323_e8ed, 0x884c_3bc2_7bc4_f941, 0xe6e4_8c9a_8e94_8365, 2, 1, 0);
    Step(m, 27, 0xbf59_7fc7_beef_0ee4, 0x5e0e_66b5_c783_dd32, 0x884c_3bc2_7bc4_f941, 0x0bc5_f791_f8e6_816b, 0x9aff_7116_3fa3_a940, 0x4f68_77b5_8fe5_5484,
         0xe6e4_8c9a_8e94_8365, 0x6ddf_1fd7_edcc_e336, 0xd3ec_f137_6918_0e6f, 0xc660_05f8_7db5_5233,
         0xb99e_1298_9574_b928, 0xeab4_a9e5_771b_8d09, 0x0906_8a4e_255a_0dac, 2, 1, 1);
    Step(m, 28, 0xc6e0_0bf3_3da8_8fc2, 0xe25a_625d_0049_4b62, 0xeab4_a9e5_771b_8d09, 0x884c_3bc2_7bc4_f941, 0x0bc5_f791_f8e6_816b, 0x9aff_7116_3fa3_a940,
         0x0906_8a4e_255a_0dac, 0xe6e4_8c9a_8e94_8365, 0x6ddf_1fd7_edcc_e336, 0xd3ec_f137_6918_0e6f,
         0x74ce_8880_d14e_6c44, 0xe623_4909_0f47_d30a, 0x0fcd_f997_10f2_1584, 3, 1, 1);
    Step(m, 29, 0xd5a7_9147_930a_a725, 0x9f44_486f_b1e4_fbd2, 0xe623_4909_0f47_d30a, 0xeab4_a9e5_771b_8d09, 0x884c_3bc2_7bc4_f941, 0x0bc5_f791_f8e6_816b,
         0x0fcd_f997_10f2_1584, 0x0906_8a4e_255a_0dac, 0xe6e4_8c9a_8e94_8365, 0x6ddf_1fd7_edcc_e336,
         0xe4e8_cb6c_1b51_6f1a, 0x74bf_40f8_6909_4c63, 0xf0ae_c2fe_1437_f085, 2, 2, 0);
    Step(m, 30, 0x06ca_6351_e003_826f, 0xb31b_8c2b_0608_5f2f, 0x74bf_40f8_6909_4c63, 0xe623_4909_0f47_d30a, 0xeab4_a9e5_771b_8d09, 0x884c_3bc2_7bc4_f941,
         0xf0ae_c2fe_1437_f085, 0x0fcd_f997_10f2_1584, 0x0906_8a4e_255a_0dac, 0xe6e4_8c9a_8e94_8365,
         0xeb93_ea16_9fda_0562, 0x4c4f_bbb7_5f18_73a6, 0x73e0_25d9_1b9e_fea3, 1, 2, 1);
    Step(m, 31, 0x1429_2967_0a0e_6e70, 0x0e98_7660_9341_42f6, 0x4c4f_bbb7_5f18_73a6, 0x74bf_40f8_6909_4c63, 0xe623_4909_0f47_d30a, 0xeab4_a9e5_771b_8d09,
         0x73e0_25d9_1b9e_fea3, 0xf0ae_c2fe_1437_f085, 0x0fcd_f997_10f2_1584, 0x0906_8a4e_255a_0dac,
         0x521e_defb_a2cc_8925, 0xff4d_3f1f_0d46_a736, 0x3cd3_88e1_19e8_162e, 1, 0, 1);
  }

  lemma Rounds40(m: seq<word>)
    requires IsMessage(m)
    ensures After(m, 40, 0x8e01_e125_b855_d225, 0xb3bb_8542_b337_6de5, 0x002b_b8e4_cd98_9567, 0x88df_85b0_bbe7_7514,
                0x0c71_0a47_ba6a_567b, 0xb495_96c2_0feb_a7de, 0x66ad_cfa2_49ac_7bbd, 0x8fbf_d016_2bbf_4675)
  {
    Rounds32(m);
    Constants32();
    Words32(m);
    hide After, Word, IsMessage, K;
    Step(m, 32, 0x27b7_0a85_46d2_2ffc, 0xa4af_2cfd_09fb_b924, 0xff4d_3f1f_0d46_a736, 0x4c4f_bbb7_5f18_73a6, 0x74bf_40f8_6909_4c63, 0xe623_4909_0f47_d30a,
         0x3cd3_88e1_19e8_162e, 0x73e0_25d9_1b9e_fea3, 0xf0ae_c2fe_1437_f085, 0x0fcd_f997_10f2_1584,
         0xfadf_fc6a_5602_3d65, 0xa050_9015_ca08_c8d4, 0xe103_4573_654a_106f, 1, 1, 1);
    Step(m, 33, 0x2e1b_2138_5c26_c926, 0xad28_9e2e_0bd5_3186, 0xa050_9015_ca08_c8d4, 0xff4d_3f1f_0d46_a736, 0x4c4f_bbb7_5f18_73a6, 0x74bf_40f8_6909_4c63,
         0xe103_4573_654a_106f, 0x3cd3_88e1_19e8_162e, 0x73e0_25d9_1b9e_fea3, 0xf0ae_c2fe_1437_f085,
         0x7aec_7c93_8b72_b7b7, 0x60d4_e699_5ed9_1fe6, 0xefab_bd8b_f47c_041a, 2, 2, 0);
    Step(m, 34, 0x4d2c_6dfc_5ac4_2aed, 0x3c74_563a_a2f9_673e, 0x60d4_e699_5ed9_1fe6, 0xa050_9015_ca08_c8d4, 0xff4d_3f1f_0d46_a736, 0x4c4f_bbb7_5f18_73a6,
         0xefab_bd8b_f47c_041a, 0xe103_4573_654a_106f, 0x3cd3_88e1_19e8_162e, 0x73e0_25d9_1b9e_fea3,
         0xc36b_2ab9_9b5f_9c2d, 0x2c59_ec77_4363_2621, 0x0fba_e670_fa78_0fd3, 2, 2, 1);
    Step(m, 35, 0x5338_0d13_9d95_b3df, 0x6ccd_cd14_cc14_b53f, 0x2c59_ec77_4363_2621, 0x60d4_e699_5ed9_1fe6, 0xa050_9015_ca08_c8d4, 0xff4d_3f1f_0d46_a736,
         0x0fba_e670_fa78_0fd3, 0xefab_bd8b_f47c_041a, 0xe103_4573_654a_106f, 0x3cd3_88e1_19e8_162e,
         0xf14a_c910_42e4_9d97, 0x1a08_1afc_59fd_bc2c, 0xf098_082f_502b_44cd, 1, 1, 1);
    Step(m, 36, 0x650a_7354_8baf_63de, 0xc3f9_25b3_37f2_2bde, 0x1a08_1afc_59fd_bc2c, 0x2c59_ec77_4363_2621, 0x60d4_e699_5ed9_1fe6, 0xa050_9015_ca08_c8d4,
         0xf098_082f_502b_44cd, 0x0fba_e670_fa78_0fd3, 0xefab_bd8b_f47c_041a, 0xe103_4573_654a_106f,
         0xef6f_4000_61b6_7da1, 0x88df_85b0_bbe7_7514, 0x8fbf_d016_2bbf_4675, 2, 1, 1);
    Step(m, 37, 0x766a_0abb_3c77_b2a8, 0x5bcc_77a7_5ad9_5b54, 0x88df_85b0_bbe7_7514, 0x1a08_1afc_59fd_bc2c, 0x2c59_ec77_4363_2621, 0x60d4_e699_5ed9_1fe6,
         0x8fbf_d016_2bbf_4675, 0xf098_082f_502b_44cd, 0x0fba_e670_fa78_0fd3, 0xefab_bd8b_f47c_041a,
         0x05d8_e908_ead3_5bd7, 0x002b_b8e4_cd98_9567, 0x66ad_cfa2_49ac_7bbd, 3, 1, 0);
    Step(m, 38, 0x81c2_c92e_47ed_aee6, 0x3ec2_257a_dca0_9a52, 0x002b_b8e4_cd98_9567, 0x88df_85b0_bbe7_7514, 0x1a08_1afc_59fd_bc2c, 0x2c59_ec77_4363_2621,
         0x66ad_cfa2_49ac_7bbd, 0x8fbf_d016_2bbf_4675, 0xf098_082f_502b_44cd, 0x0fba_e670_fa78_0fd3,
         0x883b_aa4a_cc88_81bd, 0xb3bb_8542_b337_6de5, 0xb495_96c2_0feb_a7de, 1, 0, 0);
    Step(m, 39, 0x9272_2c85_1482_353b, 0x2824_6960_001f_c5eb, 0xb3bb_8542_b337_6de5, 0x002b_b8e4_cd98_9567, 0x88df_85b0_bbe7_7514, 0x1a08_1afc_59fd_bc2c,
         0xb495_96c2_0feb_a7de, 0x66ad_cfa2_49ac_7bbd, 0x8fbf_d016_2bbf_4675, 0xf098_082f_502b_44cd,
         0xf268_ef4b_606c_9a4f, 0x8e01_e125_b855_d225, 0x0c71_0a47_ba6a_567b, 1, 1, 1);
  }

  lemma Rounds48(m: seq<word>)
    requires IsMessage(m)
    ensures After(m, 48, 0x6b69_fc1b_b482_feac, 0xf61e_6726_94de_2d67, 0x021f_badb_abab_5ac6, 0xc47c_9d5c_7ea8_a234,
                0x3526_4334_c03a_c8ad, 0xc6bc_3574_0d8d_aa9a, 0xe95c_2a57_572d_64d9, 0x858d_832a_e0e8_911c)
  {
    Rounds40(m);
    Constants40();
    Words40(m);
    hide After, Word, IsMessage, K;
    Step(m, 40, 0xa2bf_e8a1_4cf1_0364, 0x04e3_3a75_ce2b_e88a, 0x8e01_e125_b855_d225, 0xb3bb_8542_b337_6de5, 0x002b_b8e4_cd98_9567, 0x88df_85b0_bbe7_7514,
         0x0c71_0a47_ba6a_567b, 0xb495_96c2_0feb_a7de, 0x66ad_cfa2_49ac_7bbd, 0x8fbf_d016_2bbf_4675,
         0x8db0_8302_e8d3_a1f7, 0xb015_21dd_6a6b_e12c, 0x1690_08b3_a4bb_170b, 2, 1, 1);
    Step(m, 41, 0xa81a_664b_bc42_3001, 0x7d53_14b3_c359_e0e7, 0xb015_21dd_6a6b_e12c, 0x8e01_e125_b855_d225, 0xb3bb_8542_b337_6de5, 0x002b_b8e4_cd98_9567,
         0x1690_08b3_a4bb_170b, 0x0c71_0a47_ba6a_567b, 0xb495_96c2_0feb_a7de, 0x66ad_cfa2_49ac_7bbd,
         0xf06d_ab55_1a1c_774a, 0xe96f_89dd_48cb_d851, 0xf099_6439_e7b5_0cb1, 2, 1, 0);
    Step(m, 42, 0xc24b_8b70_d0f8_9791, 0xaef7_a285_ff25_1266, 0xe96f_89dd_48cb_d851, 0xb015_21dd_6a6b_e12c, 0x8e01_e125_b855_d225, 0xb3bb_8542_b337_6de5,
         0xf099_6439_e7b5_0cb1, 0x1690_08b3_a4bb_170b, 0x0c71_0a47_ba6a_567b, 0xb495_96c2_0feb_a7de,
         0xafe1_33f6_2e16_53ab, 0xbc05_ba8d_e5d3_c480, 0x639c_b938_e14d_c190, 2, 1, 1);
    Step(m, 43, 0xc76c_51a3_0654_be30, 0x0b84_7258_1dee_a04f, 0xbc05_ba8d_e5d3_c480, 0xe96f_89dd_48cb_d851, 0xb015_21dd_6a6b_e12c, 0x8e01_e125_b855_d225,
         0x639c_b938_e14d_c190, 0xf099_6439_e7b5_0cb1, 0x1690_08b3_a4bb_170b, 0x0c71_0a47_ba6a_567b,
         0x3e4f_1f73_c701_3ecd, 0x35d7_e7f4_1def_cbd5, 0xcc51_0099_7f57_10f2, 2, 1, 0);
    Step(m, 44, 0xd192_e819_d6ef_5218, 0xb174_e26e_ddc7_b033, 0x35d7_e7f4_1def_cbd5, 0xbc05_ba8d_e5d3_c480, 0xe96f_89dd_48cb_d851, 0xb015_21dd_6a6b_e12c,
         0xcc51_0099_7f57_10f2, 0x639c_b938_e14d_c190, 0xf099_6439_e7b5_0cb1, 0x1690_08b3_a4bb_170b,
         0xd578_614d_767c_aff0, 0xc47c_9d5c_7ea8_a234, 0x858d_832a_e0e8_911c, 2, 1, 1);
    Step(m, 45, 0xd699_0624_5565_a910, 0x5d63_bae5_8ddd_88de, 0xc47c_9d5c_7ea8_a234, 0x35d7_e7f4_1def_cbd5, 0xbc05_ba8d_e5d3_c480, 0xe96f_89dd_48cb_d851,
         0x858d_832a_e0e8_911c, 0xcc51_0099_7f57_10f2, 0x639c_b938_e14d_c190, 0xf099_6439_e7b5_0cb1,
         0xffec_a07a_0e61_8c88, 0x021f_badb_abab_5ac6, 0xe95c_2a57_572d_64d9, 3, 2, 1);
    Step(m, 46, 0xf40e_3585_5771_202a, 0x4c04_4007_b744_ccbb, 0x021f_badb_abab_5ac6, 0xc47c_9d5c_7ea8_a234, 0x35d7_e7f4_1def_cbd5, 0xbc05_ba8d_e5d3_c480,
         0xe95c_2a57_572d_64d9, 0x858d_832a_e0e8_911c, 0xcc51_0099_7f57_10f2, 0x639c_b938_e14d_c190,
         0x0ab6_7ae6_27b9_e61a, 0xf61e_6726_94de_2d67, 0xc6bc_3574_0d8d_aa9a, 3, 0, 0);
    Step(m, 47, 0x106a_a070_32bb_d1b8, 0xe6a9_aa4d_74dc_7d43, 0xf61e_6726_94de_2d67, 0x021f_badb_abab_5ac6, 0xc47c_9d5c_7ea8_a234, 0x35d7_e7f4_1def_cbd5,
         0xc6bc_3574_0d8d_aa9a, 0xe95c_2a57_572d_64d9, 0x858d_832a_e0e8_911c, 0xcc51_0099_7f57_10f2,
         0xff4e_5b40_a24a_fcd8, 0x6b69_fc1b_b482_feac, 0x3526_4334_c03a_c8ad, 2, 2, 1);
  }

  lemma Rounds56(m: seq<word>)
    requires IsMessage(m)
    ensures After(m, 56, 0x63b4_60e4_2748_817e, 0xf650_857b_5bab_da4d, 0xd63f_6803_7ddf_06aa, 0x03df_11b3_2d42_e203,
                0xc6b4_dd2a_9931_c509, 0x9ccf_b31a_86df_0f86, 0xa678_1efe_1aa1_ce02, 0x504f_94e4_0591_cffa)
  {
    Rounds48(m);
    Constants48();
    Words48(m);
    hide After, Word, IsMessage, K;
    Step(m, 48, 0x19a4_c116_b8d2_d0c8, 0xebea_f123_7248_019c, 0x6b69_fc1b_b482_feac, 0xf61e_6726_94de_2d67, 0x021f_badb_abab_5ac6, 0xc47c_9d5c_7ea8_a234,
         0x3526_4334_c03a_c8ad, 0xc6bc_3574_0d8d_aa9a, 0xe95c_2a57_572d_64d9, 0x858d_832a_e0e8_911c,
         0x6298_e390_ed95_b41c, 0x571f_323d_96b3_a047, 0x2715_80ed_6c3e_5650, 2, 1, 1);
    Step(m, 49, 0x1e37_6c08_5141_ab53, 0x361e_80b2_d00f_3193, 0x571f_323d_96b3_a047, 0x6b69_fc1b_b482_feac, 0xf61e_6726_94de_2d67, 0x021f_badb_abab_5ac6,
         0x2715_80ed_6c3e_5650, 0x3526_4334_c03a_c8ad, 0xc6bc_3574_0d8d_aa9a, 0xe95c_2a57_572d_64d9,
         0xddc0_d6ff_05d7_8b7f, 0xca9b_d862_c505_0918, 0xdfe0_91da_b182_e645, 2, 1, 0);
    Step(m, 50, 0x2748_774c_df8e_eb99, 0x2e98_3912_5df3_b175, 0xca9b_d862_c505_0918, 0x571f_323d_96b3_a047, 0x6b69_fc1b_b482_feac, 0xf61e_6726_94de_2d67,
         0xdfe0_91da_b182_e645, 0x2715_80ed_6c3e_5650, 0x3526_4334_c03a_c8ad, 0xc6bc_3574_0d8d_aa9a,
         0x1182_71c8_ed3e_30b3, 0x813a_43dd_2c50_2043, 0x07a0_d8ef_821c_5e1a, 2, 0, 1);
    Step(m, 51, 0x34b0_bcb5_e19b_48a8, 0x3319_6292_93ad_5363, 0x813a_43dd_2c50_2043, 0xca9b_d862_c505_0918, 0x571f_323d_96b3_a047, 0x6b69_fc1b_b482_feac,
         0x07a0_d8ef_821c_5e1a, 0xdfe0_91da_b182_e645, 0x2715_80ed_6c3e_5650, 0x3526_4334_c03a_c8ad,
         0xdcd5_848c_7a2b_e392, 0xd43f_8372_7325_dd77, 0x483f_80a8_2eae_e23e, 0, 1, 1);
    Step(m, 52, 0x391c_0cb3_c5c9_5a63, 0x9cbc_5d89_ac1b_89d5, 0xd43f_8372_7325_dd77, 0x813a_43dd_2c50_2043, 0xca9b_d862_c505_0918, 0x571f_323d_96b3_a047,
         0x483f_80a8_2eae_e23e, 0x07a0_d8ef_821c_5e1a, 0xdfe0_91da_b182_e645, 0x2715_80ed_6c3e_5650,
         0xf930_62a6_6ede_2fb3, 0x03df_11b3_2d42_e203, 0x504f_94e4_0591_cffa, 1, 2, 1);
    Step(m, 53, 0x4ed8_aa4a_e341_8acb, 0x275e_23ff_eeca_50b7, 0x03df_11b3_2d42_e203, 0xd43f_8372_7325_dd77, 0x813a_43dd_2c50_2043, 0xca9b_d862_c505_0918,
         0x504f_94e4_0591_cffa, 0x483f_80a8_2eae_e23e, 0x07a0_d8ef_821c_5e1a, 0xdfe0_91da_b182_e645,
         0xdbdc_469b_559c_c4ea, 0xd63f_6803_7ddf_06aa, 0xa678_1efe_1aa1_ce02, 1, 1, 1);
    Step(m, 54, 0x5b9c_ca4f_7763_e373, 0x3b80_d680_bf69_ef58, 0xd63f_6803_7ddf_06aa, 0x03df_11b3_2d42_e203, 0xd43f_8372_7325_dd77, 0x813a_43dd_2c50_2043,
         0xa678_1efe_1aa1_ce02, 0x504f_94e4_0591_cffa, 0x483f_80a8_2eae_e23e, 0x07a0_d8ef_821c_5e1a,
         0x1b95_6f3d_5a8e_ef43, 0xf650_857b_5bab_da4d, 0x9ccf_b31a_86df_0f86, 1, 0, 0);
    Step(m, 55, 0x682e_6ff3_d6b2_b8a3, 0x0d06_9693_3945_a125, 0xf650_857b_5bab_da4d, 0xd63f_6803_7ddf_06aa, 0x03df_11b3_2d42_e203, 0xd43f_8372_7325_dd77,
         0x9ccf_b31a_86df_0f86, 0xa678_1efe_1aa1_ce02, 0x504f_94e4_0591_cffa, 0x483f_80a8_2eae_e23e,
         0xf275_59b8_260b_e792, 0x63b4_60e4_2748_817e, 0xc6b4_dd2a_9931_c509, 1, 2, 1);
  }

  lemma Rounds64(m: seq<word>)
    requires IsMessage(m)
    ensures After(m, 64, 0xab44_e862_7647_8d85, 0xa81d_edbb_9f19_e643, 0xcfcd_928c_5424_e2b6, 0x3857_dfd2_fc37_d3ba,
                0xcd88_1ee5_9ca6_bc53, 0x8405_8865_d60a_05fa, 0x09ae_e5bd_a164_4de5, 0xa6af_4e9c_9f80_7e51)
  {
    Rounds56(m);
    Constants56();
    Words56(m);
    hide After, Word, IsMessage, K;
    Step(m, 56, 0x748f_82ee_5def_b2fc, 0x7533_eabc_b786_ff00, 0x63b4_60e4_2748_817e, 0xf650_857b_5bab_da4d, 0xd63f_6803_7ddf_06aa, 0x03df_11b3_2d42_e203,
         0xc6b4_dd2a_9931_c509, 0x9ccf_b31a_86df_0f86, 0xa678_1efe_1aa1_ce02, 0x504f_94e4_0591_cffa,
         0xcf09_8a0a_649d_29dd, 0x7a52_9129_43d5_2b05, 0xd2e8_9bbd_91e0_0be0, 2, 2, 0);
    Step(m, 57, 0x78a5_636f_4317_2f60, 0xb898_26ce_e6fb_f0e5, 0x7a52_9129_43d5_2b05, 0x63b4_60e4_2748_817e, 0xf650_857b_5bab_da4d, 0xd63f_6803_7ddf_06aa,
         0xd2e8_9bbd_91e0_0be0, 0xc6b4_dd2a_9931_c509, 0x9ccf_b31a_86df_0f86, 0xa678_1efe_1aa1_ce02,
         0x9a10_f184_9464_4b02, 0x4b81_c3ae_c976_ea4b, 0x7050_5988_1243_51ac, 3, 1, 1);
    Step(m, 58, 0x84c8_7814_a1f0_ab72, 0x249b_4fbc_ad62_3e9f, 0x4b81_c3ae_c976_ea4b, 0x7a52_9129_43d5_2b05, 0x63b4_60e4_2748_817e, 0xf650_857b_5bab_da4d,
         0x7050_5988_1243_51ac, 0xd2e8_9bbd_91e0_0be0, 0xc6b4_dd2a_9931_c509, 0x9ccf_b31a_86df_0f86,
         0x73ec_1594_161c_e4e9, 0x581e_cb33_55dc_d9b8, 0x6a3c_9b0f_71c8_bf36, 2, 1, 1);
    Step(m, 59, 0x8cc7_0208_1a64_39ec, 0x4aea_9df2_b02d_6f1e, 0x581e_cb33_55dc_d9b8, 0x4b81_c3ae_c976_ea4b, 0x7a52_9129_43d5_2b05, 0x63b4_60e4_2748_817e,
         0x6a3c_9b0f_71c8_bf36, 0x7050_5988_1243_51ac, 0xd2e8_9bbd_91e0_0be0, 0xc6b4_dd2a_9931_c509,
         0xe3e3_6d00_c5ee_8514, 0x2c07_4484_ef1e_ac8c, 0x4797_cde4_ed37_0692, 2, 2, 1);
    Step(m, 60, 0x90be_fffa_2363_1e28, 0x2cc5_7475_a55e_8d8f, 0x2c07_4484_ef1e_ac8c, 0x581e_cb33_55dc_d9b8, 0x4b81_c3ae_c976_ea4b, 0x7a52_9129_43d5_2b05,
         0x4797_cde4_ed37_0692, 0x6a3c_9b0f_71c8_bf36, 0x7050_5988_1243_51ac, 0xd2e8_9bbd_91e0_0be0,
         0x2c5c_bd73_5bab_534c, 0x3857_dfd2_fc37_d3ba, 0xa6af_4e9c_9f80_7e51, 2, 1, 0);
    Step(m, 61, 0xa450_6ceb_de82_bde9, 0xb257_4ae9_38d8_be89, 0x3857_dfd2_fc37_d3ba, 0x2c07_4484_ef1e_ac8c, 0x581e_cb33_55dc_d9b8, 0x4b81_c3ae_c976_ea4b,
         0xa6af_4e9c_9f80_7e51, 0x4797_cde4_ed37_0692, 0x6a3c_9b0f_71c8_bf36, 0x7050_5988_1243_51ac,
         0xbe2d_220e_d7ed_639a, 0xcfcd_928c_5424_e2b6, 0x09ae_e5bd_a164_4de5, 2, 1, 1);
    Step(m, 62, 0xbef9_a3f7_b2c6_7915, 0xc1b3_5a57_b16d_6aea, 0xcfcd_928c_5424_e2b6, 0x3857_dfd2_fc37_d3ba, 0x2c07_4484_ef1e_ac8c, 0x581e_cb33_55dc_d9b8,
         0x09ae_e5bd_a164_4de5, 0xa6af_4e9c_9f80_7e51, 0x4797_cde4_ed37_0692, 0x6a3c_9b0f_71c8_bf36,
         0x2be6_bd32_802d_2c42, 0xa81d_edbb_9f19_e643, 0x8405_8865_d60a_05fa, 3, 0, 0);
    Step(m, 63, 0xc671_78f2_e372_532b, 0xcc49_18b5_9492_06bb, 0xa81d_edbb_9f19_e643, 0xcfcd_928c_5424_e2b6, 0x3857_dfd2_fc37_d3ba, 0x2c07_4484_ef1e_ac8c,
         0x8405_8865_d60a_05fa, 0x09ae_e5bd_a164_4de5, 0xa6af_4e9c_9f80_7e51, 0x4797_cde4_ed37_0692,
         0xa180_da60_ad88_0fc7, 0xab44_e862_7647_8d85, 0xcd88_1ee5_9ca6_bc53, 2, 1, 0);
  }

  lemma Rounds72(m: seq<word>)
    requires IsMessage(m)
    ensures After(m, 72, 0xf15e_9664_b280_3575, 0x7652_c579_cb60_f19c, 0xfb6a_aae5_d0b6_a447, 0x1818_39d6_09c7_9748,
                0x947c_3dfa_fee5_70ef, 0xaff6_2c96_65ff_80fa, 0xe371_1cb6_564d_112d, 0x0ada_78ba_2d44_6140)
  {
    Rounds64(m);
    Constants64();
    Words64(m);
    hide After, Word, IsMessage, K;
    Step(m, 64, 0xca27_3ece_ea26_619c, 0x5099_c3ad_d79f_90ec, 0xab44_e862_7647_8d85, 0xa81d_edbb_9f19_e643, 0xcfcd_928c_5424_e2b6, 0x3857_dfd2_fc37_d3ba,
         0xcd88_1ee5_9ca6_bc53, 0x8405_8865_d60a_05fa, 0x09ae_e5bd_a164_4de5, 0xa6af_4e9c_9f80_7e51,
         0x722c_d0b3_6c52_888b, 0x5a80_6d7e_9821_a501, 0xaa84_b086_688a_5c45, 2, 1, 0);
    Step(m, 65, 0xd186_b8c7_21c0_c207, 0x5ea8_1d78_e766_0bf1, 0x5a80_6d7e_9821_a501, 0xab44_e862_7647_8d85, 0xa81d_edbb_9f19_e643, 0xcfcd_928c_5424_e2b6,
         0xaa84_b086_688a_5c45, 0xcd88_1ee5_9ca6_bc53, 0x8405_8865_d60a_05fa, 0x09ae_e5bd_a164_4de5,
         0x6b92_5a81_15fa_b42b, 0xeeb9_c21b_b010_2598, 0x3b5f_ed0d_6a1f_96e1, 2, 1, 1);
    Step(m, 66, 0xeada_7dd6_cde0_eb1e, 0xebee_6267_405a_c2a9, 0xeeb9_c21b_b010_2598, 0x5a80_6d7e_9821_a501, 0xab44_e862_7647_8d85, 0xa81d_edbb_9f19_e643,
         0x3b5f_ed0d_6a1f_96e1, 0xaa84_b086_688a_5c45, 0xcd88_1ee5_9ca6_bc53, 0x8405_8865_d60a_05fa,
         0x81dc_c7ec_20db_4d23, 0x46c4_210a_b2cc_155d, 0x29fa_b5a7_bff5_3366, 3, 2, 1);
    Step(m, 67, 0xf57d_4f7f_ee6e_d178, 0xb01f_2192_6108_a4ab, 0x46c4_210a_b2cc_155d, 0xeeb9_c21b_b010_2598, 0x5a80_6d7e_9821_a501, 0xab44_e862_7647_8d85,
         0x29fa_b5a7_bff5_3366, 0x3b5f_ed0d_6a1f_96e1, 0xaa84_b086_688a_5c45, 0xcd88_1ee5_9ca6_bc53,
         0x7122_0c0b_1f21_7e4a, 0x54ba_35cf_56a0_340e, 0x1c66_f46d_9569_0bcf, 3, 1, 1);
    Step(m, 68, 0x06f0_67aa_7217_6fba, 0x7864_33dd_2fe6_5556, 0x54ba_35cf_56a0_340e, 0x46c4_210a_b2cc_155d, 0xeeb9_c21b_b010_2598, 0x5a80_6d7e_9821_a501,
         0x1c66_f46d_9569_0bcf, 0x29fa_b5a7_bff5_3366, 0x3b5f_ed0d_6a1f_96e1, 0xaa84_b086_688a_5c45,
         0xb05a_0b3b_9522_bc3f, 0x1818_39d6_09c7_9748, 0x0ada_78ba_2d44_6140, 1, 1, 1);
    Step(m, 69, 0x0a63_7dc5_a2c8_98a6, 0xc54a_6eaa_24a0_552c, 0x1818_39d6_09c7_9748, 0x54ba_35cf_56a0_340e, 0x46c4_210a_b2cc_155d, 0xeeb9_c21b_b010_2598,
         0x0ada_78ba_2d44_6140, 0x1c66_f46d_9569_0bcf, 0x29fa_b5a7_bff5_3366, 0x3b5f_ed0d_6a1f_96e1,
         0xf4b7_5a9a_a63c_eb95, 0xfb6a_aae5_d0b6_a447, 0xe371_1cb6_564d_112d, 1, 1, 1);
    Step(m, 70, 0x113f_9804_bef9_0dae, 0xb3c8_f153_0bdb_aa9e, 0xfb6a_aae5_d0b6_a447, 0x1818_39d6_09c7_9748, 0x54ba_35cf_56a0_340e, 0x46c4_210a_b2cc_155d,
         0xe371_1cb6_564d_112d, 0x0ada_78ba_2d44_6140, 0x1c66_f46d_9569_0bcf, 0x29fa_b5a7_bff5_3366,
         0x6932_0b8b_b333_6b9d, 0x7652_c579_cb60_f19c, 0xaff6_2c96_65ff_80fa, 1, 1, 0);
    Step(m, 71, 0x1b71_0b35_131c_471b, 0xbb8a_bfe5_6f46_9338, 0x7652_c579_cb60_f19c, 0xfb6a_aae5_d0b6_a447, 0x1818_39d6_09c7_9748, 0x54ba_35cf_56a0_340e,
         0xaff6_2c96_65ff_80fa, 0xe371_1cb6_564d_112d, 0x0ada_78ba_2d44_6140, 0x1c66_f46d_9569_0bcf,
         0x3fc2_082b_a845_3ce1, 0xf15e_9664_b280_3575, 0x947c_3dfa_fee5_70ef, 2, 0, 0);
  }

  lemma Rounds80(m: seq<word>)
    requires IsMessage(m)
    ensures After(m, 80, 0x73a5_4f39_9fa4_b1b2, 0x10d9_c4c4_2955_99f6, 0xd678_06db_8b14_8677, 0x654e_f9ab_ec38_9ca9,
                0xd084_46aa_7969_3ed7, 0x9bb4_d397_78c0_7f9e, 0x25c9_6a77_68fb_2aa3, 0xceb9_fc36_91ce_8326)
  {
    Rounds72(m);
    Constants72();
    Words72(m);
    hide After, Word, IsMessage, K;
    Step(m, 72, 0x28db_77f5_2304_7d84, 0xf63d_4265_cc1c_5a78, 0xf15e_9664_b280_3575, 0x7652_c579_cb60_f19c, 0xfb6a_aae5_d0b6_a447, 0x1818_39d6_09c7_9748,
         0x947c_3dfa_fee5_70ef, 0xaff6_2c96_65ff_80fa, 0xe371_1cb6_564d_112d, 0x0ada_78ba_2d44_6140,
         0x7463_2603_10b1_b558, 0x3584_06d1_65ae_e9ab, 0x8c7b_5fd9_1a79_4ca0, 2, 2, 0);
    Step(m, 73, 0x32ca_ab7b_40c7_2493, 0xbe83_55ea_7312_9afb, 0x3584_06d1_65ae_e9ab, 0xf15e_9664_b280_3575, 0x7652_c579_cb60_f19c, 0xfb6a_aae5_d0b6_a447,
         0x8c7b_5fd9_1a79_4ca0, 0x947c_3dfa_fee5_70ef, 0xaff6_2c96_65ff_80fa, 0xe371_1cb6_564d_112d,
         0x09e2_8a50_82e2_a489, 0x2087_8dcd_29cd_faf5, 0x054d_3536_5399_48d0, 3, 1, 1);
    Step(m, 74, 0x3c9e_be0a_15c9_bebc, 0x49e2_db8e_bdcf_beb5, 0x2087_8dcd_29cd_faf5, 0x3584_06d1_65ae_e9ab, 0xf15e_9664_b280_3575, 0x7652_c579_cb60_f19c,
         0x054d_3536_5399_48d0, 0x8c7b_5fd9_1a79_4ca0, 0x947c_3dfa_fee5_70ef, 0xaff6_2c96_65ff_80fa,
         0xb54e_bccb_e9ac_f333, 0x33d4_8dab_b552_1de2, 0x2ba1_8245_b50d_e4cf, 2, 1, 1);
    Step(m, 75, 0x431d_67c4_9c10_0d4c, 0x8226_9d4a_883a_3d99, 0x33d4_8dab_b552_1de2, 0x2087_8dcd_29cd_faf5, 0x3584_06d1_65ae_e9ab, 0xf15e_9664_b280_3575,
         0x2ba1_8245_b50d_e4cf, 0x054d_3536_5399_48d0, 0x8c7b_5fd9_1a79_4ca0, 0x947c_3dfa_fee5_70ef,
         0xa7f1_8342_4cbb_6e69, 0xc896_0e6b_e864_b916, 0x9950_19a6_ff3b_a3de, 2, 1, 1);
    Step(m, 76, 0x4cc5_d4be_cb3e_42b6, 0xfdf5_3df3_011f_362b, 0xc896_0e6b_e864_b916, 0x33d4_8dab_b552_1de2, 0x2087_8dcd_29cd_faf5, 0x3584_06d1_65ae_e9ab,
         0x9950_19a6_ff3b_a3de, 0x2ba1_8245_b50d_e4cf, 0x054d_3536_5399_48d0, 0x8c7b_5fd9_1a79_4ca0,
         0x9935_f565_2c1f_997b, 0x654e_f9ab_ec38_9ca9, 0xceb9_fc36_91ce_8326, 2, 1, 0);
    Step(m, 77, 0x597f_299c_fc65_7e2a, 0x464a_f567_1d71_c12e, 0x654e_f9ab_ec38_9ca9, 0xc896_0e6b_e864_b916, 0x33d4_8dab_b552_1de2, 0x2087_8dcd_29cd_faf5,
         0xceb9_fc36_91ce_8326, 0x9950_19a6_ff3b_a3de, 0x2ba1_8245_b50d_e4cf, 0x054d_3536_5399_48d0,
         0x0541_dcaa_3f2d_2fae, 0xd678_06db_8b14_8677, 0x25c9_6a77_68fb_2aa3, 2, 0, 0);
    Step(m, 78, 0x5fcb_6fab_3ad6_faec, 0xe449_b681_98ec_611c, 0xd678_06db_8b14_8677, 0x654e_f9ab_ec38_9ca9, 0xc896_0e6b_e864_b916, 0x33d4_8dab_b552_1de2,
         0x25c9_6a77_68fb_2aa3, 0xceb9_fc36_91ce_8326, 0x9950_19a6_ff3b_a3de, 0x2ba1_8245_b50d_e4cf,
         0x67e0_45eb_c36e_61bc, 0x10d9_c4c4_2955_99f6, 0x9bb4_d397_78c0_7f9e, 2, 2, 0);
    Step(m, 79, 0x6c44_198c_4a47_5817, 0x92ae_eed1_a7bc_f7d2, 0x10d9_c4c4_2955_99f6, 0xd678_06db_8b14_8677, 0x654e_f9ab_ec38_9ca9, 0xc896_0e6b_e864_b916,
         0x9bb4_d397_78c0_7f9e, 0x25c9_6a77_68fb_2aa3, 0xceb9_fc36_91ce_8326, 0x9950_19a6_ff3b_a3de,
         0x07ee_383e_9104_85c1, 0x73a5_4f39_9fa4_b1b2, 0xd084_46aa_7969_3ed7, 2, 0, 0);
  }

  // ---------- The digest ----------

  lemma Final(m: seq<word>)
    requires IsMessage(m)
    ensures |IV| == 8
    ensures Rounds(FromWords(IV), m, 80) == State(0x73a5_4f39_9fa4_b1b2, 0x10d9_c4c4_2955_99f6, 0xd678_06db_8b14_8677, 0x654e_f9ab_ec38_9ca9,
                                             0xd084_46aa_7969_3ed7, 0x9bb4_d397_78c0_7f9e, 0x25c9_6a77_68fb_2aa3, 0xceb9_fc36_91ce_8326)
  {
    Tables();
    Rounds80(m);
    AfterMeans(m, 80, 0x73a5_4f39_9fa4_b1b2, 0x10d9_c4c4_2955_99f6, 0xd678_06db_8b14_8677, 0x654e_f9ab_ec38_9ca9,
               0xd084_46aa_7969_3ed7, 0x9bb4_d397_78c0_7f9e, 0x25c9_6a77_68fb_2aa3, 0xceb9_fc36_91ce_8326);
    hide Rounds, IsMessage, IV, K;
  }

  lemma Sum()
    ensures |IV| == 8
    ensures AddRegisters(IV, State(0x73a5_4f39_9fa4_b1b2, 0x10d9_c4c4_2955_99f6, 0xd678_06db_8b14_8677, 0x654e_f9ab_ec38_9ca9,
                               0xd084_46aa_7969_3ed7, 0x9bb4_d397_78c0_7f9e, 0x25c9_6a77_68fb_2aa3, 0xceb9_fc36_91ce_8326))
         == [0xddaf_35a1_9361_7aba, 0xcc41_7349_ae20_4131, 0x12e6_fa4e_89a9_7ea2, 0x0a9e_eee6_4b55_d39a,
             0x2192_992a_274f_c1a8, 0x36ba_3c23_a3fe_ebbd, 0x454d_4423_643c_e80e, 0x2a9a_c94f_a54c_a49f]
  {
    Tables();
    hide Plus;
    PlusIs(0x6a09_e667_f3bc_c908, 0x73a5_4f39_9fa4_b1b2, 0, 0xddaf_35a1_9361_7aba);
    PlusIs(0xbb67_ae85_84ca_a73b, 0x10d9_c4c4_2955_99f6, 0, 0xcc41_7349_ae20_4131);
    PlusIs(0x3c6e_f372_fe94_f82b, 0xd678_06db_8b14_8677, 1, 0x12e6_fa4e_89a9_7ea2);
    PlusIs(0xa54f_f53a_5f1d_36f1, 0x654e_f9ab_ec38_9ca9, 1, 0x0a9e_eee6_4b55_d39a);
    PlusIs(0x510e_527f_ade6_82d1, 0xd084_46aa_7969_3ed7, 1, 0x2192_992a_274f_c1a8);
    PlusIs(0x9b05_688c_2b3e_6c1f, 0x9bb4_d397_78c0_7f9e, 1, 0x36ba_3c23_a3fe_ebbd);
    PlusIs(0x1f83_d9ab_fb41_bd6b, 0x25c9_6a77_68fb_2aa3, 0, 0x454d_4423_643c_e80e);
    PlusIs(0x5be0_cd19_137e_2179, 0xceb9_fc36_91ce_8326, 1, 0x2a9a_c94f_a54c_a49f);
  }

  lemma Digit(x: int, p: int, high: int, o: byte, low: int)
    requires 0 <= low < p && x == p * (256 * high + o) + low
    ensures x / p % 256 == o
  {
    DivUnique(x, p, 256 * high + o, low);
    DivUnique(256 * high + o, 256, high, o);
  }

  lemma StoreOctets(o0: byte, o1: byte, o2: byte, o3: byte, o4: byte, o5: byte, o6: byte, o7: byte, x: int)
    requires x == 0x100000000000000 * o0 + 0x1000000000000 * o1 + 0x10000000000 * o2 + 0x100000000 * o3 + 0x1000000 * o4 + 0x10000 * o5 + 0x100 * o6 + o7
    ensures StoreWord(x) == [o0, o1, o2, o3, o4, o5, o6, o7]
  {
    Digit(x, 0x100000000000000, 0, o0,
          0x1000000000000 * o1 + 0x10000000000 * o2 + 0x100000000 * o3 + 0x1000000 * o4 + 0x10000 * o5 + 0x100 * o6 + o7);
    Digit(x, 0x1000000000000, o0, o1,
          0x10000000000 * o2 + 0x100000000 * o3 + 0x1000000 * o4 + 0x10000 * o5 + 0x100 * o6 + o7);
    Digit(x, 0x10000000000, 0x100 * o0 + o1, o2,
          0x100000000 * o3 + 0x1000000 * o4 + 0x10000 * o5 + 0x100 * o6 + o7);
    Digit(x, 0x100000000, 0x10000 * o0 + 0x100 * o1 + o2, o3,
          0x1000000 * o4 + 0x10000 * o5 + 0x100 * o6 + o7);
    Digit(x, 0x1000000, 0x1000000 * o0 + 0x10000 * o1 + 0x100 * o2 + o3, o4,
          0x10000 * o5 + 0x100 * o6 + o7);
    Digit(x, 0x10000, 0x100000000 * o0 + 0x1000000 * o1 + 0x10000 * o2 + 0x100 * o3 + o4, o5,
          0x100 * o6 + o7);
    Digit(x, 0x100, 0x10000000000 * o0 + 0x100000000 * o1 + 0x1000000 * o2 + 0x10000 * o3 + 0x100 * o4 + o5, o6,
          o7);
    Digit(x, 0x1, 0x1000000000000 * o0 + 0x10000000000 * o1 + 0x100000000 * o2 + 0x1000000 * o3 + 0x10000 * o4 + 0x100 * o5 + o6, o7,
          0);
  }

  lemma Octets()
    ensures StoreWord(0xddaf_35a1_9361_7aba) == [0xdd, 0xaf, 0x35, 0xa1, 0x93, 0x61, 0x7a, 0xba]
    ensures StoreWord(0xcc41_7349_ae20_4131) == [0xcc, 0x41, 0x73, 0x49, 0xae, 0x20, 0x41, 0x31]
    ensures StoreWord(0x12e6_fa4e_89a9_7ea2) == [0x12, 0xe6, 0xfa, 0x4e, 0x89, 0xa9, 0x7e, 0xa2]
    ensures StoreWord(0x0a9e_eee6_4b55_d39a) == [0x0a, 0x9e, 0xee, 0xe6, 0x4b, 0x55, 0xd3, 0x9a]
    ensures StoreWord(0x2192_992a_274f_c1a8) == [0x21, 0x92, 0x99, 0x2a, 0x27, 0x4f, 0xc1, 0xa8]
    ensures StoreWord(0x36ba_3c23_a3fe_ebbd) == [0x36, 0xba, 0x3c, 0x23, 0xa3, 0xfe, 0xeb, 0xbd]
    ensures StoreWord(0x454d_4423_643c_e80e) == [0x45, 0x4d, 0x44, 0x23, 0x64, 0x3c, 0xe8, 0x0e]
    ensures StoreWord(0x2a9a_c94f_a54c_a49f) == [0x2a, 0x9a, 0xc9, 0x4f, 0xa5, 0x4c, 0xa4, 0x9f]
  {
    hide StoreWord;
    StoreOctets(0xdd, 0xaf, 0x35, 0xa1, 0x93, 0x61, 0x7a, 0xba, 0xddaf_35a1_9361_7aba);
    StoreOctets(0xcc, 0x41, 0x73, 0x49, 0xae, 0x20, 0x41, 0x31, 0xcc41_7349_ae20_4131);
    StoreOctets(0x12, 0xe6, 0xfa, 0x4e, 0x89, 0xa9, 0x7e, 0xa2, 0x12e6_fa4e_89a9_7ea2);
    StoreOctets(0x0a, 0x9e, 0xee, 0xe6, 0x4b, 0x55, 0xd3, 0x9a, 0x0a9e_eee6_4b55_d39a);
    StoreOctets(0x21, 0x92, 0x99, 0x2a, 0x27, 0x4f, 0xc1, 0xa8, 0x2192_992a_274f_c1a8);
    StoreOctets(0x36, 0xba, 0x3c, 0x23, 0xa3, 0xfe, 0xeb, 0xbd, 0x36ba_3c23_a3fe_ebbd);
    StoreOctets(0x45, 0x4d, 0x44, 0x23, 0x64, 0x3c, 0xe8, 0x0e, 0x454d_4423_643c_e80e);
    StoreOctets(0x2a, 0x9a, 0xc9, 0x4f, 0xa5, 0x4c, 0xa4, 0x9f, 0x2a9a_c94f_a54c_a49f);
  }

  predicate GivesAt(depth: nat, m: seq<byte>, h: seq<byte>)
    decreases depth, m, h
  {
    if depth == 0 then Sha512(m) == h else GivesAt(depth - 1, m, h)
  }

  /** The digest of m is h; folded up. */
  predicate Gives(m: seq<byte>, h: seq<byte>) {
    GivesAt(4, m, h)
  }

  lemma GivesMeans(m: seq<byte>, h: seq<byte>)
    ensures Gives(m, h) <==> Sha512(m) == h
  {
    hide Sha512;
    assert GivesAt(2, m, h) == GivesAt(0, m, h);
    assert GivesAt(4, m, h) == GivesAt(2, m, h);
  }

  /** The digest the standard gives for "abc". */
  const DIGEST: seq<byte> :=
    [0xdd, 0xaf, 0x35, 0xa1, 0x93, 0x61, 0x7a, 0xba] +
    [0xcc, 0x41, 0x73, 0x49, 0xae, 0x20, 0x41, 0x31] +
    [0x12, 0xe6, 0xfa, 0x4e, 0x89, 0xa9, 0x7e, 0xa2] +
    [0x0a, 0x9e, 0xee, 0xe6, 0x4b, 0x55, 0xd3, 0x9a] +
    [0x21, 0x92, 0x99, 0x2a, 0x27, 0x4f, 0xc1, 0xa8] +
    [0x36, 0xba, 0x3c, 0x23, 0xa3, 0xfe, 0xeb, 0xbd] +
    [0x45, 0x4d, 0x44, 0x23, 0x64, 0x3c, 0xe8, 0x0e] +
    [0x2a, 0x9a, 0xc9, 0x4f, 0xa5, 0x4c, 0xa4, 0x9f]

  lemma Example()
    ensures Gives(ABC, DIGEST)
  {
    GivesMeans(ABC, DIGEST);
    hide Gives;
    Tables();
    BlockIs();
    BlockWordsAre();
    hide Rounds, Compress, CompressAll, Padded, Block, AddRegisters, BlockWords, IV, IsMessage, StoreWord, FromWords;
    Final(BlockWords(Block()));
    Sum();
    CompressOne(IV, Block());
    CompressMeans(IV, Block());
    Octets();
  }
}
