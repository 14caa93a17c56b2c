/** The one-block example of the standard: Sha256 of "abc", computed round by round.  It fixes what the
    standard gives as tables and figures: constants, rotations, the order of octets, padding. */
module Sha256Example {
  import opened Arithmetic
  import opened Bytes
  import opened Sha256Spec
  import opened Sha256Constants

  // ---------- One step on bit patterns ----------

  function Num(x: bv32): word {
    x as int
  }

  function State(a: bv32, b: bv32, c: bv32, d: bv32, e: bv32, f: bv32, g: bv32, h: bv32): Registers {
    Registers(Num(a), Num(b), Num(c), Num(d), Num(e), Num(f), Num(g), Num(h))
  }

  lemma LargeSums(x: bv32)
    ensures Sum0(Num(x)) == Num(Sum0Bits(x)) && Sum1(Num(x)) == Num(Sum1Bits(x))
  {
    hide Sum0Bits, Sum1Bits;
  }

  lemma SmallSums(x: bv32)
    ensures Small0(Num(x)) == Num(Small0Bits(x)) && Small1(Num(x)) == Num(Small1Bits(x))
  {
    hide Small0Bits, Small1Bits;
  }

  predicate WordAt(depth: nat, m: seq<word>, t: nat, w: word)
    decreases depth, m, t, w
  {
    if depth == 0 then |m| == 16 && Schedule(m, t) == w else WordAt(depth - 1, m, t, w)
  }

  /** Word t of the message schedule is w; folded up. */
  predicate Word(m: seq<word>, t: nat, w: word) {
    WordAt(4, m, t, w)
  }

  lemma WordMeans(m: seq<word>, t: nat, w: word)
    ensures Word(m, t, w) <==> |m| == 16 && Schedule(m, t) == w
  {
    hide Schedule;
    assert WordAt(2, m, t, w) == WordAt(0, m, t, w);
    assert WordAt(4, m, t, w) == WordAt(2, m, t, w);
  }

  predicate AfterAt(depth: nat, m: seq<word>, t: nat, r: Registers)
    decreases depth, m, t, r
  {
    if depth == 0 then |m| == 16 && t <= 64 && Rounds(Start(), m, t) == r else AfterAt(depth - 1, m, t, r)
  }

  /** The registers after t rounds; folded up. */
  predicate After(m: seq<word>, t: nat, a: bv32, b: bv32, c: bv32, d: bv32, e: bv32, f: bv32, g: bv32, h: bv32)
  {
    AfterAt(4, m, t, State(a, b, c, d, e, f, g, h))
  }

  lemma AfterMeans(m: seq<word>, t: nat, a: bv32, b: bv32, c: bv32, d: bv32, e: bv32, f: bv32, g: bv32, h: bv32)
    ensures After(m, t, a, b, c, d, e, f, g, h) <==>
            |m| == 16 && t <= 64 && Rounds(Start(), m, t) == State(a, b, c, d, e, f, g, h)
  {
    var r := State(a, b, c, d, e, f, g, h);
    hide Rounds, State, Start;
    assert AfterAt(2, m, t, r) == AfterAt(0, m, t, r);
    assert AfterAt(4, m, t, r) == AfterAt(2, m, t, r);
  }

  lemma ChoiceIs(x: bv32, y: bv32, z: bv32)
    ensures Ch(Num(x), Num(y), Num(z)) == Num(ChoiceOf(x, y, z))
    ensures Maj(Num(x), Num(y), Num(z)) == Num(MajorityOf(x, y, z))
  {
  }

  lemma PlusIs(x: word, y: word, c: int, z: word)
    requires x + y == z + c * 0x0001_0000_0000 && 0 <= c
    ensures Plus(x, y) == z
  {
  }

  lemma Wraps(x: int, c: int, s: word)
    requires x == s + c * 0x0001_0000_0000
    ensures x % 0x0001_0000_0000 == s
  {
  }

  /** Adding to a sum that already wrapped. */
  lemma PlusMore(x: int, p: word, y: word)
    requires p == x % 0x0001_0000_0000
    ensures Plus(p, y) == (x + y) % 0x0001_0000_0000
  {
    var q := x / 0x0001_0000_0000;
    assert p + y == x + y - q * 0x0001_0000_0000;
  }

  lemma SumOfFour(x: word, y: word, z: word, v: word, c: int, s: word)
    requires x + y + z + v == s + c * 0x0001_0000_0000
    ensures Plus(Plus(Plus(x, y), z), v) == s
  {
    hide Plus;
    PlusMore(x, x, y);
    PlusMore(x + y, Plus(x, y), z);
    PlusMore(x + y + z, Plus(Plus(x, y), z), v);
    Wraps(x + y + z + v, c, s);
  }

  lemma SumOfFive(x: word, y: word, z: word, v: word, w: word, c: int, s: word)
    requires x + y + z + v + w == s + c * 0x0001_0000_0000
    ensures Plus(Plus(Plus(Plus(x, y), z), v), w) == s
  {
    hide Plus;
    PlusMore(x, x, y);
    PlusMore(x + y, Plus(x, y), z);
    PlusMore(x + y + z, Plus(Plus(x, y), z), v);
    PlusMore(x + y + z + v, Plus(Plus(Plus(x, y), z), v), w);
    Wraps(x + y + z + v + w, c, s);
  }

  lemma SumOfThree(x: word, y: word, z: word, c: int, s: word)
    requires x + y + z == s + c * 0x0001_0000_0000
    ensures Plus(x, Plus(y, z)) == s
  {
    PlusMore(y, y, z);
    PlusMore(y + z, Plus(y, z), x);
    Wraps(x + y + z, c, s);
  }

  lemma RoundIs(k: word, w: word, a: bv32, b: bv32, c: bv32, d: bv32, e: bv32, f: bv32, g: bv32, h: bv32,
                t1: word, x: bv32, y: bv32, i: int, j: int, l: int)
    requires 0 <= l
    requires Num(h) + Num(Sum1Bits(e)) + Num(ChoiceOf(e, f, g)) + k + w == t1 + i * 0x0001_0000_0000
    requires t1 + Num(Sum0Bits(a)) + Num(MajorityOf(a, b, c)) == Num(x) + j * 0x0001_0000_0000
    requires Num(d) + t1 == Num(y) + l * 0x0001_0000_0000
    ensures Round(State(a, b, c, d, e, f, g, h), k, w) == State(x, a, b, c, y, e, f, g)
  {
    LargeSums(a);
    LargeSums(e);
    ChoiceIs(a, b, c);
    ChoiceIs(e, f, g);
    hide Num, Sum0, Sum1, Ch, Maj, Plus, Sum0Bits, Sum1Bits, ChoiceOf, MajorityOf;
    SumOfFive(Num(h), Num(Sum1Bits(e)), Num(ChoiceOf(e, f, g)), k, w, i, t1);
    SumOfThree(t1, Num(Sum0Bits(a)), Num(MajorityOf(a, b, c)), j, Num(x));
    PlusIs(Num(d), t1, l, Num(y));
  }

  /** One round: registers a to h, the constant k, the word w; t1 is the sum of five, x and y are the
      new a and e, and i, j, l count how often the sums pass 2^32. */
  lemma Step(m: seq<word>, t: nat, k: word, w: word, a: bv32, b: bv32, c: bv32, d: bv32, e: bv32, f: bv32, g: bv32,
             h: bv32, t1: word, x: bv32, y: bv32, i: int, j: int, l: int)
    requires t < 64 && |K| == 64 && K[t] == k && Word(m, t, w) && After(m, t, a, b, c, d, e, f, g, h)
    requires 0 <= l
    requires Num(h) + Num(Sum1Bits(e)) + Num(ChoiceOf(e, f, g)) + k + w == t1 + i * 0x0001_0000_0000
    requires t1 + Num(Sum0Bits(a)) + Num(MajorityOf(a, b, c)) == Num(x) + j * 0x0001_0000_0000
    requires Num(d) + t1 == Num(y) + l * 0x0001_0000_0000
    ensures After(m, t + 1, x, a, b, c, y, e, f, g)
  {
    RoundIs(k, w, a, b, c, d, e, f, g, h, t1, x, y, i, j, l);
    WordMeans(m, t, w);
    AfterMeans(m, t, a, b, c, d, e, f, g, h);
    AfterMeans(m, t + 1, x, a, b, c, y, e, f, g);
    hide Num, State, Round, Start, Schedule, K, Sum0Bits, Sum1Bits, ChoiceOf, MajorityOf;
  }

  /** Word t of the schedule. */
  lemma Extend(m: seq<word>, t: nat, s: bv32, p: word, q: bv32, r: word, w: word, c: int)
    requires 16 <= t && Word(m, t - 2, Num(s)) && Word(m, t - 7, p) && Word(m, t - 15, Num(q)) && Word(m, t - 16, r)
    requires Num(Small1Bits(s)) + p + Num(Small0Bits(q)) + r == w + c * 0x0001_0000_0000
    ensures Word(m, t, w)
  {
    WordMeans(m, t - 2, Num(s));
    WordMeans(m, t - 7, p);
    WordMeans(m, t - 15, Num(q));
    WordMeans(m, t - 16, r);
    WordMeans(m, t, w);
    SmallSums(s);
    SmallSums(q);
    SumOfFour(Num(Small1Bits(s)), p, Num(Small0Bits(q)), r, c, w);
    hide Num, Small0, Small1, Plus;
  }

  // ---------- The message ----------

  /** "abc". */
  const ABC: seq<byte> := [0x61, 0x62, 0x63]

  /** The words of the padded message. */
  predicate IsMessage(m: seq<word>) {
    |m| == 16 && m[0] == 0x6162_6380 && m[15] == 24 && forall t :: 1 <= t < 15 ==> m[t] == 0
  }

  function Start(): Registers {
    Tables();
    FromWords(IV)
  }

  /** The message padded: the marker after its three octets, and 24 bits counted at the end. */
  function Block(): (b: seq<byte>)
    ensures |b| == 64
  {
    ABC + [0x80] + Zeros(52) + Zeros(7) + [24]
  }

  lemma BlockIs()
    ensures Padded(ABC) == Block()
  {
    assert ZeroCount(3) == 52;
    assert LengthField(3) == Zeros(7) + [24];
    assert ABC + [0x80] + Zeros(52) + LengthField(3) == Block();
  }

  lemma BlockWordsAre()
    ensures IsMessage(BlockWords(Block()))
  {
    var b := Block();
    assert b[0] == 0x61 && b[1] == 0x62 && b[2] == 0x63 && b[3] == 0x80 && b[63] == 24;
    assert forall i :: 4 <= i < 63 ==> b[i] == 0;
    hide Block;
    forall t | 1 <= t < 15 ensures LoadWord(b, 4 * t) == 0 {
    }
  }

  lemma Words0(m: seq<word>)
    requires IsMessage(m)
    ensures Word(m, 0, 0x6162_6380) && Word(m, 15, 0x0000_0018) && forall t :: 1 <= t < 15 ==> Word(m, t, 0)
  {
    WordMeans(m, 0, 0x6162_6380);
    WordMeans(m, 15, 0x0000_0018);
    forall t | 1 <= t < 15 ensures Word(m, t, 0) {
      WordMeans(m, t, 0);
    }
  }

  lemma Words16(m: seq<word>)
    requires IsMessage(m)
    ensures Word(m, 16, 0x6162_6380)
    ensures Word(m, 17, 0x000f_0000)
    ensures Word(m, 18, 0x7da8_6405)
    ensures Word(m, 19, 0x6000_03c6)
    ensures Word(m, 20, 0x3e9d_7b78)
    ensures Word(m, 21, 0x0183_fc00)
    ensures Word(m, 22, 0x12dc_bfdb)
    ensures Word(m, 23, 0xe2e2_c38e)
  {
    Words0(m);
    hide Word, IsMessage;
    Extend(m, 16, 0x0000_0000, 0x0000_0000, 0x0000_0000, 0x6162_6380, 0x6162_6380, 0);
    Extend(m, 17, 0x0000_0018, 0x0000_0000, 0x0000_0000, 0x0000_0000, 0x000f_0000, 0);
    Extend(m, 18, 0x6162_6380, 0x0000_0000, 0x0000_0000, 0x0000_0000, 0x7da8_6405, 0);
    Extend(m, 19, 0x000f_0000, 0x0000_0000, 0x0000_0000, 0x0000_0000, 0x6000_03c6, 0);
    Extend(m, 20, 0x7da8_6405, 0x0000_0000, 0x0000_0000, 0x0000_0000, 0x3e9d_7b78, 0);
    Extend(m, 21, 0x6000_03c6, 0x0000_0000, 0x0000_0000, 0x0000_0000, 0x0183_fc00, 0);
    Extend(m, 22, 0x3e9d_7b78, 0x0000_0018, 0x0000_0000, 0x0000_0000, 0x12dc_bfdb, 0);
    Extend(m, 23, 0x0183_fc00, 0x6162_6380, 0x0000_0000, 0x0000_0000, 0xe2e2_c38e, 0);
  }

  lemma Words24(m: seq<word>)
    requires IsMessage(m)
    ensures Word(m, 24, 0xc821_5c1a)
    ensures Word(m, 25, 0xb736_79a2)
    ensures Word(m, 26, 0xe5bc_3909)
    ensures Word(m, 27, 0x3266_3c5b)
    ensures Word(m, 28, 0x9d20_9d67)
    ensures Word(m, 29, 0xec87_26cb)
    ensures Word(m, 30, 0x7021_38a4)
    ensures Word(m, 31, 0xd3b7_973b)
  {
    Words0(m);
    Words16(m);
    hide Word, IsMessage;
    Extend(m, 24, 0x12dc_bfdb, 0x000f_0000, 0x0000_0000, 0x0000_0000, 0xc821_5c1a, 0);
    Extend(m, 25, 0xe2e2_c38e, 0x7da8_6405, 0x0000_0000, 0x0000_0000, 0xb736_79a2, 0);
    Extend(m, 26, 0xc821_5c1a, 0x6000_03c6, 0x0000_0000, 0x0000_0000, 0xe5bc_3909, 0);
    Extend(m, 27, 0xb736_79a2, 0x3e9d_7b78, 0x0000_0000, 0x0000_0000, 0x3266_3c5b, 1);
    Extend(m, 28, 0xe5bc_3909, 0x0183_fc00, 0x0000_0000, 0x0000_0000, 0x9d20_9d67, 0);
    Extend(m, 29, 0x3266_3c5b, 0x12dc_bfdb, 0x0000_0000, 0x0000_0000, 0xec87_26cb, 0);
    Extend(m, 30, 0x9d20_9d67, 0xe2e2_c38e, 0x0000_0018, 0x0000_0000, 0x7021_38a4, 1);
    Extend(m, 31, 0xec87_26cb, 0xc821_5c1a, 0x6162_6380, 0x0000_0018, 0xd3b7_973b, 1);
  }

  lemma Words32(m: seq<word>)
    requires IsMessage(m)
    ensures Word(m, 32, 0x93f5_997f)
    ensures Word(m, 33, 0x3b68_ba73)
    ensures Word(m, 34, 0xaff4_ffc1)
    ensures Word(m, 35, 0xf10a_5c62)
    ensures Word(m, 36, 0x0a8b_3996)
    ensures Word(m, 37, 0x72af_830a)
    ensures Word(m, 38, 0x9409_e33e)
    ensures Word(m, 39, 0x2464_1522)
  {
    Words16(m);
    Words24(m);
    hide Word, IsMessage;
    Extend(m, 32, 0x7021_38a4, 0xb736_79a2, 0x000f_0000, 0x6162_6380, 0x93f5_997f, 2);
    Extend(m, 33, 0xd3b7_973b, 0xe5bc_3909, 0x7da8_6405, 0x000f_0000, 0x3b68_ba73, 1);
    Extend(m, 34, 0x93f5_997f, 0x3266_3c5b, 0x6000_03c6, 0x7da8_6405, 0xaff4_ffc1, 1);
    Extend(m, 35, 0x3b68_ba73, 0x9d20_9d67, 0x3e9d_7b78, 0x6000_03c6, 0xf10a_5c62, 1);
    Extend(m, 36, 0xaff4_ffc1, 0xec87_26cb, 0x0183_fc00, 0x3e9d_7b78, 0x0a8b_3996, 3);
    Extend(m, 37, 0xf10a_5c62, 0x7021_38a4, 0x12dc_bfdb, 0x0183_fc00, 0x72af_830a, 1);
    Extend(m, 38, 0x0a8b_3996, 0xd3b7_973b, 0xe2e2_c38e, 0x12dc_bfdb, 0x9409_e33e, 2);
    Extend(m, 39, 0x72af_830a, 0x93f5_997f, 0xc821_5c1a, 0xe2e2_c38e, 0x2464_1522, 2);
  }

  lemma Words40(m: seq<word>)
    requires IsMessage(m)
    ensures Word(m, 40, 0x9f47_bf94)
    ensures Word(m, 41, 0xf0a6_4f5a)
    ensures Word(m, 42, 0x3e24_6a79)
    ensures Word(m, 43, 0x2733_3ba3)
    ensures Word(m, 44, 0x0c47_63f2)
    ensures Word(m, 45, 0x840a_bf27)
    ensures Word(m, 46, 0x7a29_0d5d)
    ensures Word(m, 47, 0x065c_43da)
  {
    Words24(m);
    Words32(m);
    hide Word, IsMessage;
    Extend(m, 40, 0x9409_e33e, 0x3b68_ba73, 0xb736_79a2, 0xc821_5c1a, 0x9f47_bf94, 2);
    Extend(m, 41, 0x2464_1522, 0xaff4_ffc1, 0xe5bc_3909, 0xb736_79a2, 0xf0a6_4f5a, 1);
    Extend(m, 42, 0x9f47_bf94, 0xf10a_5c62, 0x3266_3c5b, 0xe5bc_3909, 0x3e24_6a79, 2);
    Extend(m, 43, 0xf0a6_4f5a, 0x0a8b_3996, 0x9d20_9d67, 0x3266_3c5b, 0x2733_3ba3, 2);
    Extend(m, 44, 0x3e24_6a79, 0x72af_830a, 0xec87_26cb, 0x9d20_9d67, 0x0c47_63f2, 2);
    Extend(m, 45, 0x2733_3ba3, 0x9409_e33e, 0x7021_38a4, 0xec87_26cb, 0x840a_bf27, 2);
    Extend(m, 46, 0x0c47_63f2, 0x2464_1522, 0xd3b7_973b, 0x7021_38a4, 0x7a29_0d5d, 1);
    Extend(m, 47, 0x840a_bf27, 0x9f47_bf94, 0x93f5_997f, 0xd3b7_973b, 0x065c_43da, 2);
  }

  lemma Words48(m: seq<word>)
    requires IsMessage(m)
    ensures Word(m, 48, 0xfb3e_89cb)
    ensures Word(m, 49, 0xcc76_17db)
    ensures Word(m, 50, 0xb9e6_6c34)
    ensures Word(m, 51, 0xa999_3667)
    ensures Word(m, 52, 0x84ba_dedd)
    ensures Word(m, 53, 0xc214_62bc)
    ensures Word(m, 54, 0x1487_472c)
    ensures Word(m, 55, 0xb20f_7a99)
  {
    Words32(m);
    Words40(m);
    hide Word, IsMessage;
    Extend(m, 48, 0x7a29_0d5d, 0xf0a6_4f5a, 0x3b68_ba73, 0x93f5_997f, 0xfb3e_89cb, 2);
    Extend(m, 49, 0x065c_43da, 0x3e24_6a79, 0xaff4_ffc1, 0x3b68_ba73, 0xcc76_17db, 1);
    Extend(m, 50, 0xfb3e_89cb, 0x2733_3ba3, 0xf10a_5c62, 0xaff4_ffc1, 0xb9e6_6c34, 1);
    Extend(m, 51, 0xcc76_17db, 0x0c47_63f2, 0x0a8b_3996, 0xf10a_5c62, 0xa999_3667, 2);
    Extend(m, 52, 0xb9e6_6c34, 0x840a_bf27, 0x72af_830a, 0x0a8b_3996, 0x84ba_dedd, 2);
    Extend(m, 53, 0xa999_3667, 0x7a29_0d5d, 0x9409_e33e, 0x72af_830a, 0xc214_62bc, 1);
    Extend(m, 54, 0x84ba_dedd, 0x065c_43da, 0x2464_1522, 0x9409_e33e, 0x1487_472c, 1);
    Extend(m, 55, 0xc214_62bc, 0xfb3e_89cb, 0x9f47_bf94, 0x2464_1522, 0xb20f_7a99, 2);
  }

  lemma Words56(m: seq<word>)
    requires IsMessage(m)
    ensures Word(m, 56, 0xef57_b9cd)
    ensures Word(m, 57, 0xebe6_b238)
    ensures Word(m, 58, 0x9fe3_095e)
    ensures Word(m, 59, 0x78bc_8d4b)
    ensures Word(m, 60, 0xa43f_cf15)
    ensures Word(m, 61, 0x668b_2ff8)
    ensures Word(m, 62, 0xeeab_a2cc)
    ensures Word(m, 63, 0x12b1_edeb)
  {
    Words40(m);
    Words48(m);
    hide Word, IsMessage;
    Extend(m, 56, 0x1487_472c, 0xcc76_17db, 0xf0a6_4f5a, 0x9f47_bf94, 0xef57_b9cd, 1);
    Extend(m, 57, 0xb20f_7a99, 0xb9e6_6c34, 0x3e24_6a79, 0xf0a6_4f5a, 0xebe6_b238, 2);
    Extend(m, 58, 0xef57_b9cd, 0xa999_3667, 0x2733_3ba3, 0x3e24_6a79, 0x9fe3_095e, 1);
    Extend(m, 59, 0xebe6_b238, 0x84ba_dedd, 0x0c47_63f2, 0x2733_3ba3, 0x78bc_8d4b, 1);
    Extend(m, 60, 0x9fe3_095e, 0xc214_62bc, 0x840a_bf27, 0x0c47_63f2, 0xa43f_cf15, 2);
    Extend(m, 61, 0x78bc_8d4b, 0x1487_472c, 0x7a29_0d5d, 0x840a_bf27, 0x668b_2ff8, 2);
    Extend(m, 62, 0xa43f_cf15, 0xb20f_7a99, 0x065c_43da, 0x7a29_0d5d, 0xeeab_a2cc, 1);
    Extend(m, 63, 0x668b_2ff8, 0xef57_b9cd, 0xfb3e_89cb, 0x065c_43da, 0x12b1_edeb, 2);
  }

  // ---------- The rounds ----------

  lemma Rounds0(m: seq<word>)
    requires IsMessage(m)
    ensures After(m, 0, 0x6a09_e667, 0xbb67_ae85, 0x3c6e_f372, 0xa54f_f53a,
                  0x510e_527f, 0x9b05_688c, 0x1f83_d9ab, 0x5be0_cd19)
  {
    Tables();
    AfterMeans(m, 0, 0x6a09_e667, 0xbb67_ae85, 0x3c6e_f372, 0xa54f_f53a,
                  0x510e_527f, 0x9b05_688c, 0x1f83_d9ab, 0x5be0_cd19);
  }

  lemma Rounds8(m: seq<word>)
    requires IsMessage(m)
    ensures After(m, 8, 0x85a0_7b5f, 0xe503_0380, 0x2b42_09f5, 0x0440_9a6a,
                0x0c65_7a79, 0x9b27_a401, 0x7142_60ad, 0x43ad_a245)
  {
    Rounds0(m);
    Constants0();
    Words0(m);
    hide After, Word, IsMessage, K;
    Step(m, 0, 0x428a_2f98, 0x6162_6380, 0x6a09_e667, 0xbb67_ae85, 0x3c6e_f372, 0xa54f_f53a,
         0x510e_527f, 0x9b05_688c, 0x1f83_d9ab, 0x5be0_cd19,
         0x54da_50e8, 0x5d6a_ebcd, 0xfa2a_4622, 1, 1, 0);
    Step(m, 1, 0x7137_4491, 0x0000_0000, 0x5d6a_ebcd, 0x6a09_e667, 0xbb67_ae85, 0x3c6e_f372,
         0xfa2a_4622, 0x510e_527f, 0x9b05_688c, 0x1f83_d9ab,
         0x3c5f_8617, 0x5a6a_d9ad, 0x78ce_7989, 1, 1, 0);
    Step(m, 2, 0xb5c0_fbcf, 0x0000_0000, 0x5a6a_d9ad, 0x5d6a_ebcd, 0x6a09_e667, 0xbb67_ae85,
         0x78ce_7989, 0xfa2a_4622, 0x510e_527f, 0x9b05_688c,
         0x3dc1_8b66, 0xc8c3_47a7, 0xf929_39eb, 2, 0, 0);
    Step(m, 3, 0xe9b5_dba5, 0x0000_0000, 0xc8c3_47a7, 0x5a6a_d9ad, 0x5d6a_ebcd, 0x6a09_e667,
         0xf929_39eb, 0x78ce_7989, 0xfa2a_4622, 0x510e_527f,
         0xbad6_21e9, 0xd550_f666, 0x24e0_0850, 1, 1, 1);
    Step(m, 4, 0x3956_c25b, 0x0000_0000, 0xd550_f666, 0xc8c3_47a7, 0x5a6a_d9ad, 0x5d6a_ebcd,
         0x24e0_0850, 0xf929_39eb, 0x78ce_7989, 0xfa2a_4622,
         0xe642_b678, 0x0440_9a6a, 0x43ad_a245, 1, 2, 1);
    Step(m, 5, 0x59f1_11f1, 0x0000_0000, 0x0440_9a6a, 0xd550_f666, 0xc8c3_47a7, 0x5a6a_d9ad,
         0x43ad_a245, 0x24e0_0850, 0xf929_39eb, 0x78ce_7989,
         0x16d7_8700, 0x2b42_09f5, 0x7142_60ad, 2, 1, 0);
    Step(m, 6, 0x923f_82a4, 0x0000_0000, 0x2b42_09f5, 0x0440_9a6a, 0xd550_f666, 0xc8c3_47a7,
         0x7142_60ad, 0x43ad_a245, 0x24e0_0850, 0xf929_39eb,
         0xd264_5c5a, 0xe503_0380, 0x9b27_a401, 1, 0, 1);
    Step(m, 7, 0xab1c_5ed5, 0x0000_0000, 0xe503_0380, 0x2b42_09f5, 0x0440_9a6a, 0xd550_f666,
         0x9b27_a401, 0x7142_60ad, 0x43ad_a245, 0x24e0_0850,
         0x3714_8413, 0x85a0_7b5f, 0x0c65_7a79, 1, 0, 1);
  }

  lemma Rounds16(m: seq<word>)
    requires IsMessage(m)
    ensures After(m, 16, 0xb0fa_238e, 0xc064_5fde, 0xd932_eb16, 0x8791_2990,
                0x0759_0dcd, 0x0b92_f20c, 0x745a_48de, 0x1e57_8218)
  {
    Rounds8(m);
    Constants8();
    Words0(m);
    hide After, Word, IsMessage, K;
    Step(m, 8, 0xd807_aa98, 0x0000_0000, 0x85a0_7b5f, 0xe503_0380, 0x2b42_09f5, 0x0440_9a6a,
         0x0c65_7a79, 0x9b27_a401, 0x7142_60ad, 0x43ad_a245,
         0x2e89_9322, 0x8e04_ecb9, 0x32ca_2d8c, 2, 1, 0);
    Step(m, 9, 0x1283_5b01, 0x0000_0000, 0x8e04_ecb9, 0x85a0_7b5f, 0xe503_0380, 0x2b42_09f5,
         0x32ca_2d8c, 0x0c65_7a79, 0x9b27_a401, 0x7142_60ad,
         0xf187_1ba1, 0x8c87_346b, 0x1cc9_2596, 1, 1, 1);
    Step(m, 10, 0x2431_85be, 0x0000_0000, 0x8c87_346b, 0x8e04_ecb9, 0x85a0_7b5f, 0xe503_0380,
         0x1cc9_2596, 0x32ca_2d8c, 0x0c65_7a79, 0x9b27_a401,
         0x5e68_2068, 0x4798_a3f4, 0x436b_23e8, 1, 1, 1);
    Step(m, 11, 0x550c_7dc3, 0x0000_0000, 0x4798_a3f4, 0x8c87_346b, 0x8e04_ecb9, 0x85a0_7b5f,
         0x436b_23e8, 0x1cc9_2596, 0x32ca_2d8c, 0x0c65_7a79,
         0xfbcf_5b8a, 0xf71f_c5a9, 0x816f_d6e9, 0, 1, 1);
    Step(m, 12, 0x72be_5d74, 0x0000_0000, 0xf71f_c5a9, 0x4798_a3f4, 0x8c87_346b, 0x8e04_ecb9,
         0x816f_d6e9, 0x436b_23e8, 0x1cc9_2596, 0x32ca_2d8c,
         0x9052_955f, 0x8791_2990, 0x1e57_8218, 1, 1, 1);
    Step(m, 13, 0x80de_b1fe, 0x0000_0000, 0x8791_2990, 0xf71f_c5a9, 0x4798_a3f4, 0x8c87_346b,
         0x1e57_8218, 0x816f_d6e9, 0x436b_23e8, 0x1cc9_2596,
         0xe7d3_1473, 0xd932_eb16, 0x745a_48de, 0, 1, 1);
    Step(m, 14, 0x9bdc_06a7, 0x0000_0000, 0xd932_eb16, 0x8791_2990, 0xf71f_c5a9, 0x4798_a3f4,
         0x745a_48de, 0x1e57_8218, 0x816f_d6e9, 0x436b_23e8,
         0xc3fa_4e18, 0xc064_5fde, 0x0b92_f20c, 1, 1, 1);
    Step(m, 15, 0xc19b_f174, 0x0000_0018, 0xc064_5fde, 0xd932_eb16, 0x8791_2990, 0xf71f_c5a9,
         0x0b92_f20c, 0x745a_48de, 0x1e57_8218, 0x816f_d6e9,
         0x1039_4824, 0xb0fa_238e, 0x0759_0dcd, 2, 1, 1);
  }

  lemma Rounds24(m: seq<word>)
    requires IsMessage(m)
    ensures After(m, 24, 0xc5d5_3d8d, 0xa7a3_623f, 0xc260_6d6d, 0x9dc6_8b63,
                0xaa47_c347, 0x49f5_114a, 0xe125_7970, 0x8ada_8930)
  {
    Rounds16(m);
    Constants16();
    Words16(m);
    hide After, Word, IsMessage, K;
    Step(m, 16, 0xe49b_69c1, 0x6162_6380, 0xb0fa_238e, 0xc064_5fde, 0xd932_eb16, 0x8791_2990,
         0x0759_0dcd, 0x0b92_f20c, 0x745a_48de, 0x1e57_8218,
         0xf8a2_f90c, 0x21da_9a9b, 0x8034_229c, 1, 2, 1);
    Step(m, 17, 0xefbe_4786, 0x000f_0000, 0x21da_9a9b, 0xb0fa_238e, 0xc064_5fde, 0xd932_eb16,
         0x8034_229c, 0x0759_0dcd, 0x0b92_f20c, 0x745a_48de,
         0xab3b_f93e, 0xc2fb_d9d1, 0x846e_e454, 1, 1, 1);
    Step(m, 18, 0x0fc1_9dc6, 0x7da8_6405, 0xc2fb_d9d1, 0x21da_9a9b, 0xb0fa_238e, 0xc064_5fde,
         0x846e_e454, 0x8034_229c, 0x0759_0dcd, 0x0b92_f20c,
         0x0c25_3983, 0xfe77_7bbf, 0xcc89_9961, 2, 0, 0);
    Step(m, 19, 0x240c_a1cc, 0x6000_03c6, 0xfe77_7bbf, 0xc2fb_d9d1, 0x21da_9a9b, 0xb0fa_238e,
         0xcc89_9961, 0x846e_e454, 0x8034_229c, 0x0759_0dcd,
         0xff69_5deb, 0xe1f2_0c33, 0xb063_8179, 1, 2, 1);
    Step(m, 20, 0x2de9_2c6f, 0x3e9d_7b78, 0xe1f2_0c33, 0xfe77_7bbf, 0xc2fb_d9d1, 0x21da_9a9b,
         0xb063_8179, 0xcc89_9961, 0x846e_e454, 0x8034_229c,
         0x68ff_ee95, 0x9dc6_8b63, 0x8ada_8930, 2, 1, 0);
    Step(m, 21, 0x4a74_84aa, 0x0183_fc00, 0x9dc6_8b63, 0xe1f2_0c33, 0xfe77_7bbf, 0xc2fb_d9d1,
         0x8ada_8930, 0xb063_8179, 0xcc89_9961, 0x846e_e454,
         0x1e29_9f9f, 0xc260_6d6d, 0xe125_7970, 2, 1, 0);
    Step(m, 22, 0x5cb0_a9dc, 0x12dc_bfdb, 0xc260_6d6d, 0x9dc6_8b63, 0xe1f2_0c33, 0xfe77_7bbf,
         0xe125_7970, 0x8ada_8930, 0xb063_8179, 0xcc89_9961,
         0x4b7d_958b, 0xa7a3_623f, 0x49f5_114a, 2, 1, 1);
    Step(m, 23, 0x76f9_88da, 0xe2e2_c38e, 0xa7a3_623f, 0xc260_6d6d, 0x9dc6_8b63, 0xe1f2_0c33,
         0x49f5_114a, 0xe125_7970, 0x8ada_8930, 0xb063_8179,
         0xc855_b714, 0xc5d5_3d8d, 0xaa47_c347, 3, 1, 1);
  }

  lemma Rounds32(m: seq<word>)
    requires IsMessage(m)
    ensures After(m, 32, 0x73b3_3bf5, 0xea99_2a22, 0xa006_0b30, 0x3634_82c9,
                0xba59_1112, 0x0109_ab3a, 0xade7_9437, 0x6112_a3b7)
  {
    Rounds24(m);
    Constants24();
    Words24(m);
    hide After, Word, IsMessage, K;
    Step(m, 24, 0x983e_5152, 0xc821_5c1a, 0xc5d5_3d8d, 0xa7a3_623f, 0xc260_6d6d, 0x9dc6_8b63,
         0xaa47_c347, 0x49f5_114a, 0xe125_7970, 0x8ada_8930,
         0x8a5d_642e, 0x1c2c_2838, 0x2823_ef91, 2, 2, 1);
    Step(m, 25, 0xa831_c66d, 0xb736_79a2, 0x1c2c_2838, 0xc5d5_3d8d, 0xa7a3_623f, 0xc260_6d6d,
         0x2823_ef91, 0xaa47_c347, 0x49f5_114a, 0xe125_7970,
         0x51d7_d021, 0xcde8_037d, 0x1438_3d8e, 3, 1, 1);
    Step(m, 26, 0xb003_27c8, 0xe5bc_3909, 0xcde8_037d, 0x1c2c_2838, 0xc5d5_3d8d, 0xa7a3_623f,
         0x1438_3d8e, 0x2823_ef91, 0xaa47_c347, 0x49f5_114a,
         0x1fa9_02d7, 0xb62e_c4bc, 0xc74c_6516, 3, 1, 0);
    Step(m, 27, 0xbf59_7fc7, 0x3266_3c5b, 0xb62e_c4bc, 0xcde8_037d, 0x1c2c_2838, 0xc5d5_3d8d,
         0xc74c_6516, 0x1438_3d8e, 0x2823_ef91, 0xaa47_c347,
         0x282a_826b, 0x77d3_7528, 0xedff_bff8, 2, 1, 0);
    Step(m, 28, 0xc6e0_0bf3, 0x9d20_9d67, 0x77d3_7528, 0xb62e_c4bc, 0xcde8_037d, 0x1c2c_2838,
         0xedff_bff8, 0xc74c_6516, 0x1438_3d8e, 0x2823_ef91,
         0x44e6_7b7f, 0x3634_82c9, 0x6112_a3b7, 3, 2, 0);
    Step(m, 29, 0xd5a7_9147, 0xec87_26cb, 0x3634_82c9, 0x77d3_7528, 0xb62e_c4bc, 0xcde8_037d,
         0x6112_a3b7, 0xedff_bff8, 0xc74c_6516, 0x1438_3d8e,
         0xdfff_90ba, 0xa006_0b30, 0xade7_9437, 2, 1, 1);
    Step(m, 30, 0x06ca_6351, 0x7021_38a4, 0xa006_0b30, 0x3634_82c9, 0x77d3_7528, 0xb62e_c4bc,
         0xade7_9437, 0x6112_a3b7, 0xedff_bff8, 0xc74c_6516,
         0x4ada_e67e, 0xea99_2a22, 0x0109_ab3a, 2, 0, 1);
    Step(m, 31, 0x1429_2967, 0xd3b7_973b, 0xea99_2a22, 0xa006_0b30, 0x3634_82c9, 0x77d3_7528,
         0x0109_ab3a, 0xade7_9437, 0x6112_a3b7, 0xedff_bff8,
         0x4285_9bea, 0x73b3_3bf5, 0xba59_1112, 2, 1, 0);
  }

  lemma Rounds40(m: seq<word>)
    requires IsMessage(m)
    ensures After(m, 40, 0x79ea_687a, 0x6dc5_7a8a, 0x34df_1604, 0x41a6_5cb1,
                0x1efb_c0a0, 0xf078_1bc8, 0xa507_a53d, 0x0772_a26b)
  {
    Rounds32(m);
    Constants32();
    Words32(m);
    hide After, Word, IsMessage, K;
    Step(m, 32, 0x27b7_0a85, 0x93f5_997f, 0x73b3_3bf5, 0xea99_2a22, 0xa006_0b30, 0x3634_82c9,
         0xba59_1112, 0x0109_ab3a, 0xade7_9437, 0x6112_a3b7,
         0x66a5_732d, 0x98e1_2507, 0x9cd9_f5f6, 1, 1, 0);
    Step(m, 33, 0x2e1b_2138, 0x3b68_ba73, 0x98e1_2507, 0x73b3_3bf5, 0xea99_2a22, 0xa006_0b30,
         0x9cd9_f5f6, 0xba59_1112, 0x0109_ab3a, 0xade7_9437,
         0xb91e_92a3, 0xfe60_4df5, 0x5924_9dd3, 1, 1, 1);
    Step(m, 34, 0x4d2c_6dfc, 0xaff4_ffc1, 0xfe60_4df5, 0x98e1_2507, 0x73b3_3bf5, 0xea99_2a22,
         0x5924_9dd3, 0x9cd9_f5f6, 0xba59_1112, 0x0109_ab3a,
         0x1dc6_0e11, 0xa9a7_738c, 0x085f_3833, 2, 1, 1);
    Step(m, 35, 0x5338_0d13, 0xf10a_5c62, 0xa9a7_738c, 0xfe60_4df5, 0x98e1_2507, 0x73b3_3bf5,
         0x085f_3833, 0x5924_9dd3, 0x9cd9_f5f6, 0xba59_1112,
         0x80fc_c6e1, 0x65a0_cfe4, 0xf4b0_02d6, 3, 1, 0);
    Step(m, 36, 0x650a_7354, 0x0a8b_3996, 0x65a0_cfe4, 0xa9a7_738c, 0xfe60_4df5, 0x98e1_2507,
         0xf4b0_02d6, 0x085f_3833, 0x5924_9dd3, 0x9cd9_f5f6,
         0x6e91_7d64, 0x41a6_5cb1, 0x0772_a26b, 1, 2, 1);
    Step(m, 37, 0x766a_0abb, 0x72af_830a, 0x41a6_5cb1, 0x65a0_cfe4, 0xa9a7_738c, 0xfe60_4df5,
         0x0772_a26b, 0xf4b0_02d6, 0x085f_3833, 0x5924_9dd3,
         0xa6a7_5748, 0x34df_1604, 0xa507_a53d, 1, 1, 1);
    Step(m, 38, 0x81c2_c92e, 0x9409_e33e, 0x34df_1604, 0x41a6_5cb1, 0x65a0_cfe4, 0xa9a7_738c,
         0xa507_a53d, 0x0772_a26b, 0xf4b0_02d6, 0x085f_3833,
         0x46d0_a83c, 0x6dc5_7a8a, 0xf078_1bc8, 2, 1, 0);
    Step(m, 39, 0x9272_2c85, 0x2464_1522, 0x6dc5_7a8a, 0x34df_1604, 0x41a6_5cb1, 0x65a0_cfe4,
         0xf078_1bc8, 0xa507_a53d, 0x0772_a26b, 0xf4b0_02d6,
         0xb95a_f0bc, 0x79ea_687a, 0x1efb_c0a0, 2, 1, 1);
  }

  lemma Rounds48(m: seq<word>)
    requires IsMessage(m)
    ensures After(m, 48, 0x4172_328d, 0xa14c_14b0, 0x72ab_4b91, 0x2662_8815,
                0xfecf_0bc6, 0xd57b_94a9, 0xb775_5da1, 0xa80f_11f0)
  {
    Rounds40(m);
    Constants40();
    Words40(m);
    hide After, Word, IsMessage, K;
    Step(m, 40, 0xa2bf_e8a1, 0x9f47_bf94, 0x79ea_687a, 0x6dc5_7a8a, 0x34df_1604, 0x41a6_5cb1,
         0x1efb_c0a0, 0xf078_1bc8, 0xa507_a53d, 0x0772_a26b,
         0xe48e_d0b2, 0xd667_0766, 0x2635_2d63, 2, 1, 1);
    Step(m, 41, 0xa81a_664b, 0xf0a6_4f5a, 0xd667_0766, 0x79ea_687a, 0x6dc5_7a8a, 0x34df_1604,
         0x2635_2d63, 0x1efb_c0a0, 0xf078_1bc8, 0xa507_a53d,
         0x4eac_110d, 0xdf46_652f, 0x838b_2711, 3, 0, 0);
    Step(m, 42, 0xc24b_8b70, 0x3e24_6a79, 0xdf46_652f, 0xd667_0766, 0x79ea_687a, 0x6dc5_7a8a,
         0x838b_2711, 0x2635_2d63, 0x1efb_c0a0, 0xf078_1bc8,
         0x7107_cc8b, 0x17aa_0dfe, 0xdecd_4715, 2, 2, 0);
    Step(m, 43, 0xc76c_51a3, 0x2733_3ba3, 0x17aa_0dfe, 0xdf46_652f, 0xd667_0766, 0x79ea_687a,
         0xdecd_4715, 0x838b_2711, 0x2635_2d63, 0x1efb_c0a0,
         0x83b7_e3b4, 0x9d4b_af93, 0xfda2_4c2e, 2, 1, 0);
    Step(m, 44, 0xd192_e819, 0x0c47_63f2, 0x9d4b_af93, 0x17aa_0dfe, 0xdf46_652f, 0xd667_0766,
         0xfda2_4c2e, 0xdecd_4715, 0x838b_2711, 0x2635_2d63,
         0xd1a8_0a8a, 0x2662_8815, 0xa80f_11f0, 2, 2, 1);
    Step(m, 45, 0xd699_0624, 0x840a_bf27, 0x2662_8815, 0x9d4b_af93, 0x17aa_0dfe, 0xdf46_652f,
         0xa80f_11f0, 0xfda2_4c2e, 0xdecd_4715, 0x838b_2711,
         0xd82e_f872, 0x72ab_4b91, 0xb775_5da1, 3, 1, 1);
    Step(m, 46, 0xf40e_3585, 0x7a29_0d5d, 0x72ab_4b91, 0x2662_8815, 0x9d4b_af93, 0x17aa_0dfe,
         0xb775_5da1, 0xa80f_11f0, 0xfda2_4c2e, 0xdecd_4715,
         0xbdd1_86ab, 0xa14c_14b0, 0xd57b_94a9, 3, 1, 0);
    Step(m, 47, 0x106a_a070, 0x065c_43da, 0xa14c_14b0, 0x72ab_4b91, 0x2662_8815, 0x9d4b_af93,
         0xd57b_94a9, 0xb775_5da1, 0xa80f_11f0, 0xfda2_4c2e,
         0x6183_5c33, 0x4172_328d, 0xfecf_0bc6, 2, 1, 0);
  }

  lemma Rounds56(m: seq<word>)
    requires IsMessage(m)
    ensures After(m, 56, 0x38cc_9913, 0x3ec4_5cdb, 0xf570_2fdb, 0x101f_d28f,
                0x54cb_266b, 0xe50e_1b4f, 0x9f47_87c3, 0x529e_7d00)
  {
    Rounds48(m);
    Constants48();
    Words48(m);
    hide After, Word, IsMessage, K;
    Step(m, 48, 0x19a4_c116, 0xfb3e_89cb, 0x4172_328d, 0xa14c_14b0, 0x72ab_4b91, 0x2662_8815,
         0xfecf_0bc6, 0xd57b_94a9, 0xb775_5da1, 0xa80f_11f0,
         0x970e_b823, 0x0575_7ceb, 0xbd71_4038, 2, 1, 0);
    Step(m, 49, 0x1e37_6c08, 0xcc76_17db, 0x0575_7ceb, 0x4172_328d, 0xa14c_14b0, 0x72ab_4b91,
         0xbd71_4038, 0xfecf_0bc6, 0xd57b_94a9, 0xb775_5da1,
         0xfbb0_ed7b, 0xf11b_faa8, 0x6e5c_390c, 2, 1, 1);
    Step(m, 50, 0x2748_774c, 0xb9e6_6c34, 0xf11b_faa8, 0x0575_7ceb, 0x4172_328d, 0xa14c_14b0,
         0x6e5c_390c, 0xbd71_4038, 0xfecf_0bc6, 0xd57b_94a9,
         0xb1a5_b847, 0x7a05_08a1, 0x52f1_ccf7, 2, 1, 1);
    Step(m, 51, 0x34b0_bcb5, 0xa999_3667, 0x7a05_08a1, 0xf11b_faa8, 0x0575_7ceb, 0x4172_328d,
         0x52f1_ccf7, 0x6e5c_390c, 0xbd71_4038, 0xfecf_0bc6,
         0x07b0_e991, 0x886e_7a22, 0x4923_1c1e, 3, 0, 0);
    Step(m, 52, 0x391c_0cb3, 0x84ba_dedd, 0x886e_7a22, 0x7a05_08a1, 0xf11b_faa8, 0x0575_7ceb,
         0x4923_1c1e, 0x52f1_ccf7, 0x6e5c_390c, 0xbd71_4038,
         0x4d29_0015, 0x101f_d28f, 0x529e_7d00, 2, 2, 0);
    Step(m, 53, 0x4ed8_aa4a, 0xc214_62bc, 0x101f_d28f, 0x886e_7a22, 0x7a05_08a1, 0xf11b_faa8,
         0x529e_7d00, 0x4923_1c1e, 0x52f1_ccf7, 0x6e5c_390c,
         0xae2b_8d1b, 0xf570_2fdb, 0x9f47_87c3, 2, 0, 1);
    Step(m, 54, 0x5b9c_ca4f, 0x1487_472c, 0xf570_2fdb, 0x101f_d28f, 0x886e_7a22, 0x7a05_08a1,
         0x9f47_87c3, 0x529e_7d00, 0x4923_1c1e, 0x52f1_ccf7,
         0x6b09_12ae, 0x3ec4_5cdb, 0xe50e_1b4f, 1, 1, 0);
    Step(m, 55, 0x682e_6ff3, 0xb20f_7a99, 0x3ec4_5cdb, 0xf570_2fdb, 0x101f_d28f, 0x886e_7a22,
         0xe50e_1b4f, 0x9f47_87c3, 0x529e_7d00, 0x4923_1c1e,
         0xcc5c_ac49, 0x38cc_9913, 0x54cb_266b, 2, 1, 1);
  }

  lemma Rounds64(m: seq<word>)
    requires IsMessage(m)
    ensures After(m, 64, 0x506e_3058, 0xd39a_2165, 0x04d2_4d6c, 0xb85e_2ce9,
                0x5ef5_0f24, 0xfb12_1210, 0x948d_25b6, 0x961f_4894)
  {
    Rounds56(m);
    Constants56();
    Words56(m);
    hide After, Word, IsMessage, K;
    Step(m, 56, 0x748f_82ee, 0xef57_b9cd, 0x38cc_9913, 0x3ec4_5cdb, 0xf570_2fdb, 0x101f_d28f,
         0x54cb_266b, 0xe50e_1b4f, 0x9f47_87c3, 0x529e_7d00,
         0x8b3e_bddd, 0xfcd1_887b, 0x9b5e_906c, 2, 0, 0);
    Step(m, 57, 0x78a5_636f, 0xebe6_b238, 0xfcd1_887b, 0x38cc_9913, 0x3ec4_5cdb, 0xf570_2fdb,
         0x9b5e_906c, 0x54cb_266b, 0xe50e_1b4f, 0x9f47_87c3,
         0x88d3_d0b3, 0xc062_d46f, 0x7e44_008e, 2, 1, 1);
    Step(m, 58, 0x84c8_7814, 0x9fe3_095e, 0xc062_d46f, 0xfcd1_887b, 0x38cc_9913, 0x3ec4_5cdb,
         0x7e44_008e, 0x9b5e_906c, 0x54cb_266b, 0xe50e_1b4f,
         0x2ebf_62eb, 0xffb7_0472, 0x6d83_bfc6, 2, 1, 0);
    Step(m, 59, 0x8cc7_0208, 0x78bc_8d4b, 0xffb7_0472, 0xc062_d46f, 0xfcd1_887b, 0x38cc_9913,
         0x6d83_bfc6, 0x7e44_008e, 0x9b5e_906c, 0x54cb_266b,
         0x794f_142a, 0xb6ae_8fff, 0xb21b_ad3d, 2, 1, 0);
    Step(m, 60, 0x90be_fffa, 0xa43f_cf15, 0xb6ae_8fff, 0xffb7_0472, 0xc062_d46f, 0xfcd1_887b,
         0xb21b_ad3d, 0x6d83_bfc6, 0x7e44_008e, 0x9b5e_906c,
         0x994d_c019, 0xb85e_2ce9, 0x961f_4894, 2, 1, 1);
    Step(m, 61, 0xa450_6ceb, 0x668b_2ff8, 0xb85e_2ce9, 0xb6ae_8fff, 0xffb7_0472, 0xc062_d46f,
         0x961f_4894, 0xb21b_ad3d, 0x6d83_bfc6, 0x7e44_008e,
         0xd42a_5147, 0x04d2_4d6c, 0x948d_25b6, 2, 2, 1);
    Step(m, 62, 0xbef9_a3f7, 0xeeab_a2cc, 0x04d2_4d6c, 0xb85e_2ce9, 0xb6ae_8fff, 0xffb7_0472,
         0x948d_25b6, 0x961f_4894, 0xb21b_ad3d, 0x6d83_bfc6,
         0xfb5b_0d9e, 0xd39a_2165, 0xfb12_1210, 2, 1, 1);
    Step(m, 63, 0xc671_78f2, 0x12b1_edeb, 0xd39a_2165, 0x04d2_4d6c, 0xb85e_2ce9, 0xb6ae_8fff,
         0xfb12_1210, 0x948d_25b6, 0x961f_4894, 0xb21b_ad3d,
         0xa846_7f25, 0x506e_3058, 0x5ef5_0f24, 2, 1, 1);
  }

  // ---------- The digest ----------

  lemma Final(m: seq<word>)
    requires IsMessage(m)
    ensures |IV| == 8
    ensures Rounds(FromWords(IV), m, 64) == State(0x506e_3058, 0xd39a_2165, 0x04d2_4d6c, 0xb85e_2ce9,
                                             0x5ef5_0f24, 0xfb12_1210, 0x948d_25b6, 0x961f_4894)
  {
    Tables();
    Rounds64(m);
    AfterMeans(m, 64, 0x506e_3058, 0xd39a_2165, 0x04d2_4d6c, 0xb85e_2ce9,
               0x5ef5_0f24, 0xfb12_1210, 0x948d_25b6, 0x961f_4894);
    hide Rounds, IsMessage, IV, K;
  }

  lemma Sum()
    ensures |IV| == 8
    ensures AddRegisters(IV, State(0x506e_3058, 0xd39a_2165, 0x04d2_4d6c, 0xb85e_2ce9,
                               0x5ef5_0f24, 0xfb12_1210, 0x948d_25b6, 0x961f_4894))
         == [0xba78_16bf, 0x8f01_cfea, 0x4141_40de, 0x5dae_2223,
             0xb003_61a3, 0x9617_7a9c, 0xb410_ff61, 0xf200_15ad]
  {
    Tables();
    hide Plus;
    PlusIs(0x6a09_e667, 0x506e_3058, 0, 0xba78_16bf);
    PlusIs(0xbb67_ae85, 0xd39a_2165, 1, 0x8f01_cfea);
    PlusIs(0x3c6e_f372, 0x04d2_4d6c, 0, 0x4141_40de);
    PlusIs(0xa54f_f53a, 0xb85e_2ce9, 1, 0x5dae_2223);
    PlusIs(0x510e_527f, 0x5ef5_0f24, 0, 0xb003_61a3);
    PlusIs(0x9b05_688c, 0xfb12_1210, 1, 0x9617_7a9c);
    PlusIs(0x1f83_d9ab, 0x948d_25b6, 0, 0xb410_ff61);
    PlusIs(0x5be0_cd19, 0x961f_4894, 0, 0xf200_15ad);
  }

  lemma Digit(x: int, p: int, high: int, o: byte, low: int)
    requires 0 <= low < p && x == p * (256 * high + o) + low
    ensures x / p % 256 == o
  {
    DivUnique(x, p, 256 * high + o, low);
    DivUnique(256 * high + o, 256, high, o);
  }

  lemma StoreOctets(o0: byte, o1: byte, o2: byte, o3: byte, x: int)
    requires x == 0x1000000 * o0 + 0x10000 * o1 + 0x100 * o2 + o3
    ensures StoreWord(x) == [o0, o1, o2, o3]
  {
    Digit(x, 0x1000000, 0, o0,
          0x10000 * o1 + 0x100 * o2 + o3);
    Digit(x, 0x10000, o0, o1,
          0x100 * o2 + o3);
    Digit(x, 0x100, 0x100 * o0 + o1, o2,
          o3);
    Digit(x, 0x1, 0x10000 * o0 + 0x100 * o1 + o2, o3,
          0);
  }

  lemma Octets()
    ensures StoreWord(0xba78_16bf) == [0xba, 0x78, 0x16, 0xbf]
    ensures StoreWord(0x8f01_cfea) == [0x8f, 0x01, 0xcf, 0xea]
    ensures StoreWord(0x4141_40de) == [0x41, 0x41, 0x40, 0xde]
    ensures StoreWord(0x5dae_2223) == [0x5d, 0xae, 0x22, 0x23]
    ensures StoreWord(0xb003_61a3) == [0xb0, 0x03, 0x61, 0xa3]
    ensures StoreWord(0x9617_7a9c) == [0x96, 0x17, 0x7a, 0x9c]
    ensures StoreWord(0xb410_ff61) == [0xb4, 0x10, 0xff, 0x61]
    ensures StoreWord(0xf200_15ad) == [0xf2, 0x00, 0x15, 0xad]
  {
    hide StoreWord;
    StoreOctets(0xba, 0x78, 0x16, 0xbf, 0xba78_16bf);
    StoreOctets(0x8f, 0x01, 0xcf, 0xea, 0x8f01_cfea);
    StoreOctets(0x41, 0x41, 0x40, 0xde, 0x4141_40de);
    StoreOctets(0x5d, 0xae, 0x22, 0x23, 0x5dae_2223);
    StoreOctets(0xb0, 0x03, 0x61, 0xa3, 0xb003_61a3);
    StoreOctets(0x96, 0x17, 0x7a, 0x9c, 0x9617_7a9c);
    StoreOctets(0xb4, 0x10, 0xff, 0x61, 0xb410_ff61);
    StoreOctets(0xf2, 0x00, 0x15, 0xad, 0xf200_15ad);
  }

  predicate GivesAt(depth: nat, m: seq<byte>, h: seq<byte>)
    decreases depth, m, h
  {
    if depth == 0 then Sha256(m) == h else GivesAt(depth - 1, m, h)
  }

  /** The digest of m is h; folded up. */
  predicate Gives(m: seq<byte>, h: seq<byte>) {
    GivesAt(4, m, h)
  }

  lemma GivesMeans(m: seq<byte>, h: seq<byte>)
    ensures Gives(m, h) <==> Sha256(m) == h
  {
    hide Sha256;
    assert GivesAt(2, m, h) == GivesAt(0, m, h);
    assert GivesAt(4, m, h) == GivesAt(2, m, h);
  }

  /** The digest the standard gives for "abc". */
  const DIGEST: seq<byte> :=
    [0xba, 0x78, 0x16, 0xbf] +
    [0x8f, 0x01, 0xcf, 0xea] +
    [0x41, 0x41, 0x40, 0xde] +
    [0x5d, 0xae, 0x22, 0x23] +
    [0xb0, 0x03, 0x61, 0xa3] +
    [0x96, 0x17, 0x7a, 0x9c] +
    [0xb4, 0x10, 0xff, 0x61] +
    [0xf2, 0x00, 0x15, 0xad]

  lemma Example()
    ensures Gives(ABC, DIGEST)
  {
    GivesMeans(ABC, DIGEST);
    hide Gives;
    Tables();
    BlockIs();
    BlockWordsAre();
    hide Rounds, Compress, CompressAll, Padded, Block, AddRegisters, BlockWords, IV, IsMessage, StoreWord, FromWords;
    Final(BlockWords(Block()));
    Sum();
    CompressOne(IV, Block());
    CompressMeans(IV, Block());
    Octets();
  }
}
