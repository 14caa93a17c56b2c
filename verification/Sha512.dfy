/** sha512EL.c: a streaming SHA-512 over a 128-octet buffer, with rounds that rotate indices
    instead of registers, proved to compute Sha512Spec. */
module Sha512 {
  import opened Arithmetic
  import opened Bytes
  import opened WordBits
  import opened Sha512Spec

  // ---------- Rotating indices ----------

  /** The k-th slot from p, around the ring of eight. */
  function Slot(p: nat, k: nat): (q: nat)
    requires p < 8 && k < 8
    ensures q < 8
  {
    if p + k < 8 then p + k else p + k - 8
  }

  /** s holds the registers with a at position p. */
  predicate Rotated(s: seq<word>, p: nat, r: Registers) {
    && |s| == 8 && p < 8
    && s[p] == r.a && s[Slot(p, 1)] == r.b && s[Slot(p, 2)] == r.c && s[Slot(p, 3)] == r.d
    && s[Slot(p, 4)] == r.e && s[Slot(p, 5)] == r.f && s[Slot(p, 6)] == r.g && s[Slot(p, 7)] == r.h
  }

  /** Updating two slots and moving a down by one is a register shift. */
  lemma RotateStep(s: seq<word>, p: nat, r: Registers, x: word, y: word)
    requires Rotated(s, p, r)
    ensures Rotated(s[Slot(p, 7) := x][Slot(p, 3) := y], Slot(p, 7), Registers(x, r.a, r.b, r.c, y, r.e, r.f, r.g))
  {
  }

  lemma SlotIndex(j: nat, k: nat)
    requires j < 16 && k < 8
    ensures (80 + k - j) % 8 == Slot((80 - j) % 8, k)
  {
    var p, q := (80 - j) % 8, (80 - j) / 8;
    assert 80 + k - j == 8 * q + (p + k);
  }

  /** RND on eight given slots: only h and d change. */
  method RoundOnSlots(S: array<word>, a: nat, b: nat, c: nat, d: nat, e: nat, f: nat, g: nat, h: nat,
                      w: word, k: word, ghost r: Registers)
    requires S.Length == 8 && a < 8 && b < 8 && c < 8 && d < 8 && e < 8 && f < 8 && g < 8 && h < 8
    requires d != h && a != h && b != h && c != h && a != d && b != d && c != d
    requires S[a] == r.a && S[b] == r.b && S[c] == r.c && S[d] == r.d
    requires S[e] == r.e && S[f] == r.f && S[g] == r.g && S[h] == r.h
    modifies S
    ensures S[..] == old(S[..])[h := Plus(T1(r, k, w), T2(r))][d := Plus(r.d, T1(r, k, w))]
  {
    ChShortIs(r.e, r.f, r.g);
    MajShortIs(r.a, r.b, r.c);
    PlusRegroups(r.h, Sum1(r.e), Ch(r.e, r.f, r.g), k, w);
    hide Ch, ChShort, Maj, MajShort, Sum0, Sum1, Plus;
    S[h] := Plus(S[h], Plus(Plus(Sum1(S[e]), ChShort(S[e], S[f], S[g])), Plus(w, k)));
    S[d] := Plus(S[d], S[h]);
    S[h] := Plus(S[h], Plus(Sum0(S[a]), MajShort(S[a], S[b], S[c])));
  }

  lemma SlotsDiffer(p: nat)
    requires p < 8
    ensures Slot(p, 3) != Slot(p, 7) && p != Slot(p, 7) && Slot(p, 1) != Slot(p, 7) && Slot(p, 2) != Slot(p, 7)
    ensures p != Slot(p, 3) && Slot(p, 1) != Slot(p, 3) && Slot(p, 2) != Slot(p, 3)
  {
  }

  predicate StartsAt(j: nat, p: nat) {
    j < 16 && p == (80 - j) % 8
  }

  /** Where the source finds register k in the round at local index j. */
  method SlotAt(j: nat, k: nat, ghost p: nat) returns (i: nat)
    requires StartsAt(j, p) && k < 8
    ensures p < 8 && i == Slot(p, k)
  {
    SlotIndex(j, k);
    i := (80 + k - j) % 8;
  }

  /** RNDr: the round at local index j. */
  method RotatedRound(S: array<word>, j: nat, ghost p: nat, w: word, k: word, ghost r: Registers)
    requires S.Length == 8 && StartsAt(j, p) && Rotated(S[..], p, r)
    modifies S
    ensures Rotated(S[..], Slot(p, 7), Round(r, k, w))
  {
    ghost var s := S[..];
    SlotsDiffer(p);
    RotateStep(s, p, r, Plus(T1(r, k, w), T2(r)), Plus(r.d, T1(r, k, w)));
    hide T1, T2, Plus, StartsAt;
    var a := SlotAt(j, 0, p);
    var b := SlotAt(j, 1, p);
    var c := SlotAt(j, 2, p);
    var d := SlotAt(j, 3, p);
    var e := SlotAt(j, 4, p);
    var f := SlotAt(j, 5, p);
    var g := SlotAt(j, 6, p);
    var h := SlotAt(j, 7, p);
    assert Slot(p, 0) == p;
    hide Slot;
    RoundOnSlots(S, a, b, c, d, e, f, g, h, w, k, r);
  }

  // ---------- SHA512_Transform ----------

  ghost predicate HoldsSchedule(w: seq<word>, m: seq<word>, n: nat) {
    |w| == 80 && |m| == 16 && n <= 80 && forall k :: 0 <= k < n ==> w[k] == Schedule(m, k)
  }

  method DecodeBlock(W: array<word>, block: seq<byte>)
    requires W.Length == 80 && |block| == 128
    modifies W
    ensures HoldsSchedule(W[..], BlockWords(block), 16)
  {
    for i := 0 to 16
      invariant forall k :: 0 <= k < i ==> W[k] == LoadWord(block, 8 * k)
    {
      W[i] := LoadWord(block, 8 * i);
    }
  }

  lemma RoundsStep(r: Registers, w: seq<word>, m: seq<word>, n: nat, t: nat)
    requires HoldsSchedule(w, m, n) && t < n
    ensures |K| == 80 && Rounds(r, m, t + 1) == Round(Rounds(r, m, t), K[t], w[t])
  {
    Tables();
  }

  lemma FirstSlot()
    ensures StartsAt(0, 0)
  {
  }

  lemma NextSlot(j: nat, p: nat)
    requires StartsAt(j, p)
    ensures p < 8
    ensures if j + 1 < 16 then StartsAt(j + 1, Slot(p, 7)) else Slot(p, 7) == 0
  {
    SlotIndex(j, 7);
    assert 87 - j == 8 + (80 - (j + 1));
  }

  /** Sixteen rounds bring the indices back to where they started. */
  method SixteenRounds(S: array<word>, W: array<word>, i: nat, ghost r: Registers, ghost m: seq<word>)
    requires S.Length == 8 && W.Length == 80 && S != W && i + 16 <= 80 && |m| == 16
    requires HoldsSchedule(W[..], m, i + 16) && Rotated(S[..], 0, Rounds(r, m, i))
    modifies S
    ensures Rotated(S[..], 0, Rounds(r, m, i + 16))
  {
    Tables();
    hide Rotated, Rounds, Round, HoldsSchedule, K, StartsAt, Slot;
    var j := 0;
    ghost var p := 0;
    FirstSlot();
    while j < 16
      invariant 0 <= j <= 16
      invariant if j < 16 then StartsAt(j, p) else p == 0
      invariant Rotated(S[..], p, Rounds(r, m, i + j))
    {
      RoundsStep(r, W[..], m, i + 16, i + j);
      RotatedRound(S, j, p, W[i + j], K[i + j], Rounds(r, m, i + j));
      NextSlot(j, p);
      p := Slot(p, 7);
      j := j + 1;
    }
  }

  /** The next sixteen words of the schedule. */
  method ExtendSchedule(W: array<word>, i: nat, ghost m: seq<word>)
    requires W.Length == 80 && i + 32 <= 80 && HoldsSchedule(W[..], m, i + 16)
    modifies W
    ensures HoldsSchedule(W[..], m, i + 32)
  {
    hide Small0, Small1, Plus;
    for j := 0 to 16
      invariant HoldsSchedule(W[..], m, i + 16 + j)
    {
      ghost var w := W[..];
      W[i + j + 16] := Plus(Plus(Plus(Small1(W[i + j + 14]), W[i + j + 9]), Small0(W[i + j + 1])), W[i + j]);
      ScheduleStep(w, W[..], m, i + j + 16, W[i + j + 16]);
    }
  }

  lemma ScheduleStep(w: seq<word>, v: seq<word>, m: seq<word>, t: nat, x: word)
    requires 16 <= t < 80 && HoldsSchedule(w, m, t) && v == w[t := x]
    requires x == Plus(Plus(Plus(Small1(w[t - 2]), w[t - 7]), Small0(w[t - 15])), w[t - 16])
    ensures HoldsSchedule(v, m, t + 1)
  {
    hide Small0, Small1, Plus;
    assert x == Schedule(m, t);
  }

  /** The five groups of sixteen rounds, the schedule extended between them. */
  method EightyRounds(S: array<word>, W: array<word>, ghost r: Registers, ghost m: seq<word>)
    requires S.Length == 8 && W.Length == 80 && S != W && |m| == 16
    requires HoldsSchedule(W[..], m, 16) && Rotated(S[..], 0, Rounds(r, m, 0))
    modifies S, W
    ensures Rotated(S[..], 0, Rounds(r, m, 80))
  {
    hide Rotated, Rounds, HoldsSchedule;
    var i := 0;
    while i < 80
      invariant i == 0 || i == 16 || i == 32 || i == 48 || i == 64
      invariant HoldsSchedule(W[..], m, i + 16)
      invariant Rotated(S[..], 0, Rounds(r, m, i))
      decreases 80 - i
    {
      SixteenRounds(S, W, i, r, m);
      if i == 64 {
        break;
      }
      ExtendSchedule(W, i, m);
      i := i + 16;
    }
  }

  /** All eighty rounds over a block, then the feed-forward. */
  method Transform(state: array<word>, block: seq<byte>)
    requires state.Length == 8 && |block| == 128
    modifies state
    ensures state[..] == Compress(old(state[..]), block)
  {
    ghost var m, r := BlockWords(block), FromWords(state[..]);
    var W := new word[80];
    DecodeBlock(W, block);
    var S := new word[8](k requires 0 <= k < 8 reads state => state[k]);
    assert Rotated(S[..], 0, Rounds(r, m, 0));
    hide Rotated, Rounds, HoldsSchedule, BlockWords, Compress, AddRegisters;
    CompressMeans(state[..], block);
    EightyRounds(S, W, r, m);
    FeedForward(state, S, Rounds(r, m, 80));
  }

  method FeedForward(state: array<word>, S: array<word>, ghost r: Registers)
    requires state.Length == 8 && S.Length == 8 && state != S && Rotated(S[..], 0, r)
    modifies state
    ensures state[..] == AddRegisters(old(state[..]), r)
  {
    hide Plus;
    for i := 0 to 8
      invariant forall k :: 0 <= k < i ==> state[k] == Plus(old(state[k]), S[k])
      invariant forall k :: i <= k < 8 ==> state[k] == old(state[k])
    {
      state[i] := Plus(state[i], S[i]);
    }
  }

  // ---------- Streaming ----------

  /** s is the hash state after the whole blocks of fed, and tail is what is left over. */
  ghost predicate Absorbed(fed: seq<byte>, s: seq<word>, tail: seq<byte>) {
    && |s| == 8 && |tail| < 128 && |tail| <= |fed| && (|fed| - |tail|) % 128 == 0
    && fed[|fed| - |tail|..] == tail && s == CompressAll(IV, fed[..|fed| - |tail|])
  }

  lemma AbsorbTail(fed: seq<byte>, s: seq<word>, tail: seq<byte>, more: seq<byte>)
    requires Absorbed(fed, s, tail) && |tail| + |more| < 128
    ensures Absorbed(fed + more, s, tail + more)
  {
    hide CompressAll, IV;
    var n := |fed| - |tail|;
    assert (fed + more)[..n] == fed[..n] && (fed + more)[n..] == fed[n..] + more;
  }

  lemma AbsorbBlock(fed: seq<byte>, s: seq<word>, tail: seq<byte>, more: seq<byte>)
    requires Absorbed(fed, s, tail) && |tail| + |more| == 128
    ensures Absorbed(fed + more, Compress(s, tail + more), [])
  {
    hide Compress, CompressAll, IV;
    Tables();
    var w := fed[..|fed| - |tail|];
    CompressAllConcat(IV, w, tail + more);
    CompressOne(s, tail + more);
    assert fed == w + tail && fed + more == w + (tail + more);
    assert (fed + more)[..|fed + more|] == fed + more;
  }

  lemma TailLength(fed: seq<byte>, s: seq<word>, tail: seq<byte>)
    requires Absorbed(fed, s, tail)
    ensures |tail| == |fed| % 128
  {
    hide CompressAll, IV;
    SameRemainder(|fed|, |tail|);
  }

  lemma SameRemainder(n: nat, t: nat)
    requires t < 128 && t <= n && (n - t) % 128 == 0
    ensures n % 128 == t
  {
  }

  /** Adding to a 128-bit counter kept as two words. */
  lemma CountAdds(n: nat, m: nat, low: int)
    requires m < 8 * TWO_64 && low == (n % TWO_64 + m % TWO_64) % TWO_64
    ensures low == (n + m) % TWO_64
    ensures (n / TWO_64 % TWO_64 + (if low < m % TWO_64 then 1 else 0) + m / TWO_64) % TWO_64 == (n + m) / TWO_64 % TWO_64
  {
    var carry := if low < m % TWO_64 then 1 else 0;
    assert n % TWO_64 + m % TWO_64 == carry * TWO_64 + low;
    DivUnique(n + m, TWO_64, n / TWO_64 + m / TWO_64 + carry, low);
    ModAdds(n / TWO_64, m / TWO_64 + carry);
  }

  lemma ModAdds(x: nat, y: nat)
    ensures (x % TWO_64 + y) % TWO_64 == (x + y) % TWO_64
  {
    var q := (x % TWO_64 + y) / TWO_64;
    DivUnique(x + y, TWO_64, x / TWO_64 + q, (x % TWO_64 + y) % TWO_64);
  }

  /** The position in the buffer, read off the low word of the bit count. */
  lemma PositionIs(n: nat)
    ensures 8 * n % TWO_64 / 8 % 128 == n % 128
  {
    var q := 8 * n / TWO_64;
    assert 8 * n % TWO_64 == 8 * (n - q * 0x2000_0000_0000_0000);
    DivUnique(8 * n % TWO_64, 8, n - q * 0x2000_0000_0000_0000, 0);
    DivUnique(n - q * 0x2000_0000_0000_0000, 128, n / 128 - q * 0x40_0000_0000_0000, n % 128);
  }

  /** crypto_hash_sha512_state. */
  class Hasher {
    const state: array<word>
    const buf: array<byte>
    var countHigh: word
    var countLow: word
    ghost var fed: seq<byte>

    /** The two words count 8 n bits, modulo 2^128. */
    ghost predicate Counts(n: nat)
      reads this`countLow, this`countHigh
    {
      countLow == 8 * n % TWO_64 && countHigh == 8 * n / TWO_64 % TWO_64
    }

    ghost predicate Valid()
      reads this, state, buf
    {
      && state.Length == 8 && buf.Length == 128 && Counts(|fed|)
      && Absorbed(fed, state[..], buf[..|fed| % 128])
    }

    constructor ()
      ensures Valid() && fed == [] && fresh(state) && fresh(buf)
    {
      Tables();
      state := new word[8](k requires 0 <= k < 8 => IV[k]);
      buf := new byte[128];
      countHigh, countLow := 0, 0;
      fed := [];
      new;
      assert state[..] == IV;
    }

    /** How full the buffer is. */
    method Position() returns (r: nat)
      requires Valid()
      ensures r == |fed| % 128
    {
      hide Absorbed;
      r := countLow / 8 % 128;
      PositionIs(|fed|);
    }

    /** The 128-bit addition of the input length in bits. */
    method AddCount(n: nat)
      requires n < TWO_64
      requires Counts(|fed|)
      modifies this`countHigh, this`countLow
      ensures Counts(|fed| + n)
    {
      var low, high := 8 * n % TWO_64, 8 * n / TWO_64;
      countLow := (countLow + low) % TWO_64;
      var carry := if countLow < low then 1 else 0;
      countHigh := (countHigh + carry + high) % TWO_64;
      CountAdds(8 * |fed|, 8 * n, countLow);
    }

    /** Octets into the buffer from position r on. */
    method Fill(r: nat, x: seq<byte>)
      requires buf.Length == 128 && r + |x| <= 128
      modifies buf
      ensures buf[..r + |x|] == old(buf[..r]) + x
    {
      for i := 0 to |x|
        invariant buf[..r] == old(buf[..r])
        invariant forall k :: 0 <= k < i ==> buf[r + k] == x[k]
      {
        buf[r + i] := x[i];
      }
      assert buf[..r + |x|] == buf[..r] + buf[r..r + |x|];
      assert buf[r..r + |x|] == x;
    }

    /** Input that does not fill the buffer. */
    method Keep(r: nat, x: seq<byte>)
      requires state.Length == 8 && buf.Length == 128 && r + |x| < 128 && Absorbed(fed, state[..], buf[..r])
      modifies this`fed, buf
      ensures fed == old(fed) + x && Absorbed(fed, state[..], buf[..|fed| % 128])
    {
      hide Absorbed;
      ghost var tail := buf[..r];
      Fill(r, x);
      AbsorbTail(fed, state[..], tail, x);
      fed := fed + x;
      TailLength(fed, state[..], tail + x);
    }

    /** Input that just fills the buffer. */
    method Complete(r: nat, x: seq<byte>)
      requires state.Length == 8 && buf.Length == 128 && r + |x| == 128 && Absorbed(fed, state[..], buf[..r])
      modifies this`fed, state, buf
      ensures fed == old(fed) + x && Absorbed(fed, state[..], [])
    {
      hide Absorbed, Compress;
      ghost var tail := buf[..r];
      Fill(r, x);
      assert buf[..] == tail + x;
      AbsorbBlock(fed, state[..], tail, x);
      Transform(state, buf[..]);
      fed := fed + x;
    }

    /** Whole blocks straight from the input. */
    method HashBlocks(x: seq<byte>, from: nat) returns (pos: nat)
      requires state.Length == 8 && from <= |x| && Absorbed(fed, state[..], [])
      modifies this`fed, state
      ensures from <= pos <= |x| && |x| - pos < 128
      ensures fed == old(fed) + x[from..pos] && Absorbed(fed, state[..], [])
    {
      hide Absorbed, Compress;
      pos := from;
      assert x[from..from] == [] && fed + [] == fed;
      while |x| - pos >= 128
        invariant from <= pos <= |x|
        invariant fed == old(fed) + x[from..pos] && Absorbed(fed, state[..], [])
      {
        HashBlock(x[pos..pos + 128]);
        assert x[from..pos] + x[pos..pos + 128] == x[from..pos + 128];
        pos := pos + 128;
      }
    }

    method HashBlock(block: seq<byte>)
      requires state.Length == 8 && |block| == 128 && Absorbed(fed, state[..], [])
      modifies this`fed, state
      ensures fed == old(fed) + block && Absorbed(fed, state[..], [])
    {
      hide Absorbed, Compress;
      assert [] + block == block;
      AbsorbBlock(fed, state[..], [], block);
      Transform(state, block);
      fed := fed + block;
    }

    /** Input that fills the buffer at least once. */
    method Flush(r: nat, x: seq<byte>)
      requires state.Length == 8 && buf.Length == 128 && r < 128 && 128 - r <= |x| && Absorbed(fed, state[..], buf[..r])
      modifies this`fed, state, buf
      ensures fed == old(fed) + x && Absorbed(fed, state[..], buf[..|fed| % 128])
    {
      hide Absorbed;
      ghost var start := fed;
      var first := 128 - r;
      Complete(r, x[..first]);
      var pos := HashBlocks(x, first);
      assert buf[..0] == [];
      Keep(0, x[pos..]);
      Reassembled(start, x, first, pos);
    }

    /** Feed more input: the running state stays that of everything fed so far. */
    method Update(x: seq<byte>)
      requires Valid() && |x| < TWO_64
      modifies this, state, buf
      ensures Valid() && fed == old(fed) + x
    {
      hide Absorbed, Counts;
      if |x| == 0 {
        assert fed + x == fed;
        return;
      }
      var r := Position();
      AddCount(|x|);
      if |x| < 128 - r {
        Keep(r, x);
      } else {
        Flush(r, x);
      }
      assert |fed| == |old(fed)| + |x|;
    }

    /** The length, then the last block. */
    method LastBlock(ghost n: nat)
      requires state.Length == 8 && buf.Length == 128 && Counts(n)
      modifies state, buf
      ensures state[..] == Compress(old(state[..]), old(buf[..112]) + LengthField(n))
    {
      var field := StoreWord(countHigh) + StoreWord(countLow);
      assert field == LengthField(n);
      hide LengthField, Compress, Counts;
      Fill(112, field);
      assert buf[..] == buf[..128];
      Transform(state, buf[..]);
    }

    /** SHA512_Pad: the marker and zeros up to the length field, in one block or in two. */
    method Pad()
      requires Valid()
      modifies this`fed, state, buf
      ensures state[..] == CompressAll(IV, Padded(old(fed)))
    {
      hide Absorbed, Counts, Compress, LengthField, IV, CompressAll;
      ghost var m := fed;
      var r := Position();
      if r < 112 {
        Fill(r, PAD[..112 - r]);
        OneBlock(m, state[..], old(buf[..r]), LengthField(|m|));
        LastBlock(|m|);
      } else {
        Complete(r, PAD[..128 - r]);
        Fill(0, Zeros(112));
        assert buf[..112] == Zeros(112);
        TwoBlocks(m, state[..], r, LengthField(|m|));
        LastBlock(|m|);
      }
    }

    /** The digest of everything that was fed.  The source then wipes the state. */
    method Final() returns (out: seq<byte>)
      requires Valid()
      modifies this`fed, state, buf
      ensures out == Sha512(old(fed))
    {
      hide Absorbed, Counts, CompressAll;
      Pad();
      out := DigestOf(state[..]);
    }
  }

  /** The padding octets: the marker and 127 zeros. */
  const PAD: seq<byte> := [0x80] + Zeros(127)

  lemma MarkerAndZeros(k: nat)
    requires k < 128
    ensures PAD[..k + 1] == [0x80] + Zeros(k)
  {
  }

  lemma PaddedIs(m: seq<byte>, z: nat, field: seq<byte>)
    requires z < 256 && z == ZeroCount(|m|) && field == LengthField(|m|)
    ensures Padded(m) == m + ([0x80] + Zeros(z) + field)
  {
    hide LengthField, Zeros;
    assert m + [0x80] + Zeros(z) + field == m + ([0x80] + Zeros(z) + field);
  }

  lemma ZeroCountIs(n: nat, r: nat)
    requires r == n % 128
    ensures ZeroCount(n) == if r < 112 then 111 - r else 239 - r
  {
    DivUnique(111 - n, 128, if r < 112 then -(n / 128) else -(n / 128) - 1, if r < 112 then 111 - r else 239 - r);
  }

  lemma NothingLeft(fed: seq<byte>, s: seq<word>)
    requires Absorbed(fed, s, [])
    ensures |fed| % 128 == 0 && s == CompressAll(IV, fed)
  {
    hide CompressAll, IV;
    assert fed[..|fed|] == fed;
  }

  /** A last block behind the tail: the padded message is what was hashed. */
  lemma LastPart(m: seq<byte>, s: seq<word>, tail: seq<byte>, last: seq<byte>)
    requires Absorbed(m, s, tail) && |tail| + |last| == 128
    ensures |m + last| % 128 == 0 && Compress(s, tail + last) == CompressAll(IV, m + last)
  {
    assert |s| == 8;
    hide Absorbed, Compress, CompressAll, IV;
    AbsorbBlock(m, s, tail, last);
    NothingLeft(m + last, Compress(s, tail + last));
  }

  /** Marker, zeros and length all fit behind the tail. */
  lemma OneBlock(m: seq<byte>, s: seq<word>, tail: seq<byte>, field: seq<byte>)
    requires Absorbed(m, s, tail) && |tail| < 112 && field == LengthField(|m|)
    ensures Compress(s, tail + PAD[..112 - |tail|] + field) == CompressAll(IV, Padded(m))
  {
    TailLength(m, s, tail);
    var z := 111 - |tail|;
    MarkerAndZeros(z);
    var last := [0x80] + Zeros(z) + field;
    assert tail + PAD[..112 - |tail|] + field == tail + last;
    hide Absorbed, Compress, CompressAll, LengthField, IV, PAD, Zeros, ZeroCount, Padded;
    ZeroCountIs(|m|, |tail|);
    PaddedIs(m, z, field);
    LastPart(m, s, tail, last);
  }

  lemma ZerosJoin(i: nat, j: nat)
    ensures Zeros(i) + Zeros(j) == Zeros(i + j)
  {
  }

  lemma Nested(m: seq<byte>, a: seq<byte>, y: seq<byte>, z: seq<byte>, f: seq<byte>)
    ensures m + (a + y) + (z + f) == m + (a + (y + z) + f)
  {
    assert m + (a + y) + (z + f) == m + ((a + y) + (z + f));
    assert (a + y) + (z + f) == a + (y + z) + f;
  }

  lemma TwoBlockShape(m: seq<byte>, r: nat, field: seq<byte>)
    requires 112 <= r < 128
    ensures m + PAD[..128 - r] + (Zeros(112) + field) == m + ([0x80] + Zeros(239 - r) + field)
  {
    MarkerAndZeros(127 - r);
    ZerosJoin(127 - r, 112);
    hide PAD, Zeros;
    Nested(m, [0x80], Zeros(127 - r), Zeros(112), field);
  }

  /** The marker fills the block; zeros and the length make another. */
  lemma TwoBlocks(m: seq<byte>, s: seq<word>, r: nat, field: seq<byte>)
    requires r == |m| % 128 && r >= 112 && field == LengthField(|m|)
    requires Absorbed(m + PAD[..128 - r], s, [])
    ensures Compress(s, Zeros(112) + field) == CompressAll(IV, Padded(m))
  {
    var first, last := PAD[..128 - r], Zeros(112) + field;
    assert [] + last == last && |s| == 8 && |last| == 128;
    hide Absorbed, Compress, CompressAll, LengthField, IV, PAD, Zeros, ZeroCount, Padded;
    TwoBlockShape(m, r, field);
    ZeroCountIs(|m|, r);
    PaddedIs(m, 239 - r, field);
    LastPart(m + first, s, [], last);
  }

  lemma Reassembled(start: seq<byte>, x: seq<byte>, i: nat, j: nat)
    requires i <= j <= |x|
    ensures start + x[..i] + x[i..j] + x[j..] == start + x
  {
    assert x == x[..i] + x[i..j] + x[j..];
  }

  /** crypto_hash_sha512. */
  method HashAll(x: seq<byte>) returns (out: seq<byte>)
    requires |x| < TWO_64
    ensures out == Sha512(x)
  {
    var h := new Hasher();
    h.Update(x);
    assert h.fed == x;
    out := h.Final();
  }

  /** The parts of a message in order. */
  function Flatten(parts: seq<seq<byte>>): seq<byte> {
    if parts == [] then [] else parts[0] + Flatten(parts[1..])
  }

  lemma {:induction false} FlattenSnoc(parts: seq<seq<byte>>, x: seq<byte>)
    ensures Flatten(parts + [x]) == Flatten(parts) + x
  {
    if parts == [] {
      assert parts + [x] == [x] && [x][1..] == [];
    } else {
      assert (parts + [x])[1..] == parts[1..] + [x];
      FlattenSnoc(parts[1..], x);
    }
  }

  /** However a message is cut into updates, the digest is that of the whole. */
  method HashParts(parts: seq<seq<byte>>) returns (out: seq<byte>)
    requires forall i :: 0 <= i < |parts| ==> |parts[i]| < TWO_64
    ensures out == Sha512(Flatten(parts))
  {
    hide Absorbed, CompressAll, Padded, DigestOf;
    var h := new Hasher();
    for i := 0 to |parts|
      invariant h.Valid() && fresh(h) && fresh(h.state) && fresh(h.buf)
      invariant h.fed == Flatten(parts[..i])
    {
      FlattenSnoc(parts[..i], parts[i]);
      assert parts[..i + 1] == parts[..i] + [parts[i]];
      h.Update(parts[i]);
    }
    assert parts[..|parts|] == parts;
    out := h.Final();
  }
}
