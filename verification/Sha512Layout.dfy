/** What SHA-512 hashes and in which order, for messages of every length: the padded message octet by
    octet, the blocks one after another, and the digest word by word. */
module Sha512Layout {
  import opened Arithmetic
  import opened Bytes
  import opened BigEndian
  import opened WordBits
  import opened Sha512Spec

  // ---------- Words ----------

  lemma StoredValue(x: nat)
    requires x < 0x1_0000_0000_0000_0000
    ensures BeVal(StoreWord(x)) == x
  {
    EightDigits(x);
    var a, b, c, d := x / 0x100_0000_0000_0000 % 256, x / 0x1_0000_0000_0000 % 256, x / 0x100_0000_0000 % 256,
      x / 0x1_0000_0000 % 256;
    EightValue(a, b, c, d, x / 0x100_0000 % 256, x / 0x1_0000 % 256, x / 0x100 % 256, x % 256);
    hide BeVal;
  }

  lemma LoadedValue(s: seq<byte>, i: nat)
    requires i + 8 <= |s|
    ensures LoadWord(s, i) == BeVal(s[i..i + 8])
  {
    EightValue(s[i], s[i + 1], s[i + 2], s[i + 3], s[i + 4], s[i + 5], s[i + 6], s[i + 7]);
    assert s[i..i + 8] == [s[i], s[i + 1], s[i + 2], s[i + 3], s[i + 4], s[i + 5], s[i + 6], s[i + 7]];
    hide BeVal;
  }

  lemma TwoWords(x: seq<byte>, y: seq<byte>)
    requires |x| == 8 && |y| == 8
    ensures BeVal(x + y) == 0x1_0000_0000_0000_0000 * BeVal(x) + BeVal(y)
  {
    hide BeVal;
    var p, q := y[..4], y[4..];
    FourMoreValue(x, y[0], y[1], y[2], y[3]);
    FourMoreValue(x + p, y[4], y[5], y[6], y[7]);
    FourValue(y[0], y[1], y[2], y[3]);
    FourMoreValue(p, y[4], y[5], y[6], y[7]);
    assert p == [y[0], y[1], y[2], y[3]] && q == [y[4], y[5], y[6], y[7]];
    assert x + p + q == x + y && p + q == y;
  }

  // ---------- Padding ----------

  /** p is m, the octet 0x80, the fewest zeros that fill up a block, and sixteen octets that give the length
      of m in bits. */
  ghost predicate IsPadded(m: seq<byte>, p: seq<byte>) {
    var n, k := |m|, |p|;
    && k % 128 == 0 && n + 17 <= k < n + 17 + 128
    && p[..n] == m && p[n] == 0x80
    && (forall i :: n < i < k - 16 ==> p[i] == 0)
    && BeVal(p[k - 16..]) == 8 * n % 0x1_0000_0000_0000_0000_0000_0000_0000_0000
  }

  lemma FieldValue(n: nat)
    ensures BeVal(LengthField(n)) == 8 * n % 0x1_0000_0000_0000_0000_0000_0000_0000_0000
  {
    var t := 8 * n;
    ModDigit(t, TWO_64, TWO_64);
    hide BeVal, StoreWord;
    StoredValue(t / TWO_64 % TWO_64);
    StoredValue(t % TWO_64);
    TwoWords(StoreWord(t / TWO_64 % TWO_64), StoreWord(t % TWO_64));
  }

  lemma PaddingIs(m: seq<byte>)
    ensures IsPadded(m, Padded(m))
  {
    var n, z, f := |m|, ZeroCount(|m|), LengthField(|m|);
    FieldValue(n);
    hide LengthField, BeVal;
    var p := m + [0x80] + Zeros(z) + f;
    assert |p| == n + 1 + z + 16 && 0 <= z < 128;
    assert p[..n] == m && p[|p| - 16..] == f;
    forall i | n < i < |p| - 16 ensures p[i] == 0 {
      assert p[i] == Zeros(z)[i - n - 1];
    }
  }

  // ---------- Blocks ----------

  /** w are the sixteen words of a block. */
  ghost predicate AreWords(block: seq<byte>, w: seq<word>) {
    |block| == 128 && |w| == 16 && forall i :: 0 <= i < 16 ==> w[i] == BeVal(block[8 * i..8 * i + 8])
  }

  /** t adds to s, word by word modulo 2^64, what the eighty rounds over the block make of s. */
  ghost predicate Follows(s: seq<word>, block: seq<byte>, t: seq<word>) {
    |s| == 8 && |t| == 8 &&
    exists w :: AreWords(block, w) && IsStep(s, Rounds(Registers(s[0], s[1], s[2], s[3], s[4], s[5], s[6], s[7]), w, 80), t)
  }

  predicate IsStep(s: seq<word>, r: Registers, t: seq<word>)
    requires |s| == 8 && |t| == 8
  {
    && t[0] == (s[0] + r.a) % 0x1_0000_0000_0000_0000 && t[1] == (s[1] + r.b) % 0x1_0000_0000_0000_0000
    && t[2] == (s[2] + r.c) % 0x1_0000_0000_0000_0000 && t[3] == (s[3] + r.d) % 0x1_0000_0000_0000_0000
    && t[4] == (s[4] + r.e) % 0x1_0000_0000_0000_0000 && t[5] == (s[5] + r.f) % 0x1_0000_0000_0000_0000
    && t[6] == (s[6] + r.g) % 0x1_0000_0000_0000_0000 && t[7] == (s[7] + r.h) % 0x1_0000_0000_0000_0000
  }

  lemma StepIs(s: seq<word>, r: Registers)
    requires |s| == 8
    ensures IsStep(s, r, AddRegisters(s, r))
  {
  }

  lemma WordsAre(block: seq<byte>)
    requires |block| == 128
    ensures AreWords(block, BlockWords(block))
  {
    hide BeVal, LoadWord;
    forall i | 0 <= i < 16 ensures BlockWords(block)[i] == BeVal(block[8 * i..8 * i + 8]) {
      LoadedValue(block, 8 * i);
    }
  }

  lemma CompressFollows(s: seq<word>, block: seq<byte>)
    requires |s| == 8 && |block| == 128
    ensures Follows(s, block, Compress(s, block))
  {
    CompressMeans(s, block);
    WordsAre(block);
    hide Rounds, BlockWords, AreWords, AddRegisters, IsStep;
    StepIs(s, Rounds(FromWords(s), BlockWords(block), 80));
  }

  /** c are the chaining values over the blocks of p. */
  ghost predicate IsChain(s: seq<word>, p: seq<byte>, c: seq<seq<word>>) {
    && |p| == 128 * (|c| - 1) && |c| > 0 && c[0] == s
    && forall i :: 0 <= i < |c| - 1 ==> Follows(c[i], p[128 * i..128 * i + 128], c[i + 1])
  }

  lemma LaterBlock(p: seq<byte>, i: nat)
    requires |p| >= 128 && 0 < i && 128 * i + 128 <= |p|
    ensures p[128..][128 * (i - 1)..128 * (i - 1) + 128] == p[128 * i..128 * i + 128]
  {
  }

  lemma ChainMore(s: seq<word>, t: seq<word>, p: seq<byte>, d: seq<seq<word>>)
    requires |p| >= 128 && Follows(s, p[..128], t) && IsChain(t, p[128..], d)
    ensures IsChain(s, p, [s] + d)
  {
    var c := [s] + d;
    hide Follows;
    forall i | 0 <= i < |c| - 1 ensures Follows(c[i], p[128 * i..128 * i + 128], c[i + 1]) {
      if i > 0 {
        LaterBlock(p, i);
      }
    }
  }

  lemma {:induction false} ChainOf(s: seq<word>, p: seq<byte>) returns (c: seq<seq<word>>)
    requires |s| == 8 && |p| % 128 == 0
    ensures IsChain(s, p, c) && c[|c| - 1] == CompressAll(s, p)
    decreases |p|
  {
    if p == [] {
      c := [s];
    } else {
      AtLeastABlock(|p|);
      var t := Compress(s, p[..128]);
      CompressFollows(s, p[..128]);
      hide Compress, Follows;
      var d := ChainOf(t, p[128..]);
      ChainMore(s, t, p, d);
      assert CompressAll(s, p) == CompressAll(t, p[128..]);
      hide CompressAll, IsChain;
      c := [s] + d;
    }
  }

  /** The digest is the last chaining value, eight octets a word. */
  ghost predicate IsDigest(t: seq<word>, h: seq<byte>) {
    |t| == 8 && |h| == 64 && forall i :: 0 <= i < 8 ==> BeVal(h[8 * i..8 * i + 8]) == t[i]
  }

  lemma DigestIs(t: seq<word>)
    requires |t| == 8
    ensures IsDigest(t, DigestOf(t))
  {
    hide BeVal, StoreWord;
    var h := DigestOf(t);
    forall i | 0 <= i < 8 ensures BeVal(h[8 * i..8 * i + 8]) == t[i] {
      StoredValue(t[i]);
      assert h[8 * i..8 * i + 8] == StoreWord(t[i]);
    }
  }

  /** SHA-512 of every message: its blocks chained from the initial words. */
  lemma HashIs(m: seq<byte>)
    ensures exists p, c :: IsPadded(m, p) && IsChain(IV, p, c) && IsDigest(c[|c| - 1], Sha512(m))
  {
    PaddingIs(m);
    Tables();
    var c := ChainOf(IV, Padded(m));
    DigestIs(CompressAll(IV, Padded(m)));
    hide IsPadded, IsDigest, CompressAll, Padded, DigestOf, Follows;
  }
}
