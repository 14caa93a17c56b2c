/** What SHA-256 hashes and in which order, for messages of every length: the padded message octet by
    octet, the blocks one after another, and the digest word by word. */
module Sha256Layout {
  import opened Bytes
  import opened BigEndian
  import opened Sha256Spec

  // ---------- Words ----------

  lemma StoredValue(x: nat)
    requires x < 0x1_0000_0000
    ensures BeVal(StoreWord(x)) == x
  {
    FourDigits(x);
    FourValue(x / 0x100_0000 % 256, x / 0x1_0000 % 256, x / 0x100 % 256, x % 256);
    hide BeVal;
  }

  lemma LoadedValue(s: seq<byte>, i: nat)
    requires i + 4 <= |s|
    ensures LoadWord(s, i) == BeVal(s[i..i + 4])
  {
    FourValue(s[i], s[i + 1], s[i + 2], s[i + 3]);
    assert s[i..i + 4] == [s[i], s[i + 1], s[i + 2], s[i + 3]];
    hide BeVal;
  }

  lemma TwoWords(x: seq<byte>, y: seq<byte>)
    requires |x| == 4 && |y| == 4
    ensures BeVal(x + y) == 0x1_0000_0000 * BeVal(x) + BeVal(y)
  {
    hide BeVal;
    FourMoreValue(x, y[0], y[1], y[2], y[3]);
    FourValue(y[0], y[1], y[2], y[3]);
    assert y == [y[0], y[1], y[2], y[3]];
  }

  // ---------- Padding ----------

  /** p is m, the octet 0x80, the fewest zeros that fill up a block, and eight octets that give the length
      of m in bits. */
  ghost predicate IsPadded(m: seq<byte>, p: seq<byte>) {
    var n, k := |m|, |p|;
    && k % 64 == 0 && n + 9 <= k < n + 9 + 64
    && p[..n] == m && p[n] == 0x80
    && (forall i :: n < i < k - 8 ==> p[i] == 0)
    && BeVal(p[k - 8..]) == 8 * n % 0x1_0000_0000_0000_0000
  }

  lemma FieldValue(n: nat)
    ensures BeVal(LengthField(n)) == 8 * n % 0x1_0000_0000_0000_0000
  {
    var t := 8 * n % TWO_64;
    hide BeVal, StoreWord;
    StoredValue(t / TWO_32);
    StoredValue(t % TWO_32);
    TwoWords(StoreWord(t / TWO_32), StoreWord(t % TWO_32));
  }

  lemma PaddingIs(m: seq<byte>)
    ensures IsPadded(m, Padded(m))
  {
    var n, z, f := |m|, ZeroCount(|m|), LengthField(|m|);
    FieldValue(n);
    hide LengthField, BeVal;
    var p := m + [0x80] + Zeros(z) + f;
    assert |p| == n + 1 + z + 8 && 0 <= z < 64;
    assert p[..n] == m && p[|p| - 8..] == f;
    forall i | n < i < |p| - 8 ensures p[i] == 0 {
      assert p[i] == Zeros(z)[i - n - 1];
    }
  }

  // ---------- Blocks ----------

  /** w are the sixteen words of a block. */
  ghost predicate AreWords(block: seq<byte>, w: seq<word>) {
    |block| == 64 && |w| == 16 && forall i :: 0 <= i < 16 ==> w[i] == BeVal(block[4 * i..4 * i + 4])
  }

  /** t adds to s, word by word modulo 2^32, what the sixty-four rounds over the block make of s. */
  ghost predicate Follows(s: seq<word>, block: seq<byte>, t: seq<word>) {
    |s| == 8 && |t| == 8 &&
    exists w :: AreWords(block, w) && IsStep(s, Rounds(Registers(s[0], s[1], s[2], s[3], s[4], s[5], s[6], s[7]), w, 64), t)
  }

  predicate IsStep(s: seq<word>, r: Registers, t: seq<word>)
    requires |s| == 8 && |t| == 8
  {
    && t[0] == (s[0] + r.a) % 0x1_0000_0000 && t[1] == (s[1] + r.b) % 0x1_0000_0000
    && t[2] == (s[2] + r.c) % 0x1_0000_0000 && t[3] == (s[3] + r.d) % 0x1_0000_0000
    && t[4] == (s[4] + r.e) % 0x1_0000_0000 && t[5] == (s[5] + r.f) % 0x1_0000_0000
    && t[6] == (s[6] + r.g) % 0x1_0000_0000 && t[7] == (s[7] + r.h) % 0x1_0000_0000
  }

  lemma StepIs(s: seq<word>, r: Registers)
    requires |s| == 8
    ensures IsStep(s, r, AddRegisters(s, r))
  {
  }

  lemma WordsAre(block: seq<byte>)
    requires |block| == 64
    ensures AreWords(block, BlockWords(block))
  {
    hide BeVal, LoadWord;
    forall i | 0 <= i < 16 ensures BlockWords(block)[i] == BeVal(block[4 * i..4 * i + 4]) {
      LoadedValue(block, 4 * i);
    }
  }

  lemma CompressFollows(s: seq<word>, block: seq<byte>)
    requires |s| == 8 && |block| == 64
    ensures Follows(s, block, Compress(s, block))
  {
    CompressMeans(s, block);
    WordsAre(block);
    hide Rounds, BlockWords, AreWords, AddRegisters, IsStep;
    StepIs(s, Rounds(FromWords(s), BlockWords(block), 64));
  }

  /** c are the chaining values over the blocks of p. */
  ghost predicate IsChain(s: seq<word>, p: seq<byte>, c: seq<seq<word>>) {
    && |p| == 64 * (|c| - 1) && |c| > 0 && c[0] == s
    && forall i :: 0 <= i < |c| - 1 ==> Follows(c[i], p[64 * i..64 * i + 64], c[i + 1])
  }

  lemma LaterBlock(p: seq<byte>, i: nat)
    requires |p| >= 64 && 0 < i && 64 * i + 64 <= |p|
    ensures p[64..][64 * (i - 1)..64 * (i - 1) + 64] == p[64 * i..64 * i + 64]
  {
  }

  lemma ChainMore(s: seq<word>, t: seq<word>, p: seq<byte>, d: seq<seq<word>>)
    requires |p| >= 64 && Follows(s, p[..64], t) && IsChain(t, p[64..], d)
    ensures IsChain(s, p, [s] + d)
  {
    var c := [s] + d;
    hide Follows;
    forall i | 0 <= i < |c| - 1 ensures Follows(c[i], p[64 * i..64 * i + 64], c[i + 1]) {
      if i > 0 {
        LaterBlock(p, i);
      }
    }
  }

  lemma {:induction false} ChainOf(s: seq<word>, p: seq<byte>) returns (c: seq<seq<word>>)
    requires |s| == 8 && |p| % 64 == 0
    ensures IsChain(s, p, c) && c[|c| - 1] == CompressAll(s, p)
    decreases |p|
  {
    if p == [] {
      c := [s];
    } else {
      AtLeastABlock(|p|);
      var t := Compress(s, p[..64]);
      CompressFollows(s, p[..64]);
      hide Compress, Follows;
      var d := ChainOf(t, p[64..]);
      ChainMore(s, t, p, d);
      assert CompressAll(s, p) == CompressAll(t, p[64..]);
      hide CompressAll, IsChain;
      c := [s] + d;
    }
  }

  /** The digest is the last chaining value, four octets a word. */
  ghost predicate IsDigest(t: seq<word>, h: seq<byte>) {
    |t| == 8 && |h| == 32 && forall i :: 0 <= i < 8 ==> BeVal(h[4 * i..4 * i + 4]) == t[i]
  }

  lemma DigestIs(t: seq<word>)
    requires |t| == 8
    ensures IsDigest(t, DigestOf(t))
  {
    hide BeVal, StoreWord;
    var h := DigestOf(t);
    forall i | 0 <= i < 8 ensures BeVal(h[4 * i..4 * i + 4]) == t[i] {
      StoredValue(t[i]);
      assert h[4 * i..4 * i + 4] == StoreWord(t[i]);
    }
  }

  /** SHA-256 of every message: its blocks chained from the initial words. */
  lemma HashIs(m: seq<byte>)
    ensures exists p, c :: IsPadded(m, p) && IsChain(IV, p, c) && IsDigest(c[|c| - 1], Sha256(m))
  {
    PaddingIs(m);
    Tables();
    var c := ChainOf(IV, Padded(m));
    DigestIs(CompressAll(IV, Padded(m)));
    hide IsPadded, IsDigest, CompressAll, Padded, DigestOf, Follows;
  }
}
