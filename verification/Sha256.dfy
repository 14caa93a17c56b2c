/** SHA256EL.c: a SHA-256 that takes its input one octet at a time and pads in place, proved to
    compute Sha256Spec. */
module Sha256 {
  import opened Arithmetic
  import opened Bytes
  import opened Sha256Spec

  // ---------- sha256EL_transform ----------

  ghost predicate HoldsSchedule(w: seq<word>, m: seq<word>, n: nat) {
    |w| == 64 && |m| == 16 && n <= 64 && forall k :: 0 <= k < n ==> w[k] == Schedule(m, k)
  }

  method ExpandBlock(block: seq<byte>) returns (W: array<word>)
    requires |block| == 64
    ensures fresh(W) && W.Length == 64 && HoldsSchedule(W[..], BlockWords(block), 64)
  {
    hide Small0, Small1, Plus;
    ghost var m := BlockWords(block);
    W := new word[64];
    for i := 0 to 16
      invariant forall k :: 0 <= k < i ==> W[k] == LoadWord(block, 4 * k)
    {
      W[i] := LoadWord(block, 4 * i);
    }
    assert HoldsSchedule(W[..], m, 16);
    for i := 16 to 64
      invariant HoldsSchedule(W[..], m, i)
    {
      ghost var w := W[..];
      W[i] := Plus(Plus(Plus(Small1(W[i - 2]), W[i - 7]), Small0(W[i - 15])), W[i - 16]);
      ScheduleStep(w, W[..], m, i, W[i]);
    }
  }

  lemma ScheduleStep(w: seq<word>, v: seq<word>, m: seq<word>, t: nat, x: word)
    requires 16 <= t < 64 && HoldsSchedule(w, m, t) && v == w[t := x]
    requires x == Plus(Plus(Plus(Small1(w[t - 2]), w[t - 7]), Small0(w[t - 15])), w[t - 16])
    ensures HoldsSchedule(v, m, t + 1)
  {
    hide Small0, Small1, Plus;
    assert x == Schedule(m, t);
  }

  lemma RoundsStep(r: Registers, w: seq<word>, m: seq<word>, t: nat)
    requires HoldsSchedule(w, m, 64) && t < 64
    ensures |K| == 64 && Rounds(r, m, t + 1) == Round(Rounds(r, m, t), K[t], w[t])
  {
    Tables();
  }

  /** One round in the source's order of assignments. */
  method OneRound(r: Registers, k: word, w: word) returns (s: Registers)
    ensures s == Round(r, k, w)
  {
    hide Plus, Sum0, Sum1, Ch, Maj;
    var a, b, c, d := r.a, r.b, r.c, r.d;
    var e, f, g, h := r.e, r.f, r.g, r.h;
    var t1 := Plus(Plus(Plus(Plus(h, Sum1(e)), Ch(e, f, g)), k), w);
    var t2 := Plus(Sum0(a), Maj(a, b, c));
    h := g;
    g := f;
    f := e;
    e := Plus(d, t1);
    d := c;
    c := b;
    b := a;
    a := Plus(t1, t2);
    s := Registers(a, b, c, d, e, f, g, h);
  }

  method AllRounds(start: Registers, W: array<word>, ghost m: seq<word>) returns (r: Registers)
    requires W.Length == 64 && HoldsSchedule(W[..], m, 64)
    ensures r == Rounds(start, m, 64)
  {
    Tables();
    RoundsStart(start, m);
    hide Rounds, Round, HoldsSchedule, K;
    r := start;
    for i := 0 to 64
      invariant r == Rounds(start, m, i)
    {
      RoundsStep(start, W[..], m, i);
      r := OneRound(r, K[i], W[i]);
    }
  }

  method FeedForward(state: array<word>, r: Registers)
    requires state.Length == 8
    modifies state
    ensures state[..] == AddRegisters(old(state[..]), r)
  {
    hide Plus;
    ghost var s := state[..];
    state[0] := Plus(state[0], r.a);
    state[1] := Plus(state[1], r.b);
    state[2] := Plus(state[2], r.c);
    state[3] := Plus(state[3], r.d);
    state[4] := Plus(state[4], r.e);
    state[5] := Plus(state[5], r.f);
    state[6] := Plus(state[6], r.g);
    state[7] := Plus(state[7], r.h);
  }

  method Transform(state: array<word>, block: seq<byte>)
    requires state.Length == 8 && |block| == 64
    modifies state
    ensures state[..] == Compress(old(state[..]), block)
  {
    CompressMeans(state[..], block);
    hide Compress;
    var W := ExpandBlock(block);
    var start := Registers(state[0], state[1], state[2], state[3], state[4], state[5], state[6], state[7]);
    hide Rounds, HoldsSchedule, BlockWords, AddRegisters;
    var r := AllRounds(start, W, BlockWords(block));
    FeedForward(state, r);
  }

  lemma RoundsStart(r: Registers, m: seq<word>)
    requires |m| == 16
    ensures Rounds(r, m, 0) == r
  {
  }

  // ---------- Streaming ----------

  /** s is the hash state after the whole blocks of fed, and tail is what is left over. */
  ghost predicate Absorbed(fed: seq<byte>, s: seq<word>, tail: seq<byte>) {
    && |s| == 8 && |tail| < 64 && |tail| <= |fed| && (|fed| - |tail|) % 64 == 0
    && fed[|fed| - |tail|..] == tail && s == CompressAll(IV, fed[..|fed| - |tail|])
  }

  lemma AbsorbTail(fed: seq<byte>, s: seq<word>, tail: seq<byte>, more: seq<byte>)
    requires Absorbed(fed, s, tail) && |tail| + |more| < 64
    ensures Absorbed(fed + more, s, tail + more)
  {
    hide CompressAll, IV;
    var n := |fed| - |tail|;
    assert (fed + more)[..n] == fed[..n] && (fed + more)[n..] == fed[n..] + more;
  }

  lemma AbsorbBlock(fed: seq<byte>, s: seq<word>, tail: seq<byte>, more: seq<byte>)
    requires Absorbed(fed, s, tail) && |tail| + |more| == 64
    ensures Absorbed(fed + more, Compress(s, tail + more), [])
  {
    hide Compress, CompressAll, IV;
    Tables();
    var w := fed[..|fed| - |tail|];
    CompressAllConcat(IV, w, tail + more);
    CompressOne(s, tail + more);
    assert fed == w + tail && fed + more == w + (tail + more);
    assert (fed + more)[..|fed + more|] == fed + more;
  }

  lemma TailLength(fed: seq<byte>, s: seq<word>, tail: seq<byte>)
    requires Absorbed(fed, s, tail)
    ensures |tail| == |fed| % 64 && |tail| < 64 && |s| == 8
  {
    hide CompressAll, IV;
    SameRemainder(|fed|, |tail|);
  }

  lemma SameRemainder(n: nat, t: nat)
    requires t < 64 && t <= n && (n - t) % 64 == 0
    ensures n % 64 == t
  {
  }

  lemma NothingLeft(fed: seq<byte>, s: seq<word>)
    requires Absorbed(fed, s, [])
    ensures |fed| % 64 == 0 && s == CompressAll(IV, fed)
  {
    hide CompressAll, IV;
    assert fed[..|fed|] == fed;
  }

  /** The bits counted so far: n octets when the buffer holds the last t of them. */
  lemma CountBlock(n: nat)
    ensures (8 * n % TWO_64 + 512) % TWO_64 == 8 * (n + 64) % TWO_64
  {
    ModAdds(8 * n, 512);
  }

  lemma ModAdds(x: nat, y: nat)
    ensures (x % TWO_64 + y) % TWO_64 == (x + y) % TWO_64
  {
    var q := (x % TWO_64 + y) / TWO_64;
    DivUnique(x + y, TWO_64, x / TWO_64 + q, (x % TWO_64 + y) % TWO_64);
  }

  /** SHA256_EL_CTX. */
  class Context {
    const state: array<word>
    const data: array<byte>
    var bitlen: int
    var datalen: nat
    ghost var fed: seq<byte>

    ghost predicate Valid()
      reads this, state, data
    {
      && state.Length == 8 && data.Length == 64 && datalen < 64 && datalen <= |fed|
      && bitlen == 8 * (|fed| - datalen) % TWO_64
      && Absorbed(fed, state[..], data[..datalen])
    }

    constructor ()
      ensures Valid() && fed == [] && fresh(state) && fresh(data)
    {
      Tables();
      state := new word[8](k requires 0 <= k < 8 => IV[k]);
      data := new byte[64];
      bitlen, datalen := 0, 0;
      fed := [];
      new;
      assert state[..] == IV;
    }

    /** One octet of input. */
    method Push(x: byte)
      requires Valid()
      modifies this, state, data
      ensures Valid() && fed == old(fed) + [x]
    {
      hide Absorbed, Compress;
      ghost var tail := data[..datalen];
      data[datalen] := x;
      datalen := datalen + 1;
      assert data[..datalen] == tail + [x];
      if datalen == 64 {
        AbsorbBlock(fed, state[..], tail, [x]);
        assert data[..] == data[..64];
        Transform(state, data[..]);
        CountBlock(|fed| - 63);
        bitlen := (bitlen + 512) % TWO_64;
        datalen := 0;
        assert data[..0] == [];
      } else {
        AbsorbTail(fed, state[..], tail, [x]);
      }
      fed := fed + [x];
    }

    method Update(x: seq<byte>)
      requires Valid()
      modifies this, state, data
      ensures Valid() && fed == old(fed) + x
    {
      hide Absorbed;
      for i := 0 to |x|
        invariant Valid() && fed == old(fed) + x[..i]
      {
        Push(x[i]);
        assert x[..i + 1] == x[..i] + [x[i]];
      }
      assert x[..|x|] == x;
    }

    /** Zeros from position i to position to. */
    method Clear(i: nat, to: nat)
      requires data.Length == 64 && i <= to <= 64
      modifies data
      ensures data[..to] == old(data[..i]) + Zeros(to - i)
    {
      var j := i;
      while j < to
        invariant i <= j <= to
        invariant data[..i] == old(data[..i])
        invariant forall k :: i <= k < j ==> data[k] == 0
      {
        data[j] := 0;
        j := j + 1;
      }
      assert data[..to] == data[..i] + data[i..to];
      assert data[i..to] == Zeros(to - i);
    }

    /** The marker and zeros: up to the length field, or through one more block. */
    method PadBuffer()
      requires Valid()
      modifies state, data
      ensures data.Length == 64 && state.Length == 8
      ensures var m, t := old(fed), old(datalen);
              if t < 56 then data[..56] == old(data[..t]) + ([0x80] + Zeros(55 - t)) && state[..] == old(state[..])
              else data[..56] == Zeros(56) && Absorbed(m + ([0x80] + Zeros(63 - t)), state[..], [])
    {
      hide Absorbed, Compress;
      ghost var tail := data[..datalen];
      var i := datalen;
      data[i] := 0x80;
      i := i + 1;
      assert data[..i] == tail + [0x80];
      if i - 1 < 56 {
        Clear(i, 56);
        assert tail + [0x80] + Zeros(56 - i) == tail + ([0x80] + Zeros(56 - i));
      } else {
        Clear(i, 64);
        ghost var pad := [0x80] + Zeros(64 - i);
        assert data[..] == data[..64] && tail + [0x80] + Zeros(64 - i) == tail + pad;
        AbsorbBlock(fed, state[..], tail, pad);
        Transform(state, data[..]);
        Clear(0, 56);
        assert data[..56] == Zeros(56) by {
          assert [] + Zeros(56) == Zeros(56);
        }
      }
    }

    /** bitlen, most significant octet first, at the end of the buffer. */
    method StoreLength()
      requires data.Length == 64 && 0 <= bitlen < TWO_64
      modifies data
      ensures data[..] == old(data[..56]) + (StoreWord(bitlen / TWO_32) + StoreWord(bitlen % TWO_32))
    {
      LowOctets(bitlen);
      ghost var low := data[..56];
      data[63] := bitlen % 256;
      data[62] := bitlen / 0x100 % 256;
      data[61] := bitlen / 0x1_0000 % 256;
      data[60] := bitlen / 0x100_0000 % 256;
      data[59] := bitlen / 0x1_0000_0000 % 256;
      data[58] := bitlen / 0x100_0000_0000 % 256;
      data[57] := bitlen / 0x1_0000_0000_0000 % 256;
      data[56] := bitlen / 0x100_0000_0000_0000 % 256;
      assert data[..56] == low && data[56..] == StoreWord(bitlen / TWO_32) + StoreWord(bitlen % TWO_32);
      assert data[..] == data[..56] + data[56..];
    }

    /** The bits still in the buffer, then the length field. */
    method StoreCount(ghost n: nat)
      requires data.Length == 64 && datalen <= n && bitlen == 8 * (n - datalen) % TWO_64
      modifies this`bitlen, data
      ensures data[..] == old(data[..56]) + LengthField(n)
    {
      FinalCount(n, datalen);
      bitlen := (bitlen + datalen * 8) % TWO_64;
      StoreLength();
    }

    /** What remains is one compression of the buffer with the length stored. */
    method Prepare()
      requires Valid()
      modifies state, data
      ensures state.Length == 8 && data.Length == 64
      ensures Compress(state[..], data[..56] + LengthField(|fed|)) == CompressAll(IV, Padded(fed))
    {
      hide Absorbed, CompressAll, Compress, LengthField, Zeros, Padded, IV;
      ghost var s, tail := state[..], data[..datalen];
      TailLength(fed, s, tail);
      PadBuffer();
      PaddedHash(fed, s, tail, state[..], data[..56], LengthField(|fed|));
    }

    /** The last compression. */
    method Finish(ghost goal: seq<word>)
      requires state.Length == 8 && data.Length == 64 && datalen <= |fed|
      requires bitlen == 8 * (|fed| - datalen) % TWO_64
      requires Compress(state[..], data[..56] + LengthField(|fed|)) == goal
      modifies this`bitlen, state, data
      ensures state[..] == goal
    {
      hide Compress, LengthField;
      StoreCount(|fed|);
      assert data[..] == data[..64];
      Transform(state, data[..]);
    }

    /** sha256EL_final. */
    method Final() returns (hash: seq<byte>)
      requires Valid()
      modifies this, state, data
      ensures hash == Sha256(fed) && fed == old(fed)
    {
      hide Absorbed, CompressAll, Compress, LengthField, Padded;
      Prepare();
      Finish(CompressAll(IV, Padded(fed)));
      hash := DigestOf(state[..]);
    }
  }

  /** Either way the last compression yields the hash state of the padded message. */
  lemma PaddedHash(m: seq<byte>, s: seq<word>, tail: seq<byte>, u: seq<word>, low: seq<byte>, field: seq<byte>)
    requires Absorbed(m, s, tail) && field == LengthField(|m|)
    requires if |tail| < 56 then low == tail + ([0x80] + Zeros(55 - |tail|)) && u == s
             else low == Zeros(56) && Absorbed(m + ([0x80] + Zeros(63 - |tail|)), u, [])
    ensures |u| == 8 && |low + field| == 64
    ensures Compress(u, low + field) == CompressAll(IV, Padded(m))
  {
    hide Absorbed, Compress, CompressAll, LengthField, Zeros, Padded;
    TailLength(m, s, tail);
    if |tail| < 56 {
      OneBlock(m, s, tail, low, field);
    } else {
      TwoBlocks(m, u, |tail|, field);
    }
  }

  lemma LowOctets(b: int)
    requires 0 <= b < TWO_64
    ensures b % TWO_32 % 256 == b % 256 && b % TWO_32 / 0x100 % 256 == b / 0x100 % 256
    ensures b % TWO_32 / 0x1_0000 % 256 == b / 0x1_0000 % 256
    ensures b % TWO_32 / 0x100_0000 % 256 == b / 0x100_0000 % 256
    ensures b / TWO_32 % 256 == b / 0x1_0000_0000 % 256 && b / TWO_32 / 0x100 % 256 == b / 0x100_0000_0000 % 256
    ensures b / TWO_32 / 0x1_0000 % 256 == b / 0x1_0000_0000_0000 % 256
    ensures b / TWO_32 / 0x100_0000 % 256 == b / 0x100_0000_0000_0000 % 256
  {
    DivDiv(b, TWO_32, 0x100);
    DivDiv(b, TWO_32, 0x1_0000);
    DivDiv(b, TWO_32, 0x100_0000);
    LowOctet(b, 1);
    LowOctet(b, 0x100);
    LowOctet(b, 0x1_0000);
    LowOctet(b, 0x100_0000);
  }

  lemma LowOctet(b: int, p: int)
    requires p == 1 || p == 0x100 || p == 0x1_0000 || p == 0x100_0000
    ensures b % TWO_32 / p % 256 == b / p % 256
  {
    var q, r := b / TWO_32, b % TWO_32;
    assert b == TWO_32 * q + r;
    if p == 1 {
      SameOctet(r, 0x100_0000 * q);
    } else if p == 0x100 {
      DivUnique(b, p, 0x100_0000 * q + r / p, r % p);
      SameOctet(r / p, 0x1_0000 * q);
    } else if p == 0x1_0000 {
      DivUnique(b, p, 0x1_0000 * q + r / p, r % p);
      SameOctet(r / p, 0x100 * q);
    } else {
      DivUnique(b, p, 0x100 * q + r / p, r % p);
      SameOctet(r / p, q);
    }
  }

  lemma SameOctet(x: int, y: int)
    ensures (256 * y + x) % 256 == x % 256
  {
  }

  lemma FinalCount(n: nat, t: nat)
    requires t <= n
    ensures (8 * (n - t) % TWO_64 + t * 8) % TWO_64 == 8 * n % TWO_64
  {
    ModAdds(8 * (n - t), t * 8);
  }

  lemma PaddedIs(m: seq<byte>, z: nat, field: seq<byte>)
    requires z < 128 && z == ZeroCount(|m|) && field == LengthField(|m|)
    ensures Padded(m) == m + ([0x80] + Zeros(z) + field)
  {
    hide LengthField, Zeros;
    assert m + [0x80] + Zeros(z) + field == m + ([0x80] + Zeros(z) + field);
  }

  lemma ZeroCountIs(n: nat, r: nat)
    requires r == n % 64
    ensures ZeroCount(n) == if r < 56 then 55 - r else 119 - r
  {
    DivUnique(55 - n, 64, if r < 56 then -(n / 64) else -(n / 64) - 1, if r < 56 then 55 - r else 119 - r);
  }

  /** A last block behind the tail: the padded message is what was hashed. */
  lemma LastPart(m: seq<byte>, s: seq<word>, tail: seq<byte>, last: seq<byte>)
    requires Absorbed(m, s, tail) && |tail| + |last| == 64
    ensures |m + last| % 64 == 0 && Compress(s, tail + last) == CompressAll(IV, m + last)
  {
    hide Absorbed, Compress, CompressAll, IV;
    TailLength(m, s, tail);
    AbsorbBlock(m, s, tail, last);
    NothingLeft(m + last, Compress(s, tail + last));
  }

  lemma Regroup(a: seq<byte>, b: seq<byte>, c: seq<byte>)
    ensures a + b + c == a + (b + c)
  {
  }

  /** Marker, zeros and length all fit behind the tail. */
  lemma OneBlock(m: seq<byte>, s: seq<word>, tail: seq<byte>, low: seq<byte>, field: seq<byte>)
    requires Absorbed(m, s, tail) && |tail| < 56 && field == LengthField(|m|)
    requires low == tail + ([0x80] + Zeros(55 - |tail|))
    ensures |s| == 8 && |low + field| == 64
    ensures Compress(s, low + field) == CompressAll(IV, Padded(m))
  {
    hide Absorbed, Compress, CompressAll, LengthField, IV, Zeros, ZeroCount, Padded;
    TailLength(m, s, tail);
    var z := 55 - |tail|;
    Regroup(tail, [0x80] + Zeros(z), field);
    ZeroCountIs(|m|, |tail|);
    PaddedIs(m, z, field);
    LastPart(m, s, tail, [0x80] + Zeros(z) + field);
  }

  lemma ZerosJoin(i: nat, j: nat)
    ensures Zeros(i) + Zeros(j) == Zeros(i + j)
  {
  }

  lemma Nested(m: seq<byte>, a: seq<byte>, y: seq<byte>, z: seq<byte>, f: seq<byte>)
    ensures m + (a + y) + (z + f) == m + (a + (y + z) + f)
  {
    assert m + (a + y) + (z + f) == m + ((a + y) + (z + f));
    assert (a + y) + (z + f) == a + (y + z) + f;
  }

  /** The marker fills the block; zeros and the length make another. */
  lemma TwoBlocks(m: seq<byte>, s: seq<word>, r: nat, field: seq<byte>)
    requires r == |m| % 64 && r >= 56 && field == LengthField(|m|)
    requires Absorbed(m + ([0x80] + Zeros(63 - r)), s, [])
    ensures |s| == 8 && |Zeros(56) + field| == 64
    ensures Compress(s, Zeros(56) + field) == CompressAll(IV, Padded(m))
  {
    hide Absorbed, Compress, CompressAll, LengthField, IV, ZeroCount, Padded, Zeros;
    ZerosJoin(63 - r, 56);
    TailLength(m + ([0x80] + Zeros(63 - r)), s, []);
    var first, last := [0x80] + Zeros(63 - r), Zeros(56) + field;
    assert [] + last == last && |last| == 64;
    Nested(m, [0x80], Zeros(63 - r), Zeros(56), field);
    ZeroCountIs(|m|, r);
    PaddedIs(m, 119 - r, field);
    LastPart(m + first, s, [], last);
  }

  /** sha256EL. */
  method HashAll(x: seq<byte>) returns (hash: seq<byte>)
    ensures hash == Sha256(x)
  {
    var ctx := new Context();
    ctx.Update(x);
    assert ctx.fed == x;
    hash := ctx.Final();
  }
}
