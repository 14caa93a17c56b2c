/** Octets and little-endian numbers. */
module Bytes {

  type byte = x: int | 0 <= x < 256

  /** The number whose base-256 digits, least significant first, are s. */
  function LeVal(s: seq<byte>): (n: nat)
    ensures s == [] ==> n == 0
  {
    if s == [] then 0 else s[0] + 256 * LeVal(s[1..])
  }

  function Pow256(k: nat): (p: nat)
    ensures p > 0
  {
    if k == 0 then 1 else 256 * Pow256(k - 1)
  }

  lemma {:induction false} LeValConcat(a: seq<byte>, b: seq<byte>)
    ensures LeVal(a + b) == LeVal(a) + Pow256(|a|) * LeVal(b)
  {
    if a == [] {
      assert a + b == b;
    } else {
      assert (a + b)[1..] == a[1..] + b;
      LeValConcat(a[1..], b);
      assert Pow256(|a|) * LeVal(b) == 256 * (Pow256(|a| - 1) * LeVal(b));
    }
  }

  lemma {:induction false} LeValBound(s: seq<byte>)
    ensures LeVal(s) < Pow256(|s|)
  {
    if s != [] {
      LeValBound(s[1..]);
    }
  }

  /** Equally long octet strings with the same value are the same string. */
  lemma {:induction false} LeValInjective(a: seq<byte>, b: seq<byte>)
    requires |a| == |b| && LeVal(a) == LeVal(b)
    ensures a == b
  {
    if a != [] {
      assert a[0] == LeVal(a) % 256 && b[0] == LeVal(b) % 256;
      LeValInjective(a[1..], b[1..]);
      assert a == [a[0]] + a[1..] && b == [b[0]] + b[1..];
    }
  }

  lemma LeValStep(s: seq<byte>, k: nat)
    requires k < |s|
    ensures LeVal(s[k..]) == s[k] + 256 * LeVal(s[k + 1..])
  {
    assert s[k..][1..] == s[k + 1..];
  }

  /** Four consecutive octets as a number. */
  function Word(s: seq<int>, k: nat): int
    requires k + 4 <= |s|
  {
    s[k] + 0x100 * s[k + 1] + 0x1_0000 * s[k + 2] + 0x100_0000 * s[k + 3]
  }

  lemma LeValStepWord(s: seq<byte>, k: nat)
    requires k + 4 <= |s|
    ensures LeVal(s[k..]) == Word(s, k) + 0x1_0000_0000 * LeVal(s[k + 4..])
  {
    LeValStep(s, k);
    LeValStep(s, k + 1);
    LeValStep(s, k + 2);
    LeValStep(s, k + 3);
  }

  /** Sixteen consecutive octets as a number. */
  function Quad(s: seq<int>, k: nat): int
    requires k + 16 <= |s|
  {
    Word(s, k) + 0x1_0000_0000 * Word(s, k + 4) +
    0x1_0000_0000_0000_0000 * Word(s, k + 8) + 0x1_0000_0000_0000_0000_0000_0000 * Word(s, k + 12)
  }

  lemma LeValStepQuad(s: seq<byte>, k: nat)
    requires k + 16 <= |s|
    ensures LeVal(s[k..]) == Quad(s, k) + TWO_128 * LeVal(s[k + 16..])
  {
    LeValStepWord(s, k);
    LeValStepWord(s, k + 4);
    LeValStepWord(s, k + 8);
    LeValStepWord(s, k + 12);
  }

  const TWO_128: int := 0x1_0000_0000_0000_0000_0000_0000_0000_0000

  lemma LeVal32(s: seq<byte>)
    requires |s| == 32
    ensures LeVal(s) == Quad(s, 0) + TWO_128 * Quad(s, 16)
  {
    assert s[0..] == s && s[32..] == [];
    LeValStepQuad(s, 0);
    LeValStepQuad(s, 16);
  }

  /** Thirty-two octets, in eight groups of four. */
  function Octets(a: seq<byte>, b: seq<byte>, c: seq<byte>, d: seq<byte>, e: seq<byte>, f: seq<byte>, g: seq<byte>,
                  h: seq<byte>): (s: seq<byte>)
    requires |a| == |b| == |c| == |d| == |e| == |f| == |g| == |h| == 4
    ensures |s| == 32
  {
    a + (b + (c + (d + (e + (f + (g + h))))))
  }

  lemma FourOctets(a: byte, b: byte, c: byte, d: byte)
    ensures LeVal([a, b, c, d]) == a + 0x100 * b + 0x1_0000 * c + 0x100_0000 * d
  {
    var s := [a, b, c, d];
    assert s[0..] == s && s[4..] == [];
    LeValStepWord(s, 0);
  }

  lemma FourMore(a: seq<byte>, s: seq<byte>)
    requires |a| == 4
    ensures LeVal(a + s) == LeVal(a) + 0x1_0000_0000 * LeVal(s)
  {
    LeValConcat(a, s);
    assert Pow256(4) == 0x1_0000_0000;
  }

  lemma EightFours(a: seq<byte>, b: seq<byte>, c: seq<byte>, d: seq<byte>, e: seq<byte>, f: seq<byte>, g: seq<byte>,
                   h: seq<byte>)
    requires |a| == |b| == |c| == |d| == |e| == |f| == |g| == |h| == 4
    ensures LeVal(Octets(a, b, c, d, e, f, g, h)) ==
              LeVal(a) + 0x1_0000_0000 * (LeVal(b) + 0x1_0000_0000 * (LeVal(c) + 0x1_0000_0000 * (LeVal(d) +
              0x1_0000_0000 * (LeVal(e) + 0x1_0000_0000 * (LeVal(f) + 0x1_0000_0000 * (LeVal(g) +
              0x1_0000_0000 * LeVal(h)))))))
  {
    hide LeVal;
    FourMore(a, b + (c + (d + (e + (f + (g + h))))));
    FourMore(b, c + (d + (e + (f + (g + h)))));
    FourMore(c, d + (e + (f + (g + h))));
    FourMore(d, e + (f + (g + h)));
    FourMore(e, f + (g + h));
    FourMore(f, g + h);
    FourMore(g, h);
  }
}
