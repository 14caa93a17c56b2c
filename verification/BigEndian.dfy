/** Numbers in octets, the most significant first. */
module BigEndian {
  import opened Arithmetic
  import opened Bytes

  function BeVal(s: seq<byte>): nat {
    if s == [] then 0 else 256 * BeVal(s[..|s| - 1]) + s[|s| - 1]
  }

  lemma BeValMore(s: seq<byte>, x: byte)
    ensures BeVal(s + [x]) == 256 * BeVal(s) + x
  {
    assert (s + [x])[..|s|] == s;
  }

  lemma FourValue(a: byte, b: byte, c: byte, d: byte)
    ensures BeVal([a, b, c, d]) == 0x100_0000 * a + 0x1_0000 * b + 0x100 * c + d
  {
    BeValMore([], a);
    BeValMore([a], b);
    BeValMore([a, b], c);
    BeValMore([a, b, c], d);
    assert [] + [a] == [a] && [a] + [b] == [a, b] && [a, b] + [c] == [a, b, c] && [a, b, c] + [d] == [a, b, c, d];
  }

  /** Appending four octets. */
  lemma FourMoreValue(s: seq<byte>, a: byte, b: byte, c: byte, d: byte)
    ensures BeVal(s + [a, b, c, d]) == 0x1_0000_0000 * BeVal(s) + 0x100_0000 * a + 0x1_0000 * b + 0x100 * c + d
  {
    BeValMore(s, a);
    BeValMore(s + [a], b);
    BeValMore(s + [a] + [b], c);
    BeValMore(s + [a] + [b] + [c], d);
    assert s + [a] + [b] + [c] + [d] == s + [a, b, c, d];
  }

  lemma EightValue(a: byte, b: byte, c: byte, d: byte, e: byte, f: byte, g: byte, h: byte)
    ensures BeVal([a, b, c, d, e, f, g, h]) ==
            0x100_0000_0000_0000 * a + 0x1_0000_0000_0000 * b + 0x100_0000_0000 * c + 0x1_0000_0000 * d +
            0x100_0000 * e + 0x1_0000 * f + 0x100 * g + h
  {
    FourValue(a, b, c, d);
    FourMoreValue([a, b, c, d], e, f, g, h);
    assert [a, b, c, d] + [e, f, g, h] == [a, b, c, d, e, f, g, h];
  }

  lemma LowFour(x: nat)
    ensures x == 0x1_0000_0000 * (x / 0x1_0000_0000) + 0x100_0000 * (x / 0x100_0000 % 256) +
                 0x1_0000 * (x / 0x1_0000 % 256) + 0x100 * (x / 0x100 % 256) + x % 256
  {
    DivDigit(x, 1);
    DivDigit(x, 0x100);
    DivDigit(x, 0x1_0000);
    DivDigit(x, 0x100_0000);
  }

  lemma FourDigits(x: nat)
    requires x < 0x1_0000_0000
    ensures x == 0x100_0000 * (x / 0x100_0000 % 256) + 0x1_0000 * (x / 0x1_0000 % 256) + 0x100 * (x / 0x100 % 256) + x % 256
  {
    LowFour(x);
  }

  lemma HighFour(x: nat)
    requires x < 0x1_0000_0000_0000_0000
    ensures x / 0x1_0000_0000 ==
            0x100_0000 * (x / 0x100_0000_0000_0000 % 256) + 0x1_0000 * (x / 0x1_0000_0000_0000 % 256) +
            0x100 * (x / 0x100_0000_0000 % 256) + x / 0x1_0000_0000 % 256
  {
    DivDiv(x, 0x1_0000_0000, 0x100);
    DivDiv(x, 0x1_0000_0000, 0x1_0000);
    DivDiv(x, 0x1_0000_0000, 0x100_0000);
    FourDigits(x / 0x1_0000_0000);
  }

  lemma EightDigits(x: nat)
    requires x < 0x1_0000_0000_0000_0000
    ensures x == 0x100_0000_0000_0000 * (x / 0x100_0000_0000_0000 % 256) + 0x1_0000_0000_0000 * (x / 0x1_0000_0000_0000 % 256) +
                 0x100_0000_0000 * (x / 0x100_0000_0000 % 256) + 0x1_0000_0000 * (x / 0x1_0000_0000 % 256) +
                 0x100_0000 * (x / 0x100_0000 % 256) + 0x1_0000 * (x / 0x1_0000 % 256) + 0x100 * (x / 0x100 % 256) + x % 256
  {
    LowFour(x);
    HighFour(x);
  }
}
