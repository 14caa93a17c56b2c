/** What hex_to_byte_array decodes, digit by digit, and why comparing decoded octets is comparing the
    texts, up to case. */
module HexOrder {
  import opened Wrappers
  import opened Bytes
  import opened Sorting
  import opened Hex

  const DIGITS: string := "0123456789abcdef"

  function Lower(c: char): char {
    if 'A' <= c <= 'F' then (c as int - 'A' as int + 'a' as int) as char else c
  }

  function Lowered(s: string): (t: string)
    ensures |t| == |s| && forall i :: 0 <= i < |s| ==> t[i] == Lower(s[i])
  {
    if s == [] then [] else [Lower(s[0])] + Lowered(s[1..])
  }

  /** c is the hexadecimal digit of v, in either case. */
  predicate IsDigit(c: char, v: int) {
    0 <= v < 16 && Lower(c) == DIGITS[v]
  }

  predicate HexText(s: string) {
    forall i :: 0 <= i < |s| ==> Lower(s[i]) in DIGITS
  }

  // ---------- Digits ----------

  lemma DigitCode(v: int)
    requires 0 <= v < 16
    ensures DIGITS[v] as int == if v < 10 then '0' as int + v else 'a' as int + v - 10
  {
  }

  lemma NibbleIs(c: char, v: int)
    ensures Nibble(c) == Some(v) <==> IsDigit(c, v)
  {
    if 0 <= v < 16 {
      DigitCode(v);
      hide DIGITS;
    }
  }

  lemma NibbleExists(c: char)
    ensures Nibble(c).Some? <==> Lower(c) in DIGITS
  {
    if Nibble(c).Some? {
      NibbleIs(c, Nibble(c).value);
    }
    if Lower(c) in DIGITS {
      var v :| 0 <= v < |DIGITS| && DIGITS[v] == Lower(c);
      NibbleIs(c, v);
    }
  }

  /** b spells s: two digits an octet, the high one first. */
  ghost predicate Spells(b: seq<byte>, s: string) {
    |s| == 2 * |b| && forall i :: 0 <= i < |b| ==> IsDigit(s[2 * i], b[i] / 16) && IsDigit(s[2 * i + 1], b[i] % 16)
  }

  lemma SpellsMore(b: seq<byte>, s: string)
    requires |s| == 2 * |b| && b != []
    ensures Spells(b, s) <==> IsDigit(s[0], b[0] / 16) && IsDigit(s[1], b[0] % 16) && Spells(b[1..], s[2..])
  {
    hide IsDigit;
    var r, t := b[1..], s[2..];
    assert forall i :: 0 <= i < |r| ==> r[i] == b[i + 1] && t[2 * i] == s[2 * (i + 1)] && t[2 * i + 1] == s[2 * (i + 1) + 1];
    if IsDigit(s[0], b[0] / 16) && IsDigit(s[1], b[0] % 16) && Spells(r, t) {
      forall i | 0 <= i < |b| ensures IsDigit(s[2 * i], b[i] / 16) && IsDigit(s[2 * i + 1], b[i] % 16) {
        if i > 0 {
          assert r[i - 1] == b[i];
        }
      }
    }
    if Spells(b, s) {
      assert IsDigit(s[2 * 0], b[0] / 16) && IsDigit(s[2 * 0 + 1], b[0] % 16);
      forall i | 0 <= i < |r| ensures IsDigit(t[2 * i], r[i] / 16) && IsDigit(t[2 * i + 1], r[i] % 16) {
        assert r[i] == b[i + 1];
      }
    }
  }

  lemma Halves(h: int, l: int)
    requires 0 <= h < 16 && 0 <= l < 16
    ensures (16 * h + l) / 16 == h && (16 * h + l) % 16 == l
  {
  }

  lemma Cons<T>(x: T, r: seq<T>, b: seq<T>)
    ensures [x] + r == b <==> b != [] && b[0] == x && b[1..] == r
  {
    if b != [] {
      assert b == [b[0]] + b[1..];
    }
    assert ([x] + r)[1..] == r;
  }

  lemma OctetIs(h: int, l: int, o: byte)
    requires 0 <= h < 16 && 0 <= l < 16
    ensures 16 * h + l == o <==> h == o / 16 && l == o % 16
  {
    Halves(h, l);
  }

  lemma PairsJoin(s: string, h: nat, l: nat, rest: seq<byte>, b: seq<byte>)
    requires |s| % 2 == 0 && s != []
    requires Nibble(s[0]) == Some(h) && Nibble(s[1]) == Some(l) && Pairs(s[2..]) == Some(rest)
    ensures Pairs(s) == Some(b) <==> b != [] && h == b[0] / 16 && l == b[0] % 16 && rest == b[1..]
  {
    assert h < 16 && l < 16;
    var x: byte := 16 * h + l;
    assert Pairs(s) == Some([x] + rest);
    hide Nibble, Pairs;
    Cons(x, rest, b);
    if b != [] {
      OctetIs(h, l, b[0]);
    }
  }

  lemma PairsMore(s: string, b: seq<byte>)
    requires |s| % 2 == 0 && s != []
    ensures Pairs(s) == Some(b) <==>
              b != [] && Nibble(s[0]) == Some(b[0] / 16) && Nibble(s[1]) == Some(b[0] % 16) &&
              Pairs(s[2..]) == Some(b[1..])
  {
    var high, low, rest := Nibble(s[0]), Nibble(s[1]), Pairs(s[2..]);
    if high.Some? && low.Some? && rest.Some? {
      hide Nibble, Pairs;
      PairsJoin(s, high.value, low.value, rest.value, b);
    } else {
      assert Pairs(s).None?;
    }
  }

  /** The pairs of a text decode to exactly the octets that spell it. */
  lemma {:induction false} PairsAre(s: string, b: seq<byte>)
    requires |s| % 2 == 0
    ensures Pairs(s) == Some(b) <==> Spells(b, s)
  {
    if s == [] {
      assert b == [] <==> Spells(b, s);
    } else {
      PairsMore(s, b);
      if b != [] {
        PairsAre(s[2..], b[1..]);
        NibbleIs(s[0], b[0] / 16);
        NibbleIs(s[1], b[0] % 16);
        hide IsDigit, Nibble, Pairs;
        if |s| == 2 * |b| {
          SpellsMore(b, s);
        }
      }
    }
  }

  lemma HexTextMore(s: string)
    requires |s| >= 2
    ensures HexText(s) <==> Lower(s[0]) in DIGITS && Lower(s[1]) in DIGITS && HexText(s[2..])
  {
    hide Lower, DIGITS;
    var t := s[2..];
    if HexText(t) && Lower(s[0]) in DIGITS && Lower(s[1]) in DIGITS {
      forall i | 0 <= i < |s| ensures Lower(s[i]) in DIGITS {
        if i >= 2 {
          assert t[i - 2] == s[i];
        }
      }
    }
  }

  lemma {:induction false} PairsExist(s: string)
    requires |s| % 2 == 0
    ensures Pairs(s).Some? <==> HexText(s)
  {
    if s != [] {
      PairsExist(s[2..]);
      NibbleExists(s[0]);
      NibbleExists(s[1]);
      hide Nibble, Lower, DIGITS, HexText;
      HexTextMore(s);
    }
  }

  /** Decoding succeeds exactly on texts of hexadecimal digits, of even length and not too long; the
      octets of a text that fills the buffer are the ones it spells. */
  lemma DecodingIs(s: string, size: nat)
    ensures HexBytes(s, size).Some? <==> |s| % 2 == 0 && |s| <= 2 * size && HexText(s)
    ensures |s| == 2 * size ==> forall b :: HexBytes(s, size) == Some(b) <==> Spells(b, s)
  {
    if |s| % 2 == 0 {
      PairsExist(s);
      if |s| == 2 * size {
        forall b ensures HexBytes(s, size) == Some(b) <==> Spells(b, s) {
          PairsAre(s, b);
          if Pairs(s).Some? {
            assert Pairs(s).value + Padding(0) == Pairs(s).value;
          }
        }
      }
    }
  }

  /** b is a buffer of the given size with the octets s spells at the front and zeros after them. */
  ghost predicate Fills(b: seq<byte>, s: string, size: nat) {
    && |b| == size && |s| % 2 == 0 && |s| <= 2 * size && Spells(b[..|s| / 2], s)
    && forall i :: |s| / 2 <= i < size ==> b[i] == 0
  }

  lemma FillSplits(b: seq<byte>, o: seq<byte>, size: nat)
    requires |o| <= size
    ensures b == o + Padding(size - |o|) <==>
            |b| == size && b[..|o|] == o && forall i :: |o| <= i < size ==> b[i] == 0
  {
    var z := Padding(size - |o|);
    if |b| == size && b[..|o|] == o && forall i :: |o| <= i < size ==> b[i] == 0 {
      assert b == b[..|o|] + b[|o|..];
      assert b[|o|..] == z;
    }
    if b == o + z {
      assert forall i :: |o| <= i < size ==> b[i] == z[i - |o|];
    }
  }

  /** Whatever the length of the text, decoding finds the one buffer it fills. */
  lemma FillIs(s: string, size: nat, b: seq<byte>)
    ensures HexBytes(s, size) == Some(b) <==> Fills(b, s, size)
  {
    if |s| % 2 == 0 && |s| / 2 <= size {
      if |b| == size {
        PairsAre(s, b[..|s| / 2]);
      }
      hide Pairs, Spells, Padding;
      if Pairs(s).Some? {
        PairsAre(s, Pairs(s).value);
        FillSplits(b, Pairs(s).value, size);
      }
    }
  }

  // ---------- Order ----------

  /** a comes before b in the order of a dictionary. */
  ghost predicate LexLess(a: string, b: string) {
    exists i :: 0 <= i < |a| && i < |b| && a[..i] == b[..i] && a[i] < b[i]
  }

  lemma LexSplit(a: string, b: string, i: nat)
    requires 0 < i < |a| && i < |b| && a[..i] == b[..i] && a[i] < b[i]
    ensures a[0] == b[0] && LexLess(a[1..], b[1..])
  {
    var x, y := a[..i], b[..i];
    assert x[0] == a[0] && y[0] == b[0];
    assert a[1..][..i - 1] == x[1..] && b[1..][..i - 1] == y[1..];
    assert a[1..][i - 1] == a[i] && b[1..][i - 1] == b[i];
  }

  lemma LexJoin(a: string, b: string)
    requires a != [] && b != [] && a[0] == b[0] && LexLess(a[1..], b[1..])
    ensures LexLess(a, b)
  {
    var x, y := a[1..], b[1..];
    var i :| 0 <= i < |x| && i < |y| && x[..i] == y[..i] && x[i] < y[i];
    assert a[..i + 1] == [a[0]] + x[..i] && b[..i + 1] == [b[0]] + y[..i];
    assert a[i + 1] == x[i] && b[i + 1] == y[i];
  }

  lemma LexMore(a: string, b: string)
    requires a != [] && b != []
    ensures LexLess(a, b) <==> a[0] < b[0] || (a[0] == b[0] && LexLess(a[1..], b[1..]))
  {
    if LexLess(a, b) {
      var i :| 0 <= i < |a| && i < |b| && a[..i] == b[..i] && a[i] < b[i];
      if i > 0 {
        LexSplit(a, b, i);
      }
    } else if a[0] == b[0] && LexLess(a[1..], b[1..]) {
      LexJoin(a, b);
    } else {
      assert a[..0] == b[..0];
    }
  }

  lemma DigitsCompare(c: char, v: int, e: char, w: int)
    requires IsDigit(c, v) && IsDigit(e, w)
    ensures Lower(c) < Lower(e) <==> v < w
    ensures Lower(c) == Lower(e) <==> v == w
  {
    DigitCode(v);
    DigitCode(w);
    hide DIGITS;
  }

  lemma LoweredTail(s: string)
    requires |s| >= 2
    ensures Lowered(s)[2..] == Lowered(s[2..])
    ensures Lowered(s)[0] == Lower(s[0]) && Lowered(s)[1] == Lower(s[1]) && Lowered(s)[1..][0] == Lower(s[1])
    ensures Lowered(s)[1..][1..] == Lowered(s[2..])
  {
  }

  lemma FirstOctets(x: byte, y: byte)
    ensures x < y <==> x / 16 < y / 16 || (x / 16 == y / 16 && x % 16 < y % 16)
    ensures x == y <==> x / 16 == y / 16 && x % 16 == y % 16
  {
  }

  lemma LexTwo(p: string, q: string)
    requires |p| >= 2 && |q| >= 2
    ensures LexLess(p, q) <==>
              p[0] < q[0] || (p[0] == q[0] && (p[1] < q[1] || (p[1] == q[1] && LexLess(p[2..], q[2..]))))
    ensures p == q <==> p[0] == q[0] && p[1] == q[1] && p[2..] == q[2..]
  {
    LexMore(p, q);
    LexMore(p[1..], q[1..]);
    hide LexLess;
    assert p[1..][1..] == p[2..] && q[1..][1..] == q[2..];
    assert p == [p[0]] + [p[1]] + p[2..] && q == [q[0]] + [q[1]] + q[2..];
  }

  lemma MemMore(x: seq<byte>, y: seq<byte>)
    requires x != [] && y != []
    ensures MemLe(x, y) <==> x[0] < y[0] || (x[0] == y[0] && MemLe(x[1..], y[1..]))
    ensures x == y <==> x[0] == y[0] && x[1..] == y[1..]
  {
    Cons(x[0], x[1..], y);
    assert x == [x[0]] + x[1..];
  }

  /** memcmp on the octets of two equally long texts orders them as a dictionary does. */
  lemma {:induction false} OrderIs(x: seq<byte>, a: string, y: seq<byte>, b: string)
    requires Spells(x, a) && Spells(y, b) && |a| == |b|
    ensures MemLe(x, y) <==> x == y || LexLess(Lowered(a), Lowered(b))
    ensures x == y <==> Lowered(a) == Lowered(b)
    decreases |x|
  {
    if x != [] {
      SpellsMore(x, a);
      SpellsMore(y, b);
      OrderIs(x[1..], a[2..], y[1..], b[2..]);
      DigitsCompare(a[0], x[0] / 16, b[0], y[0] / 16);
      DigitsCompare(a[1], x[0] % 16, b[1], y[0] % 16);
      FirstOctets(x[0], y[0]);
      LoweredTail(a);
      LoweredTail(b);
      MemMore(x, y);
      hide IsDigit, Lower, Spells, Lowered, MemLe, LexLess;
      LexTwo(Lowered(a), Lowered(b));
    } else {
      assert !LexLess(Lowered(a), Lowered(b));
    }
  }
}
