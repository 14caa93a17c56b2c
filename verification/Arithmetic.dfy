/** Division and multiplication facts used throughout. */
module Arithmetic {

  lemma ProductNonNegative(x: int, y: int)
    requires x >= 0 && y >= 0
    ensures x * y >= 0
  {
  }

  lemma Exchange(a: int, b: int, c: int, d: int)
    ensures a * b * (c * d) == a * c * (b * d)
  {
    assert a * b * (c * d) == a * (b * c) * d;
  }

  lemma AtLeastOnce(d: int, k: int)
    requires d > 0 && k >= 1
    ensures d * k >= d
  {
  }

  /** A quotient and a remainder in range determine each other. */
  lemma DivUnique(x: int, d: int, q: int, r: int)
    requires d > 0 && x == d * q + r && 0 <= r < d
    ensures x / d == q && x % d == r
  {
    var k := x / d - q;
    assert d * k == r - x % d by {
      assert d * (x / d) + x % d == x;
      assert d * k == d * (x / d) - d * q;
    }
    if k >= 1 {
      AtLeastOnce(d, k);
    } else if k <= -1 {
      AtLeastOnce(d, -k);
    }
  }

  lemma Regroup(a: int, b: int, q: int, s: int, r: int)
    ensures a * (b * q + s) + r == a * b * q + (a * s + r)
  {
  }

  lemma Spare(a: int, b: int, s: int)
    ensures a * (b - 1 - s) == a * b - a - a * s
  {
  }

  lemma DigitBelow(a: int, b: int, s: int, r: int)
    requires a > 0 && 0 <= s < b && 0 <= r < a
    ensures 0 <= a * s + r < a * b
  {
    ProductNonNegative(a, b - 1 - s);
    ProductNonNegative(a, s);
    Spare(a, b, s);
  }

  /** Dividing twice is dividing by the product. */
  lemma DivDiv(t: int, a: int, b: int)
    requires a > 0 && b > 0
    ensures a * b > 0 && t / (a * b) == t / a / b
  {
    var q := t / a / b;
    var s := t / a % b;
    Regroup(a, b, q, s, t % a);
    DigitBelow(a, b, s, t % a);
    DivUnique(t, a * b, q, a * s + t % a);
  }

  /** t split at a: the low part, two octets, and the rest. */
  lemma SplitOctets(t: int, a: int)
    requires a > 0
    ensures a * 256 > 0 && a * 65536 > 0
    ensures t == t % a + a * (t / a % 256) + a * 256 * (t / (a * 256) % 256) + a * 65536 * (t / (a * 65536))
  {
    var q := t / a;
    DivDiv(t, a, 256);
    DivDiv(t, a, 65536);
    Digits(q);
    Distribute(a, q % 256, q / 256 % 256, q / 65536);
  }

  lemma Digits(q: int)
    ensures q == q % 256 + 256 * (q / 256 % 256) + 65536 * (q / 65536)
  {
  }

  lemma Distribute(a: int, x: int, y: int, z: int)
    ensures a * (x + 256 * y + 65536 * z) == a * x + a * 256 * y + a * 65536 * z
  {
  }

  /** The remainder by a product is two digits. */
  lemma ModDigit(t: int, a: int, b: int)
    requires a > 0 && b > 0
    ensures a * b > 0 && t % (a * b) == t % a + a * (t / a % b)
  {
    var q := t / a / b;
    var s := t / a % b;
    Regroup(a, b, q, s, t % a);
    DigitBelow(a, b, s, t % a);
    DivUnique(t, a * b, q, a * s + t % a);
  }

  lemma DivDigit(t: int, a: int)
    requires a > 0
    ensures a * 256 > 0 && t / a == t / a % 256 + 256 * (t / (a * 256))
  {
    DivDiv(t, a, 256);
  }
}
