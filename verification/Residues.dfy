/** Congruence modulo the field prime p = 2^255 - 19, and what follows from p being prime.

    Limb values are plain integers that stand for residues, so every statement about the
    field code is a congruence.  Congruence is kept as "there is a multiplier" rather than
    with `%`, which keeps the proofs below linear. */
module Residues {

  const P: int := 0x7fff_ffff_ffff_ffff_ffff_ffff_ffff_ffff_ffff_ffff_ffff_ffff_ffff_ffff_ffff_ffed

  predicate DifferBy(k: int, a: int, b: int) {
    a - b == P * k
  }

  /** Congruence, folded up under a depth: a proof sees it as a bare relation unless it asks for
      the multiplier with CongMeans. */
  ghost predicate CongAt(depth: nat, a: int, b: int)
    decreases depth, a
  {
    if depth == 0 then exists k :: DifferBy(k, a, b) else CongAt(depth - 1, a, b)
  }

  /** a and b are the same residue modulo p. */
  ghost predicate Cong(a: int, b: int) {
    CongAt(4, a, b)
  }

  lemma CongMeans(a: int, b: int)
    ensures Cong(a, b) <==> exists k :: DifferBy(k, a, b)
  {
    assert CongAt(2, a, b) == CongAt(0, a, b);
    assert CongAt(4, a, b) == CongAt(2, a, b);
  }

  lemma Multiplier(a: int, b: int) returns (k: int)
    requires Cong(a, b)
    ensures a - b == P * k
  {
    CongMeans(a, b);
    k :| DifferBy(k, a, b);
  }

  lemma CongBy(a: int, b: int, k: int)
    requires a - b == P * k
    ensures Cong(a, b)
  {
    assert DifferBy(k, a, b);
    CongMeans(a, b);
  }

  lemma CongRefl(a: int)
    ensures Cong(a, a)
  {
    CongBy(a, a, 0);
  }

  lemma CongSym(a: int, b: int)
    requires Cong(a, b)
    ensures Cong(b, a)
  {
    var k := Multiplier(a, b);
    CongBy(b, a, -k);
  }

  lemma CongTrans(a: int, b: int, c: int)
    requires Cong(a, b) && Cong(b, c)
    ensures Cong(a, c)
  {
    var k := Multiplier(a, b);
    var l := Multiplier(b, c);
    CongBy(a, c, k + l);
  }

  lemma CongAdd(a: int, b: int, c: int, d: int)
    requires Cong(a, b) && Cong(c, d)
    ensures Cong(a + c, b + d)
  {
    var k := Multiplier(a, b);
    var l := Multiplier(c, d);
    CongBy(a + c, b + d, k + l);
  }

  lemma CongSub(a: int, b: int, c: int, d: int)
    requires Cong(a, b) && Cong(c, d)
    ensures Cong(a - c, b - d)
  {
    var k := Multiplier(a, b);
    var l := Multiplier(c, d);
    CongBy(a - c, b - d, k - l);
  }

  lemma CongMul(a: int, b: int, c: int, d: int)
    requires Cong(a, b) && Cong(c, d)
    ensures Cong(a * c, b * d)
  {
    var k := Multiplier(a, b);
    var l := Multiplier(c, d);
    var m := k * c + b * l;
    assert a * c - b * d == (a - b) * c + b * (c - d);
    assert (P * k) * c == P * (k * c);
    assert b * (P * l) == P * (b * l);
    CongBy(a * c, b * d, m);
  }

  lemma CongScale(c: int, a: int, b: int)
    requires Cong(a, b)
    ensures Cong(c * a, c * b)
  {
    CongRefl(c);
    CongMul(c, c, a, b);
  }

  lemma CongDouble(a: int, b: int, c: int, v: int)
    requires Cong(b, v) && Cong(a, c) && c == 2 * b
    ensures Cong(a, 2 * v)
  {
    CongAdd(b, v, b, v);
    CongTrans(a, c, 2 * v);
  }

  /** Congruence is equality of remainders, and a remainder names its residue. */
  lemma CongIff(a: int, b: int)
    ensures Cong(a, b) <==> a % P == b % P
    ensures Cong(a % P, a)
  {
    CongBy(a % P, a, -(a / P));
    if Cong(a, b) {
      var k := Multiplier(a, b);
      RemainderUnique(a, b, k);
    }
    if a % P == b % P {
      CongBy(a, b, a / P - b / P);
    }
  }

  lemma RemainderUnique(a: int, b: int, k: int)
    requires a - b == P * k
    ensures a % P == b % P
  {
    var q := a / P - b / P - k;
    assert a % P - b % P == -(P * q);
  }

  /** The remainder modulo p, folded up like CongAt. */
  function RemainderAt(depth: nat, x: int): (r: int)
    ensures 0 <= r < P
    decreases depth, x
  {
    if depth == 0 then x % P else RemainderAt(depth - 1, x)
  }

  /** The canonical representative of x modulo p. */
  function Canon(x: int): (r: int)
    ensures 0 <= r < P
  {
    RemainderAt(4, x)
  }

  lemma CanonIs(x: int)
    ensures Canon(x) == x % P && Cong(Canon(x), x)
  {
    assert RemainderAt(2, x) == RemainderAt(0, x);
    assert RemainderAt(4, x) == RemainderAt(2, x);
    CongIff(x, 0);
  }

  lemma CanonUnique(x: int, r: int)
    requires Cong(x, r) && 0 <= r < P
    ensures Canon(x) == r
  {
    CanonIs(x);
    CongTrans(Canon(x), x, r);
    CongSmall(Canon(x), r);
  }

  /** Two numbers below p that are congruent are equal. */
  lemma CongSmall(a: int, b: int)
    requires Cong(a, b) && 0 <= a < P && 0 <= b < P
    ensures a == b
  {
    var k := Multiplier(a, b);
  }
}
