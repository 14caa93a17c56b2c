/** Square roots of a ratio u/v modulo p by one exponentiation, as point decoding uses them. */
module SquareRoots {
  import opened Arithmetic
  import opened Residues
  import opened PrimeField

  /** x is a square root of u/v. */
  ghost predicate IsRoot(u: int, v: int, x: int) {
    Cong(v * (x * x), u)
  }

  /** The exponentiated element u v^7, with v^3 given. */
  function Radicand(u: int, v: int, v3: int): int {
    v3 * v3 * v * u
  }

  /** u v^3 (u v^7)^((p - 5) / 8). */
  function Candidate(u: int, v: int): int {
    var v3 := v * v * v;
    Pow(Radicand(u, v, v3), (P - 5) / 8) * v3 * u
  }

  /** The fourth root of unity the candidate is off by, squared. */
  function Defect(u: int, v: int): int {
    Pow(Radicand(u, v, v * v * v), (P - 1) / 4)
  }

  lemma SquareThenTimes(z: int, e: nat)
    ensures z * (Pow(z, e) * Pow(z, e)) == Pow(z, 2 * e + 1)
  {
    PowAdd(z, e, e);
  }

  lemma CandidateProduct(t: int, v3: int, u: int, v: int)
    ensures v * (t * v3 * u * (t * v3 * u)) == u * (v3 * v3 * v * u * (t * t))
  {
    Exchange(t * v3, u, t * v3, u);
    Exchange(t, v3, t, v3);
    assert v * (t * t * (v3 * v3) * (u * u)) == u * (v3 * v3 * v * u * (t * t)) by {
      var a, b := t * t, v3 * v3;
      assert v * (a * b * (u * u)) == u * (b * v * u * a);
    }
  }

  lemma CandidateSquare(u: int, v: int)
    ensures v * (Candidate(u, v) * Candidate(u, v)) == u * Defect(u, v)
  {
    var v3 := v * v * v;
    var w := Radicand(u, v, v3);
    SquareThenTimes(w, (P - 5) / 8);
    var t := Pow(w, (P - 5) / 8);
    hide Pow;
    CandidateProduct(t, v3, u, v);
  }

  lemma SquareOneOrMinusOne(g: int)
    requires PIsPrime() && Cong(g * g, 1)
    ensures Cong(g, 1) || Cong(g, -1)
  {
    CongRefl(1);
    CongSub(g * g, 1, 1, 1);
    assert g * g - 1 == (g - 1) * (g + 1);
    NoZeroDivisors(g - 1, g + 1);
    if Cong(g - 1, 0) {
      CongAdd(g - 1, 0, 1, 1);
    } else {
      CongSub(g + 1, 0, 1, 1);
    }
  }

  /** An element raised to (p - 1) / 2 is 1 or -1. */
  lemma HalfPower(z: int)
    requires PIsPrime() && !Cong(z, 0)
    ensures Cong(Pow(z, (P - 1) / 2), 1) || Cong(Pow(z, (P - 1) / 2), -1)
  {
    PowAdd(z, (P - 1) / 2, (P - 1) / 2);
    assert FermatAt(z);
    SquareOneOrMinusOne(Pow(z, (P - 1) / 2));
  }

  lemma SquaredPower(z: int, e: nat)
    ensures Pow(z * z, e) == Pow(z, 2 * e)
  {
    PowOfProduct(z, z, e);
    PowAdd(z, e, e);
  }

  /** When u/v has a root at all, the defect is 1 or -1. */
  lemma RootMakesDefectUnit(u: int, v: int, t: int)
    requires PIsPrime() && !Cong(u, 0) && !Cong(v, 0) && IsRoot(u, v, t)
    ensures Cong(Defect(u, v), 1) || Cong(Defect(u, v), -1)
  {
    var v3 := v * v * v;
    var z := v3 * v * t;
    var w := Radicand(u, v, v3);
    RadicandOfRoot(u, v, t, v3);
    if Cong(z, 0) {
      CongMul(z, 0, z, 0);
      CongTrans(w, z * z, 0);
      NonZeroProduct(v, v);
      NonZeroProduct(v * v, v);
      NonZeroProduct(v3, v3);
      NonZeroProduct(v3 * v3, v);
      NonZeroProduct(v3 * v3 * v, u);
    }
    PowCong(w, z * z, (P - 1) / 4);
    SquaredPower(z, (P - 1) / 4);
    HalfPower(z);
    var g := Pow(z, (P - 1) / 2);
    if Cong(g, 1) {
      CongTrans(Defect(u, v), g, 1);
    } else {
      CongTrans(Defect(u, v), g, -1);
    }
  }

  lemma RadicandOfRoot(u: int, v: int, t: int, v3: int)
    requires IsRoot(u, v, t)
    ensures Cong(Radicand(u, v, v3), v3 * v * t * (v3 * v * t))
  {
    CongSym(v * (t * t), u);
    CongScale(v3 * v3 * v, u, v * (t * t));
    Exchange(v3 * v, t, v3 * v, t);
    Exchange(v3, v, v3, v);
    assert v3 * v3 * v * (v * (t * t)) == v3 * v3 * (v * v) * (t * t);
  }

  /** The candidate is a root when the defect is 1; i times it is one when the defect is -1. */
  lemma DefectDecides(u: int, v: int)
    ensures Cong(Defect(u, v), 1) ==> IsRoot(u, v, Candidate(u, v))
    ensures Cong(Defect(u, v), -1) ==> IsRoot(-u, v, Candidate(u, v))
  {
    CandidateSquare(u, v);
    if Cong(Defect(u, v), 1) {
      CongScale(u, Defect(u, v), 1);
    }
    if Cong(Defect(u, v), -1) {
      CongScale(u, Defect(u, v), -1);
      assert u * -1 == -u;
    }
  }

  /** Turning a root of -u/v by a root of -1. */
  lemma TurnedRoot(u: int, v: int, x: int, i: int)
    requires IsRoot(-u, v, x) && Cong(i * i, -1)
    ensures IsRoot(u, v, x * i)
  {
    Exchange(x, i, x, i);
    CongMul(v * (x * x), -u, i * i, -1);
    assert v * (x * x) * (i * i) == v * (x * x * (i * i));
    assert -u * -1 == u;
  }

  lemma ZeroRatio(u: int, v: int)
    requires Cong(u, 0)
    ensures IsRoot(u, v, Candidate(u, v))
  {
    CandidateSquare(u, v);
    CongRefl(Defect(u, v));
    CongMul(u, 0, Defect(u, v), Defect(u, v));
    CongSym(u, 0);
    CongTrans(u * Defect(u, v), 0, u);
  }

  /** If neither the candidate nor its turn by i is a root, there is none. */
  lemma NoOtherRoot(u: int, v: int, t: int)
    requires PIsPrime() && !Cong(v, 0)
    requires !IsRoot(u, v, Candidate(u, v)) && !IsRoot(-u, v, Candidate(u, v))
    ensures !IsRoot(u, v, t)
  {
    if IsRoot(u, v, t) {
      if Cong(u, 0) {
        ZeroRatio(u, v);
      } else {
        RootMakesDefectUnit(u, v, t);
        DefectDecides(u, v);
      }
    }
  }
}
