/** What the point decoder and the Elligator map compute, said of their results: a point is named by
    its octets, and the mapped point satisfies the equations of the map. */
module ElligatorMap {
  import opened Wrappers
  import opened Bytes
  import opened Residues
  import opened PrimeField
  import opened NonSquare
  import opened FieldBytes
  import opened Edwards
  import opened PointEncoding
  import opened PointStrings
  import opened Elligator
  import opened ElligatorTotal

  // ---------- Names of points ----------

  /** s is y below p in little-endian order, under the parity of x in the top bit; where x is zero the
      top bit is anything. */
  ghost predicate SpellsPoint(d: int, s: seq<byte>, a: Point)
    requires |s| == 32
  {
    OnCurve(d, a) && LeVal(s) % TWO_255 == a.y && (a.x == 0 || a.x % 2 == s[31] / 128)
  }

  ghost predicate NamesAt(depth: nat, d: int, s: seq<byte>, a: Point)
    requires |s| == 32
    decreases depth, d, s, a
  {
    if depth == 0 then SpellsPoint(d, s, a) else NamesAt(depth - 1, d, s, a)
  }

  /** s is the name of a, folded up. */
  ghost predicate Names(d: int, s: seq<byte>, a: Point)
    requires |s| == 32
  {
    NamesAt(4, d, s, a)
  }

  lemma NamesMeans(d: int, s: seq<byte>, a: Point)
    requires |s| == 32
    ensures Names(d, s, a) <==> SpellsPoint(d, s, a)
  {
    hide SpellsPoint;
    assert NamesAt(2, d, s, a) == NamesAt(0, d, s, a);
    assert NamesAt(4, d, s, a) == NamesAt(2, d, s, a);
  }

  /** _vrf_ietfdraft03_string_to_point finds the point a string names, and fails if there is none. */
  lemma NamesIs(d: int, s: seq<byte>, a: Point)
    requires EdwardsCurve(d) && |s| == 32
    ensures StringPoint(d, s) == Some(a) <==> Names(d, s, a)
  {
    NamesMeans(d, s, a);
    var y := LeVal(s) % TWO_255;
    hide LeVal;
    CongRefl(y);
    if y < P {
      CanonUnique(y, y);
    }
    OnCurveMeans(d, a);
    hide Decoded;
    if Names(d, s, a) {
      DecodedIs(d, s, a);
    }
  }

  // ---------- The map ----------

  ghost predicate IsSquare(z: int) {
    exists t :: Cong(t * t, z)
  }

  /** x = -A / (1 + 2 r^2). */
  ghost predicate StartsAt(r: int, x: int) {
    Cong((2 * (r * r) + 1) * x, -486662)
  }

  /** w is x where x^3 + A x^2 + x is a square, and -A - x where it is not. */
  ghost predicate Chooses(x: int, w: int) {
    Cong(w, if IsSquare(x * x * x + 486662 * (x * x) + x) then x else -486662 - x)
  }

  /** y = (w - 1) / (w + 1), and zero at w = -1. */
  ghost predicate Transfers(w: int, y: int) {
    if Cong(w + 1, 0) then Cong(y, 0) else Cong(y * (w + 1), w - 1)
  }

  /** a is the point that ge25519_from_uniform reaches from r before the cofactor: the low 255 bits
      give y, the top bit the parity of x. */
  ghost predicate MapsTo(d: int, r: seq<byte>, a: Point)
    requires |r| == 32
  {
    && OnCurve(d, a) && (a.x == 0 || a.x % 2 == r[31] / 128)
    && exists x, w :: StartsAt(LeVal(r) % TWO_255, x) && Chooses(x, w) && Transfers(w, a.y)
  }

  lemma FirstIs(r: int, x: int)
    requires PIsPrime()
    ensures StartsAt(r, FirstX(r))
    ensures StartsAt(r, x) ==> Cong(x, FirstX(r))
  {
    var n := 2 * (r * r) + 1;
    DenominatorIsUnit(r);
    InverseWorks(n);
    CongScale(-486662, n * Inv(n), 1);
    assert -486662 * (n * Inv(n)) == n * FirstX(r);
    if StartsAt(r, x) {
      CongSym(n * FirstX(r), -486662);
      CongTrans(n * x, -486662, n * FirstX(r));
      Cancel(x, FirstX(r), n);
    }
  }

  lemma TestIs(x: int)
    ensures CurveTest(x) == x * x * x + 486662 * (x * x) + x
  {
  }

  /** The character is -1 exactly where there is no root. */
  lemma CharacterIs(x: int)
    requires PIsPrime()
    ensures Cong(Character(x), -1) <==> !IsSquare(CurveTest(x))
  {
    var g := CurveTest(x);
    hide CurveTest;
    if Cong(g, 0) {
      ZeroCharacter(x);
      NotBoth(Character(x), 0);
      ZeroRoot(g);
    } else {
      UnitCharacter(x);
      if Cong(Character(x), 1) {
        var t := EulerRoot(g);
      }
      if t :| Cong(t * t, g) {
        SquareHasCharacterOne(g, t);
        NotMinusOne(Character(x));
      }
    }
  }

  lemma SquareHasCharacterOne(g: int, t: int)
    requires PIsPrime() && !Cong(g, 0) && Cong(t * t, g)
    ensures Cong(Pow(g, HALF), 1)
  {
    if Cong(t, 0) {
      CongMul(t, 0, t, 0);
      CongSym(t * t, g);
      CongTrans(g, t * t, 0);
    }
    CharacterOfSquare(t);
    CongSym(t * t, g);
    PowCong(g, t * t, HALF);
    hide Pow;
    CongTrans(Pow(g, HALF), Pow(t * t, HALF), 1);
  }

  lemma NotMinusOne(e: int)
    requires Cong(e, 1)
    ensures !Cong(e, -1)
  {
    if Cong(e, -1) {
      CongSub(e, 1, e, -1);
      CongBy(1 - -1, 2, 0);
      SmallNonZero(2);
      CongSym(0, 2);
    }
  }

  lemma TestRespects(x: int, z: int)
    requires Cong(x, z)
    ensures Cong(CurveTest(x), CurveTest(z))
  {
    CongMul(x, z, x, z);
    CongScale(486662, x * x, z * z);
    CongMul(x, z, x * x, z * z);
    CongAdd(x * (x * x), z * (z * z), x, z);
    CongAdd(486662 * (x * x), 486662 * (z * z), x * (x * x) + x, z * (z * z) + z);
  }

  lemma SquaresRespect(g: int, h: int)
    requires Cong(g, h)
    ensures IsSquare(g) <==> IsSquare(h)
  {
    if t :| Cong(t * t, g) {
      CongTrans(t * t, g, h);
    }
    if t :| Cong(t * t, h) {
      CongSym(g, h);
      CongTrans(t * t, h, g);
    }
  }

  /** The choice between the two x, for any representative of the first. */
  lemma ChoiceIs(r: int, x: int, w: int)
    requires PIsPrime() && Cong(x, FirstX(r))
    ensures Chooses(x, w) <==> Cong(w, MontgomeryX(r))
  {
    var z := FirstX(r);
    TestIs(x);
    TestRespects(x, z);
    SquaresRespect(CurveTest(x), CurveTest(z));
    CharacterIs(z);
    CongRefl(-486662);
    CongSub(-486662, -486662, x, z);
    hide FirstX, CurveTest, IsSquare, Character;
    var p, q := if IsSquare(CurveTest(x)) then x else -486662 - x, MontgomeryX(r);
    assert Cong(p, q);
    CongSym(p, q);
    if Cong(w, p) {
      CongTrans(w, p, q);
    }
    if Cong(w, q) {
      CongTrans(w, q, p);
    }
  }

  lemma InverseOfZero(z: int)
    requires Cong(z, 0)
    ensures Cong(Inv(z), 0)
  {
    PowOfZero(z, P - 2);
  }

  /** y is (w - 1) times the inverse of w + 1, whatever w is. */
  lemma TransferIs(w: int, y: int)
    requires PIsPrime()
    ensures Transfers(w, y) <==> Cong(y, (w - 1) * Inv(w + 1))
  {
    var n, j := w + 1, Inv(w + 1);
    var z := (w - 1) * j;
    if Cong(n, 0) {
      InverseOfZero(n);
      hide Inv;
      CongScale(w - 1, j, 0);
      CongSym(z, 0);
      if Cong(y, 0) {
        CongTrans(y, 0, z);
      }
      if Cong(y, z) {
        CongTrans(y, z, 0);
      }
    } else {
      InverseWorks(n);
      hide Inv;
      CongScale(w - 1, n * j, 1);
      assert (w - 1) * (n * j) == z * n;
      CongSym(z * n, w - 1);
      if Cong(y * n, w - 1) {
        CongTrans(y * n, w - 1, z * n);
        Cancel(y, z, n);
      }
      if Cong(y, z) {
        CongRefl(n);
        CongMul(y, z, n, n);
        CongTrans(y * n, z * n, w - 1);
      }
    }
  }

  lemma TransferRespects(w: int, v: int, y: int)
    requires PIsPrime() && Cong(w, v) && Transfers(w, y)
    ensures Transfers(v, y)
  {
    CongRefl(1);
    CongAdd(w, v, 1, 1);
    CongSub(w, v, 1, 1);
    CongRefl(y);
    CongMul(y, y, w + 1, v + 1);
    CongSym(w + 1, v + 1);
    if Cong(w + 1, 0) {
      CongTrans(v + 1, w + 1, 0);
    } else {
      NonZeroCong(w + 1, v + 1);
      CongSym(y * (w + 1), y * (v + 1));
      CongTrans(y * (v + 1), y * (w + 1), w - 1);
      CongTrans(y * (v + 1), w - 1, v - 1);
    }
  }

  /** The y of the map, from its equations. */
  lemma MappedYIs(r: int, y: int)
    requires PIsPrime()
    ensures (exists x, w :: StartsAt(r, x) && Chooses(x, w) && Transfers(w, y)) <==> Cong(y, MappedY(r))
  {
    var m := MontgomeryX(r);
    TransferIs(m, y);
    FirstIs(r, FirstX(r));
    CongRefl(FirstX(r));
    CongRefl(m);
    ChoiceIs(r, FirstX(r), m);
    hide MontgomeryX, FirstX, Transfers, Chooses, StartsAt;
    if x, w :| StartsAt(r, x) && Chooses(x, w) && Transfers(w, y) {
      FirstIs(r, x);
      ChoiceIs(r, x, w);
      TransferRespects(w, m, y);
    }
  }

  lemma StringParts(y: int, b: int)
    requires 0 <= y < P && 0 <= b <= 1
    ensures SignBit(ToOctets(y + TWO_255 * b, 32)) == b
  {
    var s := ToOctets(y + TWO_255 * b, 32);
    Weight32();
    hide LeVal, Pow256, ToOctets;
    ToOctetsValue(y + TWO_255 * b, 32);
    EncodingParts(s, y, b);
  }

  lemma CanonCong(y: int, z: int)
    requires 0 <= y < P
    ensures y == Canon(z) <==> Cong(y, z)
  {
    CanonIs(z);
    if Cong(y, z) {
      CongSym(y, z);
      CanonUnique(z, y);
    }
  }

  /** The map of the code is the map of the equations. */
  lemma MapIs(d: int, r: seq<byte>, a: Point)
    requires EdwardsCurve(d) && |r| == 32
    ensures Mapped(d, r) == Some(a) <==> MapsTo(d, r, a)
  {
    CurvePrime(d);
    var z := LeVal(r) % TWO_255;
    MappedStringNames(r);
    StringParts(Canon(MappedY(z)), SignBit(r));
    MappedYIs(z, a.y);
    OnCurveMeans(d, a);
    hide LeVal, ToOctets, MappedY, NamedY, StartsAt, Chooses, Transfers;
    if OnCurve(d, a) {
      CanonCong(a.y, MappedY(z));
    }
    if MapsTo(d, r, a) {
      DecodedIs(d, MappedString(r), a);
    }
  }
}
