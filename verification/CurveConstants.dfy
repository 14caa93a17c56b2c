/** The limb constants of fe_25_5/constants.h and what they stand for. */
module CurveConstants {
  import opened Residues
  import opened NonSquare
  import opened PrimeField
  import opened FieldLimbs
  import opened Edwards

  const FE_D := Fe(-10913610, 13857413, -15372611, 6949391, 114729,
                   -8787816, -6275908, -3247719, -18696448, -12055116)
  const FE_D2 := Fe(-21827239, -5839606, -30745221, 13898782, 229458,
                    15978800, -12551817, -6495438, 29715968, 9444199)
  const FE_SQRTM1 := Fe(-32595792, -7943725, 9377950, 3500415, 12389472,
                        -272473, -25146209, -2005654, 326686, 11406482)

  lemma SmallIsNonZero(n: int)
    requires 0 < n < P
    ensures !Cong(n, 0)
  {
    if Cong(n, 0) {
      CongSmall(n, 0);
    }
  }

  /** FE_D is the curve parameter -121665/121666. */
  lemma StandsForD(d: int)
    requires EdwardsCurve(d)
    ensures Stands(FE_D, d)
  {
    CurveMeans(d);
    var v := Val(FE_D);
    CongBy(121666 * v, -121665, -43711);
    CongSym(121666 * d, -121665);
    CongTrans(121666 * v, -121665, 121666 * d);
    SmallIsNonZero(121666);
    Cancel(v, d, 121666);
  }

  lemma StandsForTwiceD(d: int)
    requires EdwardsCurve(d)
    ensures Stands(FE_D2, 2 * d)
  {
    StandsForD(d);
    CongScale(2, Val(FE_D), d);
    CongBy(Val(FE_D2), 2 * Val(FE_D), 1);
    CongTrans(Val(FE_D2), 2 * Val(FE_D), 2 * d);
  }

  lemma SqrtM1Value()
    ensures Val(FE_SQRTM1) == I
  {
  }

  /** FE_SQRTM1 is a square root of -1. */
  lemma StandsForRoot()
    ensures Stands(FE_SQRTM1, I) && Cong(I * I, -1)
  {
    SqrtM1Value();
    CongRefl(I);
    RootOfMinusOne();
  }
}
