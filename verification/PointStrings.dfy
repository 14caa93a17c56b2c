/** Encoding and decoding of points as functions, so that protocol steps can be stated over
    octet strings: _vrf_ietfdraft03_point_to_string and _vrf_ietfdraft03_string_to_point. */
module PointStrings {
  import opened Wrappers
  import opened Bytes
  import opened Residues
  import opened FieldBytes
  import opened Edwards
  import opened Points
  import opened PointEncoding

  /** The k little-endian octets of n. */
  function ToOctets(n: nat, k: nat): (s: seq<byte>)
    ensures |s| == k
    decreases k, n
  {
    if k == 0 then [] else [n % 256] + ToOctets(n / 256, k - 1)
  }

  lemma {:induction false} ToOctetsValue(n: nat, k: nat)
    requires n < Pow256(k)
    ensures LeVal(ToOctets(n, k)) == n
  {
    if k > 0 {
      ToOctetsValue(n / 256, k - 1);
      var s := ToOctets(n, k);
      assert s[1..] == ToOctets(n / 256, k - 1);
    }
  }

  lemma Weight32()
    ensures Pow256(32) == 2 * TWO_255
  {
    ThirtyOne();
    assert Pow256(32) == 256 * Pow256(31);
  }

  function StringAt(depth: nat, a: Point): (s: seq<byte>)
    ensures |s| == 32
    decreases depth, a
  {
    if depth == 0 then ToOctets(Canon(a.y) + TWO_255 * (a.x % 2), 32) else StringAt(depth - 1, a)
  }

  /** The 32 octets that encode a, folded up. */
  function PointString(a: Point): (s: seq<byte>)
    ensures |s| == 32
  {
    StringAt(4, a)
  }

  lemma PointStringMeans(a: Point)
    ensures PointString(a) == ToOctets(Canon(a.y) + TWO_255 * (a.x % 2), 32)
  {
    hide ToOctets;
    assert StringAt(2, a) == StringAt(0, a);
    assert StringAt(4, a) == StringAt(2, a);
  }

  lemma PointStringValue(a: Point)
    requires 0 <= a.y < P
    ensures LeVal(PointString(a)) == Encoding(a)
  {
    PointStringMeans(a);
    CongRefl(a.y);
    CanonUnique(a.y, a.y);
    Weight32();
    hide ToOctets, Pow256, LeVal;
    ToOctetsValue(Encoding(a), 32);
  }

  lemma PointStringUnique(a: Point, s: seq<byte>)
    requires 0 <= a.y < P && |s| == 32 && LeVal(s) == Encoding(a)
    ensures s == PointString(a)
  {
    PointStringValue(a);
    LeValInjective(s, PointString(a));
  }

  ghost predicate HasDecoding(d: int, s: seq<byte>)
    requires |s| == 32
  {
    exists a :: IsDecoding(d, s, a)
  }

  /** What ge25519_frombytes makes of s. */
  ghost function Decoded(d: int, s: seq<byte>): (r: Option<Point>)
    requires |s| == 32
    ensures r.Some? ==> IsDecoding(d, s, r.value)
  {
    if HasDecoding(d, s) then
      var a :| IsDecoding(d, s, a);
      Some(a)
    else
      None
  }

  lemma DecodedIs(d: int, s: seq<byte>, a: Point)
    requires EdwardsCurve(d) && |s| == 32 && IsDecoding(d, s, a)
    ensures Decoded(d, s) == Some(a)
  {
    assert HasDecoding(d, s);
    DecodingUnique(d, s, a, Decoded(d, s).value);
  }

  /** What _vrf_ietfdraft03_string_to_point makes of s: also rejects y >= p. */
  ghost function StringPoint(d: int, s: seq<byte>): Option<Point>
    requires |s| == 32
  {
    if IsCanonicalString(s) then Decoded(d, s) else None
  }

  /** Encoding, then decoding. */
  lemma StringRoundTrip(d: int, a: Point)
    requires EdwardsCurve(d) && OnCurve(d, a) && 0 <= a.y < P
    ensures StringPoint(d, PointString(a)) == Some(a) && Decoded(d, PointString(a)) == Some(a)
  {
    hide PointString;
    PointStringValue(a);
    EncodingDecodes(d, PointString(a), a);
    DecodedIs(d, PointString(a), a);
  }

  /** Decoding, then encoding: the string comes back unless x is zero and its sign is set. */
  lemma PointRoundTrip(d: int, s: seq<byte>, a: Point)
    requires |s| == 32 && StringPoint(d, s) == Some(a)
    ensures 0 <= a.y < P
    ensures PointString(a) == s <==> !(a.x == 0 && SignBit(s) == 1)
  {
    OnCurveMeans(d, a);
    PointStringValue(a);
    DecodingEncodes(d, s, a);
    hide PointString, IsDecoding;
    if LeVal(s) == Encoding(a) {
      PointStringUnique(a, s);
    }
  }

  lemma CoordinatesInRange(d: int, a: Point)
    requires OnCurve(d, a)
    ensures 0 <= a.x < P && 0 <= a.y < P
  {
    OnCurveMeans(d, a);
  }

  method PointToString(h: P3, ghost d: int, ghost a: Point) returns (s: seq<byte>)
    requires EdwardsCurve(d) && OnCurve(d, a) && 0 <= a.y < P && h.Is(a)
    ensures s == PointString(a)
  {
    s := GeP3ToBytes(h, d, a);
    PointStringUnique(a, s);
  }

  method FromBytes(h: P3, s: seq<byte>, ghost d: int) returns (ok: bool)
    requires EdwardsCurve(d) && |s| == 32
    modifies h
    ensures ok <==> Decoded(d, s).Some?
    ensures ok ==> h.Is(Decoded(d, s).value)
  {
    ghost var a;
    ok, a := GeFromBytes(h, s, d);
    if ok {
      DecodedIs(d, s, a);
    }
  }

  method StringToPoint(h: P3, s: seq<byte>, ghost d: int) returns (ok: bool)
    requires EdwardsCurve(d) && |s| == 32
    modifies h
    ensures ok <==> StringPoint(d, s).Some?
    ensures ok ==> h.Is(StringPoint(d, s).value)
  {
    var canonical := GeIsCanonical(s);
    if canonical == 0 {
      return false;
    }
    ok := FromBytes(h, s, d);
  }
}
