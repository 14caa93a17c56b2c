/** hex_to_byte_array. */
module Hex {
  import opened Wrappers
  import opened Bytes

  /** The value of a hexadecimal digit of either case. */
  function Nibble(c: char): (r: Option<nat>)
    ensures r.Some? ==> r.value < 16
  {
    if '0' <= c <= '9' then Some(c as int - '0' as int)
    else if 'a' <= c <= 'f' then Some(c as int - 'a' as int + 10)
    else if 'A' <= c <= 'F' then Some(c as int - 'A' as int + 10)
    else None
  }

  function Pairs(s: string): (r: Option<seq<byte>>)
    requires |s| % 2 == 0
    ensures r.Some? ==> |r.value| == |s| / 2
  {
    if s == [] then Some([]) else
      match (Nibble(s[0]), Nibble(s[1]), Pairs(s[2..]))
      case (Some(high), Some(low), Some(rest)) => Some([16 * high + low] + rest)
      case _ => None
  }

  function Padding(n: nat): (z: seq<byte>)
    ensures |z| == n
  {
    seq(n, _ => 0)
  }

  /** Decoding into a zeroed buffer of the given size: an odd length, too many digits or a character
      that is no hexadecimal digit is an error, too few digits leave the rest of the buffer zero. */
  function HexBytes(s: string, size: nat): (r: Option<seq<byte>>)
    ensures r.Some? ==> |r.value| == size
  {
    if |s| % 2 != 0 || |s| / 2 > size then None else
      match Pairs(s)
      case None => None
      case Some(octets) => Some(octets + Padding(size - |octets|))
  }
}
