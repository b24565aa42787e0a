/** Lower-case hexadecimal rendering of a digest, as `OpenSSL::HMAC.hexdigest` returns it. */
module Hex {
  import opened Basics

  predicate IsLowerHexChar(c: char)
  {
    '0' <= c <= '9' || 'a' <= c <= 'f'
  }

  function NibbleChar(v: int): (c: char)
    requires 0 <= v < 16
    ensures IsLowerHexChar(c)
  {
    if v < 10 then ('0' as int + v) as char else ('a' as int + (v - 10)) as char
  }

  function CharNibble(c: char): (r: Option<int>)
    ensures r.Some? <==> IsLowerHexChar(c)
    ensures r.Some? ==> 0 <= r.value < 16 && NibbleChar(r.value) == c
  {
    if '0' <= c <= '9' then Some(c as int - '0' as int)
    else if 'a' <= c <= 'f' then Some(c as int - 'a' as int + 10)
    else None
  }

  /** Two lower-case hex digits per byte, high nibble first. */
  function HexDigest(bs: seq<byte>): (s: string)
    ensures |s| == 2 * |bs|
    ensures forall i :: 0 <= i < |s| ==> IsLowerHexChar(s[i])
    decreases |bs|
  {
    if |bs| == 0 then [] else [NibbleChar(bs[0] / 16), NibbleChar(bs[0] % 16)] + HexDigest(bs[1..])
  }

  /** Reads a hex string back into bytes; fails on odd length or a non-hex character. */
  function ParseHex(s: string): (r: Option<seq<byte>>)
    decreases |s|
  {
    if |s| == 0 then Some([])
    else if |s| == 1 then None
    else
      match (CharNibble(s[0]), CharNibble(s[1]), ParseHex(s[2..]))
      case (Some(hi), Some(lo), Some(rest)) => Some([hi * 16 + lo] + rest)
      case _ => None
  }

  lemma NibbleRoundTrip(v: int)
    requires 0 <= v < 16
    ensures CharNibble(NibbleChar(v)) == Some(v)
  {
  }

  /** Reading back the digest text gives the digest bytes. */
  lemma {:induction false} HexRoundTrip(bs: seq<byte>)
    ensures ParseHex(HexDigest(bs)) == Some(bs)
    decreases |bs|
  {
    if |bs| > 0 {
      var s := HexDigest(bs);
      NibbleRoundTrip(bs[0] / 16);
      NibbleRoundTrip(bs[0] % 16);
      assert s[2..] == HexDigest(bs[1..]);
      HexRoundTrip(bs[1..]);
      assert bs == [bs[0] / 16 * 16 + bs[0] % 16] + bs[1..];
    }
  }
}
