/**
 * Strict Base64 as in section 4 of RFC 4648: the standard alphabet, `=` padding
 * to a multiple of four characters, and no line breaks. This is what
 * `Base64.strict_encode64` produces; `Decode` is the receiver's inverse.
 */
module Base64 {
  import opened Basics

  /** A six-bit group, the value one Base64 character carries. */
  type sextet = x: int | 0 <= x < 64

  /** The 64 characters of the standard alphabet (table 1 of RFC 4648). */
  predicate IsAlphabetChar(c: char)
  {
    'A' <= c <= 'Z' || 'a' <= c <= 'z' || '0' <= c <= '9' || c == '+' || c == '/'
  }

  /**
   * A strict encoding: whole quanta of alphabet characters, with at most two
   * '=' and only as a suffix.
   */
  predicate IsStrict(s: string)
  {
    && |s| % 4 == 0
    && (forall i :: 0 <= i < |s| ==> IsAlphabetChar(s[i]) || s[i] == '=')
    && (forall i :: 0 <= i < |s| && s[i] == '=' ==> |s| - 2 <= i)
    && (forall i, j :: 0 <= i < j < |s| && s[i] == '=' ==> s[j] == '=')
  }

  function SextetChar(v: sextet): (c: char)
    ensures IsAlphabetChar(c)
  {
    if v < 26 then ('A' as int + v) as char
    else if v < 52 then ('a' as int + (v - 26)) as char
    else if v < 62 then ('0' as int + (v - 52)) as char
    else if v == 62 then '+'
    else '/'
  }

  function CharSextet(c: char): (r: Option<sextet>)
    ensures r.Some? <==> IsAlphabetChar(c)
    ensures r.Some? ==> SextetChar(r.value) == c
  {
    if 'A' <= c <= 'Z' then Some(c as int - 'A' as int)
    else if 'a' <= c <= 'z' then Some(c as int - 'a' as int + 26)
    else if '0' <= c <= '9' then Some(c as int - '0' as int + 52)
    else if c == '+' then Some(62)
    else if c == '/' then Some(63)
    else None
  }

  lemma SextetRoundTrip(v: sextet)
    ensures CharSextet(SextetChar(v)) == Some(v)
  {
  }

  /** The four six-bit groups of three bytes, most significant bits first. */
  function Sextet0(b0: byte): sextet { b0 / 4 }
  function Sextet1(b0: byte, b1: byte): sextet { (b0 % 4) * 16 + b1 / 16 }
  function Sextet2(b1: byte, b2: byte): sextet { (b1 % 16) * 4 + b2 / 64 }
  function Sextet3(b2: byte): sextet { b2 % 64 }

  /** The three bytes carried by four six-bit groups. */
  function Byte0(v0: sextet, v1: sextet): byte { v0 * 4 + v1 / 16 }
  function Byte1(v1: sextet, v2: sextet): byte { (v1 % 16) * 16 + v2 / 4 }
  function Byte2(v2: sextet, v3: sextet): byte { (v2 % 4) * 64 + v3 }

  /** Regrouping the bits of three bytes into sextets and back loses nothing. */
  lemma RegroupRoundTrip(b0: byte, b1: byte, b2: byte)
    ensures Byte0(Sextet0(b0), Sextet1(b0, b1)) == b0
    ensures Byte1(Sextet1(b0, b1), Sextet2(b1, b2)) == b1
    ensures Byte2(Sextet2(b1, b2), Sextet3(b2)) == b2
  {
  }

  /** Three bytes become four characters. */
  function EncodeQuantum(b0: byte, b1: byte, b2: byte): (q: string)
  {
    [SextetChar(Sextet0(b0)), SextetChar(Sextet1(b0, b1)),
     SextetChar(Sextet2(b1, b2)), SextetChar(Sextet3(b2))]
  }

  function Encode(bs: seq<byte>): (s: string)
    ensures |s| == 4 * ((|bs| + 2) / 3)
    ensures |bs| > 0 ==> |s| >= 4
    ensures forall i :: 0 <= i < |s| ==> IsAlphabetChar(s[i]) || s[i] == '='
    decreases |bs|
  {
    if |bs| == 0 then []
    else if |bs| == 1 then
      [SextetChar(Sextet0(bs[0])), SextetChar(Sextet1(bs[0], 0)), '=', '=']
    else if |bs| == 2 then
      [SextetChar(Sextet0(bs[0])), SextetChar(Sextet1(bs[0], bs[1])),
       SextetChar(Sextet2(bs[1], 0)), '=']
    else
      EncodeQuantum(bs[0], bs[1], bs[2]) + Encode(bs[3..])
  }

  /** The output of `Encode` is strict: padding, when present, is a suffix of at most two '='. */
  lemma {:induction false} EncodeStrict(bs: seq<byte>)
    ensures IsStrict(Encode(bs))
    decreases |bs|
  {
    if |bs| >= 3 {
      EncodeStrict(bs[3..]);
      EncodeFirstQuantum(bs);
      StrictPrepend(EncodeQuantum(bs[0], bs[1], bs[2]), Encode(bs[3..]));
    }
  }

  /** A full quantum of alphabet characters in front of a strict encoding keeps it strict. */
  lemma StrictPrepend(q: string, rest: string)
    requires |q| == 4 && forall i :: 0 <= i < 4 ==> IsAlphabetChar(q[i])
    requires IsStrict(rest)
    ensures IsStrict(q + rest) && |q + rest| == |rest| + 4
  {
    var s := q + rest;
    forall i | 0 <= i < |s|
      ensures IsAlphabetChar(s[i]) || s[i] == '='
      ensures s[i] == '=' ==> |s| - 2 <= i
    {
      if i >= 4 {
        assert s[i] == rest[i - 4];
      }
    }
    forall i, j | 0 <= i < j < |s| && s[i] == '='
      ensures s[j] == '='
    {
      assert i >= 4;
      assert s[i] == rest[i - 4] && s[j] == rest[j - 4];
    }
  }

  /** Four alphabet characters back to three bytes. */
  function DecodeQuantum(c0: char, c1: char, c2: char, c3: char): (r: Option<seq<byte>>)
    ensures r.Some? ==> |r.value| == 3
  {
    match (CharSextet(c0), CharSextet(c1), CharSextet(c2), CharSextet(c3))
    case (Some(v0), Some(v1), Some(v2), Some(v3)) =>
      Some([Byte0(v0, v1), Byte1(v1, v2), Byte2(v2, v3)])
    case _ => None
  }

  /**
   * The last quantum, which may carry one or two padding characters. The bits
   * a padded quantum leaves unused must be zero (section 3.5 of RFC 4648), so
   * every byte sequence has exactly one encoding that decodes.
   */
  function DecodeFinal(c0: char, c1: char, c2: char, c3: char): (r: Option<seq<byte>>)
    ensures r.Some? ==> 1 <= |r.value| <= 3
  {
    if c2 == '=' && c3 == '=' then
      match (CharSextet(c0), CharSextet(c1))
      case (Some(v0), Some(v1)) => if v1 % 16 == 0 then Some([Byte0(v0, v1)]) else None
      case _ => None
    else if c3 == '=' then
      match (CharSextet(c0), CharSextet(c1), CharSextet(c2))
      case (Some(v0), Some(v1), Some(v2)) =>
        if v2 % 4 == 0 then Some([Byte0(v0, v1), Byte1(v1, v2)]) else None
      case _ => None
    else DecodeQuantum(c0, c1, c2, c3)
  }

  function Decode(s: string): (r: Option<seq<byte>>)
    decreases |s|
  {
    if |s| == 0 then Some([])
    else if |s| < 4 then None
    else if |s| == 4 then DecodeFinal(s[0], s[1], s[2], s[3])
    else
      match (DecodeQuantum(s[0], s[1], s[2], s[3]), Decode(s[4..]))
      case (Some(q), Some(rest)) => Some(q + rest)
      case _ => None
  }

  lemma QuantumRoundTrip(b0: byte, b1: byte, b2: byte)
    ensures var q := EncodeQuantum(b0, b1, b2);
            DecodeQuantum(q[0], q[1], q[2], q[3]) == Some([b0, b1, b2])
  {
    SextetRoundTrip(Sextet0(b0));
    SextetRoundTrip(Sextet1(b0, b1));
    SextetRoundTrip(Sextet2(b1, b2));
    SextetRoundTrip(Sextet3(b2));
    RegroupRoundTrip(b0, b1, b2);
  }

  lemma DecodeLastQuantum(s: string)
    requires |s| == 4
    ensures Decode(s) == DecodeFinal(s[0], s[1], s[2], s[3])
  {
  }

  lemma DecodeFirstQuantum(q: string, rest: string)
    requires |q| == 4 && |rest| > 0
    ensures Decode(q + rest) ==
      match (DecodeQuantum(q[0], q[1], q[2], q[3]), Decode(rest))
      case (Some(x), Some(y)) => Some(x + y)
      case _ => None
  {
    assert (q + rest)[4..] == rest;
  }

  lemma DecodePadded(c0: char, c1: char, c2: char)
    requires IsAlphabetChar(c0) && IsAlphabetChar(c1) && IsAlphabetChar(c2)
    ensures CharSextet(c1).value % 16 == 0 ==>
      DecodeFinal(c0, c1, '=', '=') == Some([Byte0(CharSextet(c0).value, CharSextet(c1).value)])
    ensures CharSextet(c2).value % 4 == 0 ==>
      DecodeFinal(c0, c1, c2, '=') ==
        Some([Byte0(CharSextet(c0).value, CharSextet(c1).value), Byte1(CharSextet(c1).value, CharSextet(c2).value)])
  {
  }

  lemma RoundTripOne(b0: byte)
    ensures Decode(Encode([b0])) == Some([b0])
  {
    var v0, v1 := Sextet0(b0), Sextet1(b0, 0);
    assert v1 % 16 == 0;
    var s := Encode([b0]);
    assert s == [SextetChar(v0), SextetChar(v1), '=', '='];
    DecodeLastQuantum(s);
    SextetRoundTrip(v0);
    SextetRoundTrip(v1);
    DecodePadded(SextetChar(v0), SextetChar(v1), 'A');
    RegroupRoundTrip(b0, 0, 0);
  }

  lemma RoundTripTwo(b0: byte, b1: byte)
    ensures Decode(Encode([b0, b1])) == Some([b0, b1])
  {
    var v0, v1, v2 := Sextet0(b0), Sextet1(b0, b1), Sextet2(b1, 0);
    assert v2 % 4 == 0;
    var s := Encode([b0, b1]);
    assert s == [SextetChar(v0), SextetChar(v1), SextetChar(v2), '='];
    DecodeLastQuantum(s);
    SextetRoundTrip(v0);
    SextetRoundTrip(v1);
    SextetRoundTrip(v2);
    DecodePadded(SextetChar(v0), SextetChar(v1), SextetChar(v2));
    RegroupRoundTrip(b0, b1, 0);
  }

  lemma EncodeFirstQuantum(bs: seq<byte>)
    requires |bs| >= 3
    ensures Encode(bs) == EncodeQuantum(bs[0], bs[1], bs[2]) + Encode(bs[3..])
  {
  }

  lemma RoundTripThree(b0: byte, b1: byte, b2: byte)
    ensures Decode(Encode([b0, b1, b2])) == Some([b0, b1, b2])
  {
    var q := EncodeQuantum(b0, b1, b2);
    EncodeFirstQuantum([b0, b1, b2]);
    assert [b0, b1, b2][3..] == [];
    assert Encode([b0, b1, b2]) == q;
    DecodeLastQuantum(q);
    QuantumRoundTrip(b0, b1, b2);
  }

  /** Decoding a strict encoding gives back exactly the encoded bytes. */
  lemma {:induction false} RoundTrip(bs: seq<byte>)
    ensures Decode(Encode(bs)) == Some(bs)
    decreases |bs|
  {
    if |bs| == 1 {
      assert bs == [bs[0]];
      RoundTripOne(bs[0]);
    } else if |bs| == 2 {
      assert bs == [bs[0], bs[1]];
      RoundTripTwo(bs[0], bs[1]);
    } else if |bs| == 3 {
      assert bs == [bs[0], bs[1], bs[2]];
      RoundTripThree(bs[0], bs[1], bs[2]);
    } else if |bs| > 3 {
      RoundTrip(bs[3..]);
      RoundTripStep(bs);
    }
  }

  lemma RoundTripStep(bs: seq<byte>)
    requires |bs| > 3
    requires Decode(Encode(bs[3..])) == Some(bs[3..])
    ensures Decode(Encode(bs)) == Some(bs)
  {
    var q, rest := EncodeQuantum(bs[0], bs[1], bs[2]), Encode(bs[3..]);
    EncodeFirstQuantum(bs);
    DecodeFirstQuantum(q, rest);
    QuantumRoundTrip(bs[0], bs[1], bs[2]);
    SplitFront(bs);
  }

  lemma SplitFront(bs: seq<byte>)
    requires |bs| >= 3
    ensures [bs[0], bs[1], bs[2]] + bs[3..] == bs
  {
    assert bs == bs[..3] + bs[3..];
  }

  /** Regrouping four sextets into bytes and back loses nothing either. */
  lemma UngroupRoundTrip(v0: sextet, v1: sextet, v2: sextet, v3: sextet)
    ensures Sextet0(Byte0(v0, v1)) == v0
    ensures Sextet1(Byte0(v0, v1), Byte1(v1, v2)) == v1
    ensures Sextet2(Byte1(v1, v2), Byte2(v2, v3)) == v2
    ensures Sextet3(Byte2(v2, v3)) == v3
    ensures v1 % 16 == 0 ==> Sextet1(Byte0(v0, v1), 0) == v1
    ensures v2 % 4 == 0 ==> Sextet2(Byte1(v1, v2), 0) == v2
  {
  }

  lemma QuantumCanonical(c0: char, c1: char, c2: char, c3: char)
    requires DecodeQuantum(c0, c1, c2, c3).Some?
    ensures var b := DecodeQuantum(c0, c1, c2, c3).value;
            EncodeQuantum(b[0], b[1], b[2]) == [c0, c1, c2, c3]
  {
    var v0, v1, v2, v3 := CharSextet(c0).value, CharSextet(c1).value, CharSextet(c2).value, CharSextet(c3).value;
    UngroupRoundTrip(v0, v1, v2, v3);
  }

  lemma FinalCanonical(s: string)
    requires |s| == 4 && DecodeFinal(s[0], s[1], s[2], s[3]).Some?
    ensures Encode(DecodeFinal(s[0], s[1], s[2], s[3]).value) == s
  {
    var b := DecodeFinal(s[0], s[1], s[2], s[3]).value;
    if s[2] == '=' && s[3] == '=' {
      var v0, v1 := CharSextet(s[0]).value, CharSextet(s[1]).value;
      UngroupRoundTrip(v0, v1, 0, 0);
      assert Encode(b) == [SextetChar(v0), SextetChar(v1), '=', '='];
    } else if s[3] == '=' {
      var v0, v1, v2 := CharSextet(s[0]).value, CharSextet(s[1]).value, CharSextet(s[2]).value;
      UngroupRoundTrip(v0, v1, v2, 0);
      assert Encode(b) == [SextetChar(v0), SextetChar(v1), SextetChar(v2), '='];
    } else {
      QuantumCanonical(s[0], s[1], s[2], s[3]);
      EncodeFirstQuantum(b);
      assert b[3..] == [];
    }
  }

  lemma EncodeConcat(q: seq<byte>, rest: seq<byte>)
    requires |q| == 3
    ensures Encode(q + rest) == EncodeQuantum(q[0], q[1], q[2]) + Encode(rest)
  {
    var b := q + rest;
    EncodeFirstQuantum(b);
    assert b[3..] == rest;
  }

  lemma SplitFour(s: string)
    requires |s| >= 4
    ensures s == [s[0], s[1], s[2], s[3]] + s[4..]
  {
    assert s == s[..4] + s[4..];
  }

  lemma CanonicalStep(s: string)
    requires |s| > 4
    requires DecodeQuantum(s[0], s[1], s[2], s[3]).Some? && Decode(s[4..]).Some?
    requires Encode(Decode(s[4..]).value) == s[4..]
    ensures Decode(s).Some? && Encode(Decode(s).value) == s
  {
    var q, rest := DecodeQuantum(s[0], s[1], s[2], s[3]).value, Decode(s[4..]).value;
    assert Decode(s) == Some(q + rest);
    QuantumCanonical(s[0], s[1], s[2], s[3]);
    EncodeConcat(q, rest);
    SplitFour(s);
  }

  /** Whatever decodes is the encoding of what it decodes to: each byte sequence has one encoding. */
  lemma {:induction false} DecodeCanonical(s: string)
    requires Decode(s).Some?
    ensures Encode(Decode(s).value) == s
    decreases |s|
  {
    if |s| == 4 {
      FinalCanonical(s);
    } else if |s| > 4 {
      DecodeCanonical(s[4..]);
      CanonicalStep(s);
    }
  }

  /** Two strings that decode to the same bytes are the same string. */
  lemma DecodeInjective(s: string, t: string)
    requires Decode(s).Some? && Decode(s) == Decode(t)
    ensures s == t
  {
    DecodeCanonical(s);
    DecodeCanonical(t);
  }
}
