/**
 * `Client#generate_signature` and `Client#generate_auth_header`, with the
 * receiver-side parsing a collector applies to the header they build.
 */
module Auth {
  import opened Basics
  import opened Raven
  import opened Decimal
  import opened Hex

  const PROTOCOL_VERSION: string := "2.0"

  /** The scheme word that opens the header value. */
  const PREFIX: string := "Sentry "

  /** The product name and slash that open `USER_AGENT`. */
  const PRODUCT: string := "raven-ruby/"

  /** `USER_AGENT`: the product name, a slash and the library version. */
  function UserAgent(version: string): (r: string)
    ensures |r| == |PRODUCT| + |version|
    ensures r[..|PRODUCT|] == PRODUCT && r[|PRODUCT|..] == version
    ensures ',' !in version ==> ',' !in r
  {
    PRODUCT + version
  }

  /** `Time.now.to_i.to_s` for a clock reading of `now` whole seconds. */
  function Timestamp(now: int): (t: string)
    ensures IsCanonicalInteger(t) && ParseInteger(t) == Some(now)
  {
    IntegerRoundTrip(now);
    IntegerToS(now)
  }

  /** The message that is signed: the timestamp, one space, the data. */
  function SignedInput(timestamp: string, data: string): (m: string)
    ensures |m| == |timestamp| + 1 + |data|
    ensures m[..|timestamp|] == timestamp && m[|timestamp|] == ' ' && m[|timestamp| + 1..] == data
  {
    timestamp + " " + data
  }

  /** Lower-case hex HMAC-SHA1 of the signed message under the secret key. */
  function GenerateSignature(rt: Runtime, secret: string, timestamp: string, data: string): (sig: string)
    ensures ParseHex(sig) == Some(rt.hmacSha1(secret, SignedInput(timestamp, data)))
    ensures forall i :: 0 <= i < |sig| ==> IsLowerHexChar(sig[i])
  {
    var digest := rt.hmacSha1(secret, SignedInput(timestamp, data));
    HexRoundTrip(digest);
    HexDigest(digest)
  }

  /** The five header fields, in the order the header lists them. */
  function AuthFields(rt: Runtime, cfg: Config, now: int, data: string): (fields: seq<(string, string)>)
    ensures |fields| == 5
    ensures fields[0] == ("sentry_version", "2.0")
    ensures fields[1] == ("sentry_client", UserAgent(rt.version))
    ensures fields[2] == ("sentry_timestamp", Timestamp(now))
    ensures fields[3] == ("sentry_key", cfg.publicKey)
    ensures fields[4].0 == "sentry_signature"
    ensures ParseHex(fields[4].1) == Some(rt.hmacSha1(cfg.secretKey, SignedInput(fields[2].1, data)))
  {
    [ ("sentry_version", PROTOCOL_VERSION),
      ("sentry_client", UserAgent(rt.version)),
      ("sentry_timestamp", Timestamp(now)),
      ("sentry_key", cfg.publicKey),
      ("sentry_signature", GenerateSignature(rt, cfg.secretKey, Timestamp(now), data)) ]
  }

  function RenderField(field: (string, string)): string
  {
    field.0 + "=" + field.1
  }

  /** `key=value` for each field, joined by ", ". */
  function Render(fields: seq<(string, string)>): string
    decreases |fields|
  {
    if |fields| == 0 then ""
    else if |fields| == 1 then RenderField(fields[0])
    else RenderField(fields[0]) + ", " + Render(fields[1..])
  }

  /** The auth header value for `data` sent at clock reading `now`. */
  function GenerateAuthHeader(rt: Runtime, cfg: Config, now: int, data: string): (h: string)
    ensures |PREFIX| <= |h| && h[..|PREFIX|] == PREFIX
    ensures ',' !in cfg.publicKey && ',' !in rt.version ==>
      ParseHeader(h) == Some(AuthFields(rt, cfg, now, data))
  {
    var h := PREFIX + Render(AuthFields(rt, cfg, now, data));
    if ',' !in cfg.publicKey && ',' !in rt.version then
      HeaderRoundTrip(rt, cfg, now, data);
      h
    else h
  }

  // The receiver's side.

  /** Splits `key=value` at its first `=`. */
  function SplitField(s: string): (r: Option<(string, string)>)
    ensures r.Some? ==> '=' !in r.value.0 && RenderField(r.value) == s
  {
    var i := IndexOf(s, '=');
    if i == |s| then None
    else
      assert s == s[..i] + "=" + s[i + 1..];
      Some((s[..i], s[i + 1..]))
  }

  /** Splits a ", "-separated list of fields. */
  function ParseFields(s: string): (r: Option<seq<(string, string)>>)
    ensures r.Some? ==> |r.value| >= 1
    decreases |s|
  {
    var i := IndexOf(s, ',');
    match SplitField(s[..i])
    case None => None
    case Some(field) =>
      if i == |s| then Some([field])
      else if i + 1 < |s| && s[i + 1] == ' ' then
        match ParseFields(s[i + 2..])
        case None => None
        case Some(rest) => Some([field] + rest)
      else None
  }

  function ParseHeader(h: string): (r: Option<seq<(string, string)>>)
  {
    if |PREFIX| <= |h| && h[..|PREFIX|] == PREFIX then ParseFields(h[|PREFIX|..]) else None
  }

  /** The value of the first field named `key`. */
  function Lookup(fields: seq<(string, string)>, key: string): (r: Option<string>)
    ensures r.Some? ==> exists i :: 0 <= i < |fields| && fields[i] == (key, r.value)
    decreases |fields|
  {
    if |fields| == 0 then None
    else if fields[0].0 == key then Some(fields[0].1)
    else Lookup(fields[1..], key)
  }

  /** Splits a signed message at its first space. */
  function SplitSignedInput(m: string): (r: Option<(string, string)>)
    ensures r.Some? ==> ' ' !in r.value.0 && SignedInput(r.value.0, r.value.1) == m
  {
    var i := IndexOf(m, ' ');
    if i == |m| then None
    else
      assert m == m[..i] + " " + m[i + 1..];
      Some((m[..i], m[i + 1..]))
  }

  /**
   * What a collector checks: protocol version 2.0, the expected public key,
   * an integer timestamp, and a signature that is the hex HMAC-SHA1 of
   * "<timestamp> <body>" under the shared secret.
   */
  predicate Accepts(rt: Runtime, publicKey: string, secret: string, header: string, body: string)
  {
    match ParseHeader(header)
    case None => false
    case Some(fields) =>
      && Lookup(fields, "sentry_version") == Some(PROTOCOL_VERSION)
      && Lookup(fields, "sentry_key") == Some(publicKey)
      && match (Lookup(fields, "sentry_timestamp"), Lookup(fields, "sentry_signature"))
         case (Some(ts), Some(sig)) =>
           && ParseInteger(ts).Some?
           && ParseHex(sig) == Some(rt.hmacSha1(secret, SignedInput(ts, body)))
         case _ => false
  }

  /** Fields a receiver can split apart again: no `=` in a key, no comma anywhere. */
  predicate Separable(fields: seq<(string, string)>)
  {
    forall i :: 0 <= i < |fields| ==> '=' !in fields[i].0 && ',' !in fields[i].0 && ',' !in fields[i].1
  }

  lemma SplitRendered(field: (string, string))
    requires '=' !in field.0
    ensures SplitField(RenderField(field)) == Some(field)
  {
    var s := RenderField(field);
    IndexOfSkips(field.0, "=" + field.1, '=');
    assert s == field.0 + ("=" + field.1);
    assert s[..|field.0|] == field.0;
    assert s[|field.0| + 1..] == field.1;
  }

  lemma RenderedHasNoComma(field: (string, string))
    requires ',' !in field.0 && ',' !in field.1
    ensures ',' !in RenderField(field)
  {
    var s := RenderField(field);
    forall i | 0 <= i < |s|
      ensures s[i] != ','
    {
      if i < |field.0| {
        assert s[i] == field.0[i];
      } else if i > |field.0| {
        assert s[i] == field.1[i - |field.0| - 1];
      }
    }
  }

  lemma SeparableTail(fields: seq<(string, string)>)
    requires |fields| >= 1 && Separable(fields)
    ensures Separable(fields[1..])
  {
    forall i | 0 <= i < |fields| - 1
      ensures '=' !in fields[1..][i].0 && ',' !in fields[1..][i].0 && ',' !in fields[1..][i].1
    {
      assert fields[1..][i] == fields[i + 1];
    }
  }

  lemma ParseSingleField(field: (string, string))
    requires '=' !in field.0 && ',' !in field.0 && ',' !in field.1
    ensures ParseFields(RenderField(field)) == Some([field])
  {
    var s := RenderField(field);
    SplitRendered(field);
    RenderedHasNoComma(field);
    assert IndexOf(s, ',') == |s|;
    assert s[..|s|] == s;
  }

  lemma ParseFieldThenRest(field: (string, string), tail: string, rest: seq<(string, string)>)
    requires '=' !in field.0 && ',' !in field.0 && ',' !in field.1
    requires ParseFields(tail) == Some(rest)
    ensures ParseFields(RenderField(field) + ", " + tail) == Some([field] + rest)
  {
    var first := RenderField(field);
    var s := first + ", " + tail;
    SplitRendered(field);
    RenderedHasNoComma(field);
    IndexOfSkips(first, ", " + tail, ',');
    assert s == first + (", " + tail);
    assert s[..|first|] == first;
    assert s[|first| + 2..] == tail;
  }

  /** Parsing the joined fields gives the fields back, in order. */
  lemma {:induction false} RenderRoundTrip(fields: seq<(string, string)>)
    requires |fields| >= 1 && Separable(fields)
    ensures ParseFields(Render(fields)) == Some(fields)
    decreases |fields|
  {
    if |fields| == 1 {
      ParseSingleField(fields[0]);
      assert fields == [fields[0]];
    } else {
      SeparableTail(fields);
      RenderRoundTrip(fields[1..]);
      ParseFieldThenRest(fields[0], Render(fields[1..]), fields[1..]);
      assert [fields[0]] + fields[1..] == fields;
    }
  }

  lemma NoCommaInHex(s: string)
    requires forall i :: 0 <= i < |s| ==> IsLowerHexChar(s[i])
    ensures ',' !in s
  {
  }

  lemma NoSeparatorInTimestamp(now: int)
    ensures ',' !in Timestamp(now) && ' ' !in Timestamp(now)
  {
  }

  /** Where each key sits among the five fields. */
  lemma AuthFieldLookups(rt: Runtime, cfg: Config, now: int, data: string)
    ensures var fields := AuthFields(rt, cfg, now, data);
      && Lookup(fields, "sentry_version") == Some(PROTOCOL_VERSION)
      && Lookup(fields, "sentry_timestamp") == Some(Timestamp(now))
      && Lookup(fields, "sentry_key") == Some(cfg.publicKey)
      && Lookup(fields, "sentry_signature") == Some(GenerateSignature(rt, cfg.secretKey, Timestamp(now), data))
  {
    var fields := AuthFields(rt, cfg, now, data);
    var keys := ["sentry_version", "sentry_client", "sentry_timestamp", "sentry_key", "sentry_signature"];
    assert forall i :: 0 <= i < 5 ==> fields[i].0 == keys[i];
    assert keys[0] != keys[2] && keys[0] != keys[3] && keys[0] != keys[4];
    assert keys[1] != keys[2] && keys[1] != keys[3] && keys[1] != keys[4];
    assert keys[2] != keys[3] && keys[2] != keys[4];
    assert keys[3] != keys[4];
    assert Lookup(fields[4..], keys[4]) == Some(fields[4].1);
    assert fields[3..][1..] == fields[4..];
    assert Lookup(fields[3..], keys[4]) == Some(fields[4].1);
    assert Lookup(fields[3..], keys[3]) == Some(fields[3].1);
    assert fields[2..][1..] == fields[3..];
    assert Lookup(fields[2..], keys[4]) == Some(fields[4].1);
    assert Lookup(fields[2..], keys[3]) == Some(fields[3].1);
    assert Lookup(fields[2..], keys[2]) == Some(fields[2].1);
    assert fields[1..][1..] == fields[2..];
    assert Lookup(fields[1..], keys[4]) == Some(fields[4].1);
    assert Lookup(fields[1..], keys[3]) == Some(fields[3].1);
    assert Lookup(fields[1..], keys[2]) == Some(fields[2].1);
  }

  /**
   * A collector parsing the header finds exactly the five fields, in order,
   * provided the public key and the library version hold no comma.
   */
  lemma HeaderRoundTrip(rt: Runtime, cfg: Config, now: int, data: string)
    requires ',' !in cfg.publicKey && ',' !in rt.version
    ensures ParseHeader(PREFIX + Render(AuthFields(rt, cfg, now, data))) == Some(AuthFields(rt, cfg, now, data))
  {
    var fields := AuthFields(rt, cfg, now, data);
    NoSeparatorInTimestamp(now);
    NoCommaInHex(fields[4].1);
    assert ',' !in UserAgent(rt.version) by {
      var u := UserAgent(rt.version);
      forall i | 0 <= i < |u|
        ensures u[i] != ','
      {
        if i >= |PRODUCT| {
          assert u[i] == rt.version[i - |PRODUCT|];
        }
      }
    }
    assert Separable(fields);
    RenderRoundTrip(fields);
    assert (PREFIX + Render(fields))[|PREFIX|..] == Render(fields);
  }

  /** The parser reads only the text `Render` writes: parsed fields rejoin to the text they came from. */
  lemma {:induction false} ParseFieldsExact(s: string, fields: seq<(string, string)>)
    requires ParseFields(s) == Some(fields)
    ensures Render(fields) == s
    decreases |s|
  {
    var i := IndexOf(s, ',');
    var field := SplitField(s[..i]).value;
    assert RenderField(field) == s[..i];
    if i < |s| {
      assert s[i] == ',' && i + 1 < |s| && s[i + 1] == ' ';
      var rest := ParseFields(s[i + 2..]).value;
      assert fields == [field] + rest;
      ParseFieldsExact(s[i + 2..], rest);
      JoinAt(s, i);
      assert fields[1..] == rest;
    } else {
      assert fields == [field];
      assert s[..i] == s;
    }
  }

  lemma JoinAt(s: string, i: nat)
    requires i + 2 <= |s| && s[i] == ',' && s[i + 1] == ' '
    ensures s == s[..i] + ", " + s[i + 2..]
  {
  }

  /** Only the exact header the client builds parses to its five fields. */
  lemma HeaderDeterminedByFields(rt: Runtime, cfg: Config, now: int, data: string, h: string)
    requires ParseHeader(h) == Some(AuthFields(rt, cfg, now, data))
    ensures h == GenerateAuthHeader(rt, cfg, now, data)
  {
    ParseFieldsExact(h[|PREFIX|..], AuthFields(rt, cfg, now, data));
    assert h == h[..|PREFIX|] + h[|PREFIX|..];
  }

  /** The header the client builds is accepted for the data it signed. */
  lemma HeaderAccepted(rt: Runtime, cfg: Config, now: int, data: string)
    requires ',' !in cfg.publicKey && ',' !in rt.version
    ensures Accepts(rt, cfg.publicKey, cfg.secretKey, GenerateAuthHeader(rt, cfg, now, data), data)
    ensures var fields := AuthFields(rt, cfg, now, data);
            Lookup(fields, "sentry_timestamp") == Some(Timestamp(now)) &&
            ParseInteger(Timestamp(now)) == Some(now)
  {
    AuthFieldLookups(rt, cfg, now, data);
    IntegerRoundTrip(now);
  }

  /** The signed message determines the timestamp and the data it was made from. */
  lemma SignedInputSplits(timestamp: string, data: string)
    requires ' ' !in timestamp
    ensures SplitSignedInput(SignedInput(timestamp, data)) == Some((timestamp, data))
  {
    var m := SignedInput(timestamp, data);
    IndexOfSkips(timestamp, " " + data, ' ');
    assert m == timestamp + (" " + data);
    assert m[..|timestamp|] == timestamp;
    assert m[|timestamp| + 1..] == data;
  }

  /** No two (clock reading, data) pairs share a signed message. */
  lemma SignedInputInjective(now1: int, data1: string, now2: int, data2: string)
    requires SignedInput(Timestamp(now1), data1) == SignedInput(Timestamp(now2), data2)
    ensures now1 == now2 && data1 == data2
  {
    NoSeparatorInTimestamp(now1);
    NoSeparatorInTimestamp(now2);
    SignedInputSplits(Timestamp(now1), data1);
    SignedInputSplits(Timestamp(now2), data2);
    IntegerToSInjective(now1, now2);
  }
}
