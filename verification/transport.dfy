/** The scheme dispatch inside `Client#transport`. */
module Transport {
  import opened Basics
  import opened Raven

  /** The schemes a client can send over. */
  predicate IsKnownScheme(scheme: string)
  {
    scheme == "udp" || scheme == "http" || scheme == "https"
  }

  /** `udp` selects the UDP transport, `http` and `https` the HTTP one; anything else raises. */
  function KindForScheme(scheme: string): (r: Result<TransportKind, Error>)
    ensures r.Ok? <==> IsKnownScheme(scheme)
    ensures r == Ok(Udp) <==> scheme == "udp"
    ensures r == Ok(Http) <==> scheme in {"http", "https"}
    ensures r.Err? ==> r.error == UnknownScheme(scheme)
  {
    if scheme == "udp" then Ok(Udp)
    else if scheme == "http" || scheme == "https" then Ok(Http)
    else Err(UnknownScheme(scheme))
  }

  const UNKNOWN_SCHEME_PREFIX: string := "Unknown transport scheme '"

  /** The message text of an error, as the raised exception carries it. */
  function Message(e: Error): (m: string)
    ensures e.UnknownScheme? ==> OccursAt(e.scheme, m, |UNKNOWN_SCHEME_PREFIX|)
    ensures e.UnknownScheme? ==> |m| == |UNKNOWN_SCHEME_PREFIX| + |e.scheme| + 1
    ensures e.UnknownScheme? ==> OccursAt(UNKNOWN_SCHEME_PREFIX, m, 0) && m[|m| - 1] == '\''
  {
    match e
    case UnknownScheme(scheme) =>
      var m := UNKNOWN_SCHEME_PREFIX + scheme + "'";
      assert m[|UNKNOWN_SCHEME_PREFIX|..|UNKNOWN_SCHEME_PREFIX| + |scheme|] == scheme;
      assert m[..|UNKNOWN_SCHEME_PREFIX|] == UNKNOWN_SCHEME_PREFIX;
      m
    case EncodingError(reason) => reason
    case TransportError(reason) => reason
  }

  /** The error for an unknown scheme names the offending scheme. */
  lemma UnknownSchemeNamed(scheme: string)
    requires !IsKnownScheme(scheme)
    ensures KindForScheme(scheme).Err?
    ensures Contains(Message(KindForScheme(scheme).error), scheme)
  {
    var m := Message(UnknownScheme(scheme));
    assert m[|UNKNOWN_SCHEME_PREFIX|..|UNKNOWN_SCHEME_PREFIX| + |scheme|] == scheme;
    assert OccursAt(scheme, m, |UNKNOWN_SCHEME_PREFIX|);
  }
}
