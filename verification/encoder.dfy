/** `Client#encode`: the content type and body put on the wire for an event. */
module Encoder {
  import opened Basics
  import opened Raven
  import Base64

  const JSON_TYPE: string := "application/json"
  const OCTET_TYPE: string := "application/octet-stream"

  /** The encoding name that selects compression. */
  const GZIP: string := "gzip"

  datatype Payload = Payload(contentType: string, body: string)

  /** What a receiver recovers from a payload before parsing JSON. */
  datatype Wire = Plain(json: string) | Compressed(deflated: seq<byte>)

  /**
   * Serialise the event; under encoding "gzip", deflate it and wrap the
   * result in strict Base64; under any other encoding send the JSON as is.
   */
  function Encode(rt: Runtime, e: Event, encoding: string): (r: Result<Payload, Error>)
    ensures r.Err? <==> rt.json(e).Err?
    ensures r.Err? ==> r.error == EncodingError(rt.json(e).error)
    ensures r.Ok? ==> (r.value.contentType == OCTET_TYPE <==> encoding == GZIP)
    ensures r.Ok? ==> (r.value.contentType == JSON_TYPE <==> encoding != GZIP)
    ensures r.Ok? && encoding != GZIP ==> r.value.body == rt.json(e).value
    ensures r.Ok? && encoding == GZIP ==> Base64.IsStrict(r.value.body)
    ensures r.Ok? && encoding == GZIP ==> Base64.Decode(r.value.body) == Some(rt.deflate(rt.json(e).value))
  {
    match rt.json(e)
    case Err(reason) => Err(EncodingError(reason))
    case Ok(json) =>
      if encoding == GZIP then
        var deflated := rt.deflate(json);
        Base64.EncodeStrict(deflated);
        Base64.RoundTrip(deflated);
        Ok(Payload(OCTET_TYPE, Base64.Encode(deflated)))
      else Ok(Payload(JSON_TYPE, json))
  }

  /** The receiver's side: undo the transfer encoding named by the content type. */
  function Unwrap(p: Payload): (r: Option<Wire>)
  {
    if p.contentType == JSON_TYPE then Some(Plain(p.body))
    else if p.contentType == OCTET_TYPE then
      match Base64.Decode(p.body)
      case None => None
      case Some(bytes) => Some(Compressed(bytes))
    else None
  }

  /** A receiver recovers the event's JSON, or exactly the deflated JSON under "gzip". */
  lemma EncodeRoundTrip(rt: Runtime, e: Event, encoding: string)
    requires rt.json(e).Ok?
    ensures Encode(rt, e, encoding).Ok?
    ensures Unwrap(Encode(rt, e, encoding).value) ==
      Some(if encoding == GZIP then Compressed(rt.deflate(rt.json(e).value)) else Plain(rt.json(e).value))
  {
    if encoding == GZIP {
      Base64.RoundTrip(rt.deflate(rt.json(e).value));
    }
  }

  /** The "gzip" body carries the deflated form of exactly the body any other encoding sends. */
  lemma GzipWrapsPlain(rt: Runtime, e: Event, other: string)
    requires other != GZIP
    ensures Encode(rt, e, other).Ok? ==>
      Unwrap(Encode(rt, e, GZIP).value) == Some(Compressed(rt.deflate(Encode(rt, e, other).value.body)))
  {
    if rt.json(e).Ok? {
      EncodeRoundTrip(rt, e, GZIP);
    }
  }

  /**
   * The "gzip" body is the only strict Base64 text that decodes to the
   * deflated JSON: any body a receiver would read the same way is this one.
   */
  lemma GzipBodyUnique(rt: Runtime, e: Event, body: string)
    requires rt.json(e).Ok?
    ensures Base64.Decode(body) == Some(rt.deflate(rt.json(e).value)) ==>
      body == Encode(rt, e, GZIP).value.body
  {
    if Base64.Decode(body) == Some(rt.deflate(rt.json(e).value)) {
      Base64.DecodeInjective(body, Encode(rt, e, GZIP).value.body);
    }
  }
}
