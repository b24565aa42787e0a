/**
 * The entities the client works on, and the library code it calls but
 * whose insides are not modelled.
 */
module Raven {
  import opened Basics

  /**
   * The settings the client reads. `sendInCurrentEnvironment` is the value
   * `send_in_current_environment?` answers at the time of the call.
   */
  datatype Config = Config(
    projectId: string,
    publicKey: string,
    secretKey: string,
    scheme: string,
    encoding: string,
    sendInCurrentEnvironment: bool)

  /** An event to report; `attributes` is everything else `to_hash` serialises. */
  datatype Event = Event(id: string, project: string, attributes: map<string, string>)

  /** The two transport classes the scheme selects between. */
  datatype TransportKind = Udp | Http

  /** One call of `transport.send(header, body, content_type: type)`. */
  datatype Delivery = Delivery(kind: TransportKind, authHeader: string, body: string, contentType: string)

  /** What the client can raise. */
  datatype Error =
    | EncodingError(reason: string)
    | UnknownScheme(scheme: string)
    | TransportError(reason: string)

  /**
   * Library code the client calls:
   *  - `json`: `MultiJson.encode(event.to_hash)`, which may raise;
   *  - `deflate`: `Zlib::Deflate.deflate`, zlib-wrapped deflate data;
   *  - `hmacSha1`: the raw HMAC-SHA1 digest of a message under a key;
   *  - `transportSend`: the network write of a transport, `Some(reason)` when it raises;
   *  - `version`: `Raven::VERSION`.
   */
  datatype Runtime = Runtime(
    json: Event -> Result<string, string>,
    deflate: string -> seq<byte>,
    hmacSha1: (string, string) -> seq<byte>,
    transportSend: Delivery -> Option<string>,
    version: string)
}
