# raven-ruby client submission pipeline, in Dafny

This project models `Raven::Client` of raven-ruby (`lib/raven/client.rb`). The
client sends an error event to a Sentry collector in these steps:

1. It does nothing unless sending is enabled for the current environment.
2. It writes the configured project id into the event.
3. It serialises the event to JSON. Under encoding `'gzip'` it deflates the JSON
   with zlib and wraps the result in strict Base64.
4. It picks a transport from the configured scheme and memoises it.
5. It signs the encoded body with HMAC-SHA1 under the secret key, together with
   the current Unix time, and builds the `Sentry …` auth header.
6. It hands header, body and content type to the transport.

The library code the client calls is not modelled. This covers the JSON
serialiser, zlib deflate, the HMAC-SHA1 digest, the network write of a transport
and `Raven::VERSION`. Each is a field of a `Runtime` value, so every property
holds whatever those functions compute.

Some small pieces are written out in full, because the wire format depends on
them:

- the integer-to-decimal conversion of the timestamp;
- the lower-case hex rendering of the digest;
- strict Base64 as defined in section 4 of RFC 4648.

Each of these comes with a parser and a round-trip proof. The mutable client is
modelled as a value. `Client.transport` holds the memoised transport kind, and
`Client.sent` records every call of a transport's `send`. `Send` returns the
client and the event as they are afterwards.

Modules, one file each:

- `Basics` (basics.dfy): bytes, `Option`, `Result`, substring and index helpers.
- `Decimal` (decimal.dfy): `Integer#to_s` and its parser.
- `Hex` (hex.dfy): hex digest text and its parser.
- `Base64` (base64.dfy): strict Base64 encoding and decoding.
- `Raven` (raven.dfy): configuration, event, delivery, errors, and the `Runtime` of library functions.
- `Encoder` (encoder.dfy): `encode`, plus what a receiver does to unwrap a payload.
- `Auth` (auth.dfy): `generate_signature`, `generate_auth_header`, plus the collector's parsing and checking of the header.
- `Transport` (transport.dfy): the scheme dispatch.
- `RavenClient` (client.dfy): the memoised `transport` and `send`, with properties that span calls.

## Model

| member | source | states |
|---|---|---|
| RavenClient.Send | lib/raven/client.rb:24-33 | A disabled environment returns the client and event unchanged with status Skipped. An enabled one stamps the project id whatever the outcome. The configuration is unchanged. A cached transport stays cached. At most one delivery is appended, and only through the transport left in the cache. Nothing is sent while no transport is cached. A delivery made from an empty cache goes through the kind the scheme selects. After a delivery, the status is Handed when the transport's send returns and Failed with that transport error, unchanged, when it raises. The delivered header is the prefix and the joined five fields built for the delivered body at time now, whatever the keys hold, so the signature covers the bytes sent. |
| RavenClient.SendReachesTransportIff | lib/raven/client.rb:25-32 | A delivery is recorded exactly when three things hold: sending is enabled, the stamped event serialises, and a transport is cached or the scheme is udp/http/https. |
| RavenClient.EncodingErrorSendsNothing | lib/raven/client.rb:30 | A serialiser failure is raised as an encoding error, before any transport is resolved or cached and before anything is sent. |
| RavenClient.UnknownSchemeSendsNothing | lib/raven/client.rb:28-31 | When sending is enabled and the stamped event serialises, with an unknown scheme and an empty cache, send raises an error whose message contains the scheme. The cache stays empty and nothing is sent, but the event still carries the new project id. |
| RavenClient.SendDeliversStampedEvent | lib/raven/client.rb:28-30 | The delivered content type and body unwrap to the JSON of the stamped event. Under "gzip" they unwrap to exactly the deflated JSON of that event. |
| RavenClient.SendSignsWireBytes | lib/raven/client.rb:30-32 | When the public key and VERSION hold no comma, the delivered header parses to the five fields for the delivered body at time now. A collector holding the keys accepts it for that body: the signature covers the encoded bytes sent, not the JSON. |
| RavenClient.SendPreservesAuthentic | lib/raven/client.rb:31-32 | When the public key and VERSION hold no comma: if every earlier delivery is accepted under the configuration's keys, so is every delivery after another send. |
| RavenClient.SendPreservesOneTransport | lib/raven/client.rb:50 | Nothing is sent before a transport is cached, and every delivery goes through the cached transport. Send keeps this true. |
| RavenClient.ReconfigurePreservesOneTransport | lib/raven/client.rb:18 | Replacing the configuration keeps the one-transport invariant. |
| RavenClient.New | lib/raven/client.rb:20-22 | A new client holds the given configuration, has no cached transport and has sent nothing, so it satisfies the one-transport invariant. |
| RavenClient.WithConfiguration | lib/raven/client.rb:18 | The `configuration=` writer installs the new configuration and keeps the cached transport and the record of deliveries. |
| RavenClient.Stamp | lib/raven/client.rb:28 | The stamped event carries the configured project id; its id and other attributes are those of the original event. |
| RavenClient.Resolve | lib/raven/client.rb:49-58 | A cached transport is returned without looking at the scheme. Otherwise the result is the scheme's dispatch (udp to UDP, http and https to HTTP), and a successful dispatch is cached and returned. A failure raises an unknown-scheme error and leaves the client as it was. Resolution succeeds exactly when a transport is cached or the scheme is known. |
| RavenClient.MemoIgnoresNewScheme | lib/raven/client.rb:50 | Once cached, the transport is returned even after the configuration (its scheme included) is replaced. |
| RavenClient.ResolveIdempotent | lib/raven/client.rb:50 | Resolving a second time gives the same client and result as the first time. A failed resolution raises again. |
| Transport.KindForScheme | lib/raven/client.rb:50-57 | udp gives the UDP kind. http and https give the HTTP kind. Every other scheme is an unknown-scheme error carrying that scheme. Success holds exactly for the three known schemes. |
| Transport.UnknownSchemeNamed | lib/raven/client.rb:56 | The message raised for an unknown scheme contains the scheme string. |
| Transport.Message | lib/raven/client.rb:56 | The unknown-scheme message is "Unknown transport scheme '", then the scheme, then a closing quote: the scheme sits right after the prefix. |
| Encoder.Encode | lib/raven/client.rb:37-46 | A serialiser failure becomes an encoding error. Otherwise the content type is octet-stream exactly for "gzip" and application/json otherwise. The non-gzip body is the JSON unchanged. The gzip body is strict Base64 that decodes to exactly the deflated JSON. |
| Encoder.EncodeRoundTrip | lib/raven/client.rb:37-46 | A receiver unwrapping the payload recovers the JSON, or under "gzip" the deflated JSON, exactly. |
| Encoder.GzipWrapsPlain | lib/raven/client.rb:38-43 | The "gzip" body decodes to the deflate of the very body any other encoding sends. |
| Encoder.GzipBodyUnique | lib/raven/client.rb:41-43 | Any text that decodes to the deflated JSON is the "gzip" body itself, so the body is fixed to the strict Base64 of the deflated JSON. |
| Base64.Encode | lib/raven/client.rb:42 | The output has length 4*ceil(n/3) and uses only the standard alphabet and '=', so it has no line breaks. |
| Base64.EncodeStrict | lib/raven/client.rb:42 | The output is strict: whole quanta, and any '=' padding is a suffix of at most two characters. |
| Base64.DecodeCanonical | lib/raven/client.rb:42 | Any text the decoder accepts is the encoding of what it decodes to, because padded quanta must have zero unused bits. Each byte sequence therefore has exactly one accepted encoding. |
| Base64.RoundTrip | lib/raven/client.rb:42 | Decoding the strict encoding gives back exactly the input bytes. |
| Auth.GenerateSignature | lib/raven/client.rb:60-62 | The signature is lower-case hex, and parsing it gives the HMAC-SHA1 digest, under the secret key, of the timestamp, one space, and the data. |
| Auth.Timestamp | lib/raven/client.rb:65 | The timestamp is the canonical decimal text of the clock reading, and it reads back as that reading. |
| Auth.SignedInput | lib/raven/client.rb:61 | The signed message is the timestamp, then exactly one space, then the data, with nothing else. |
| Auth.SignedInputSplits | lib/raven/client.rb:61 | For a timestamp without spaces, splitting the signed message at its first space recovers the timestamp and the data. |
| Auth.SignedInputInjective | lib/raven/client.rb:60-65 | Two signed messages are equal only when both the clock readings and the data are equal. |
| Auth.GenerateAuthHeader | lib/raven/client.rb:64-73 | The header starts with "Sentry ". When the public key and version hold no comma, a collector parsing it finds exactly five fields in this order: sentry_version=2.0, sentry_client=raven-ruby/VERSION, sentry_timestamp=now, sentry_key=public key, sentry_signature=signature. |
| Auth.AuthFields | lib/raven/client.rb:66-72 | The five fields, in order: sentry_version=2.0, sentry_client=the user agent, sentry_timestamp=the decimal clock reading, sentry_key=the public key, and sentry_signature, whose hex parses to the HMAC-SHA1 of that same timestamp, a space and the data. |
| Auth.UserAgent | lib/raven/client.rb:15 | The user agent is "raven-ruby/" followed by the library version, and holds no comma when the version holds none. |
| Auth.RenderRoundTrip | lib/raven/client.rb:73 | Joining any non-empty list of `key=value` fields with ", " is undone by the collector's parser, provided keys hold no '=' and nothing holds a comma. |
| Auth.HeaderRoundTrip | lib/raven/client.rb:73 | Joining the five fields with ", " after "Sentry " and parsing the result back gives the five fields, provided no value holds a comma. |
| Auth.ParseFieldsExact | lib/raven/client.rb:73 | Whatever the collector's parser accepts is exactly the ", " join of the fields it returns. |
| Auth.HeaderDeterminedByFields | lib/raven/client.rb:64-73 | Any header that parses to the client's five fields is, character for character, the header the client builds. |
| Auth.AuthFieldLookups | lib/raven/client.rb:66-72 | Looking up each key among the fields gives "2.0", the timestamp, the public key and the signature of that same timestamp. |
| Auth.HeaderAccepted | lib/raven/client.rb:64-73 | When the public key and VERSION hold no comma, a collector accepts the header for the signed data: version 2.0, the right key, an integer timestamp that reads back as now, and a signature that checks out. |
| Decimal.IntegerToS | lib/raven/client.rb:65 | The timestamp text is non-empty. It is digits only, except for a leading '-' exactly when the number is negative. It is canonical: no leading zero, and no "-0". |
| Decimal.CanonicalIntegerUnique | lib/raven/client.rb:65 | Any canonical text that reads as n is exactly the timestamp text for n, so the round trip pins the text. |
| Decimal.IntegerRoundTrip | lib/raven/client.rb:65 | Reading the timestamp text back gives the clock reading. |
| Decimal.IntegerToSInjective | lib/raven/client.rb:65 | Different clock readings give different timestamps. |
| Hex.HexDigest | lib/raven/client.rb:61 | The output has two lower-case hex characters per digest byte. |
| Hex.HexRoundTrip | lib/raven/client.rb:61 | Parsing the hex text gives back the digest bytes. |

## Left out

- `Raven.logger.debug` (line 29) is logging only. The event's `id` is kept as a field but has no effect.
- The insides of `MultiJson.encode(event.to_hash)`, `Zlib::Deflate.deflate`, OpenSSL's HMAC-SHA1 and the transports' network writes are library or I/O code. Each is a function field of `Runtime`. `to_hash` and the serialiser are one function of the event.
- `Time.now.to_i` is the parameter `now` of `Send` and `GenerateAuthHeader`, because the wall clock cannot be modelled.
- `send_in_current_environment?` is the boolean `sendInCurrentEnvironment` of the configuration, taken as its answer at the time of the call.
- `Raven::VERSION` is the `version` field of `Runtime`, because lib/raven/version.rb is not part of this model.
- lib/raven/transports/http.rb and lib/raven/transports/udp.rb are not part of this model. A transport is only its kind. The configuration it captures when it is created is not kept, and its `send` is recorded as a `Delivery` whose outcome comes from `Runtime.transportSend`.
- Thread safety of the `||=` memoisation is a concurrency concern and is outside this sequential model.
- `CONTENT_TYPE` (line 16) is declared but never used by the client, so it has no counterpart.
- A nil `encoding` behaves like any value other than "gzip", and a nil `scheme` raises with an empty name. Both are modelled as plain strings.
- The header field order assumes Ruby's insertion-ordered `Hash` (Ruby 1.9 and later). The header is built in that order.
- The encoding named 'gzip' produces zlib-wrapped deflate data (RFC 1950 around RFC 1951) inside Base64, not RFC 1952 gzip. `Runtime.deflate` stands for `Zlib::Deflate.deflate`.
- An unknown scheme raises a plain `RuntimeError` with the message "Unknown transport scheme '<scheme>'". The model keeps it as `UnknownScheme` together with its `Message`.
- RavenClient.Send: the keys are strings, and `Runtime.hmacSha1` never raises. In Ruby, `OpenSSL::HMAC.hexdigest` raises when `configuration[:secret_key]` is nil. That happens after the transport has been resolved and cached and before anything is sent; the model has no such path.
- Auth.GenerateAuthHeader: the parse round trip holds only when the public key and `Raven::VERSION` contain no comma. A comma inside a value makes the comma-separated header ambiguous to any parser, and the code does not escape it.
- Auth.GenerateSignature: does not state the 40-character length of a SHA-1 hex digest, because the digest function is not modelled.
