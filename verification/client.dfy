/**
 * `Raven::Client`: the submission pipeline. The mutable client is a value
 * here: the memoised transport is an optional field, every call of a
 * transport's `send` is appended to `sent`, and each operation returns the
 * client as it is afterwards.
 */
module RavenClient {
  import opened Basics
  import opened Raven
  import opened Encoder
  import opened Auth
  import opened Transport

  datatype Client = Client(configuration: Config, transport: Option<TransportKind>, sent: seq<Delivery>)

  /** How a `send` call ends: disabled, handed to the transport, or raised. */
  datatype Status = Skipped | Handed | Failed(error: Error)

  /** The client and the caller's event after a `send`, and how it ended. */
  datatype SendOutcome = SendOutcome(client: Client, event: Event, status: Status)

  /** `Client.new(configuration)`: no transport yet and nothing sent. */
  function New(cfg: Config): (c: Client)
    ensures c.configuration == cfg && c.transport.None? && c.sent == []
    ensures OneTransport(c)
  {
    Client(cfg, None, [])
  }

  /** The `configuration=` writer; the memoised transport is kept. */
  function WithConfiguration(c: Client, cfg: Config): (c': Client)
    ensures c'.configuration == cfg
    ensures c'.transport == c.transport && c'.sent == c.sent
  {
    c.(configuration := cfg)
  }

  /**
   * `transport`, memoised with `||=`: a cached transport is returned as is;
   * otherwise the scheme is dispatched, and only a successful dispatch is cached.
   */
  function Resolve(c: Client): (r: (Client, Result<TransportKind, Error>))
    ensures r.0.configuration == c.configuration && r.0.sent == c.sent
    ensures c.transport.Some? ==> r.0 == c && r.1 == Ok(c.transport.value)
    ensures r.1.Ok? ==> r.0.transport == Some(r.1.value)
    ensures r.1.Err? ==> r.0 == c && r.1.error == UnknownScheme(c.configuration.scheme)
    ensures r.1.Ok? <==> c.transport.Some? || IsKnownScheme(c.configuration.scheme)
    ensures c.transport.None? ==> r.1 == KindForScheme(c.configuration.scheme)
  {
    match c.transport
    case Some(kind) => (c, Ok(kind))
    case None =>
      match KindForScheme(c.configuration.scheme)
      case Ok(kind) => (c.(transport := Some(kind)), Ok(kind))
      case Err(e) => (c, Err(e))
  }

  /** The event with the configured project id written into it. */
  function Stamp(e: Event, cfg: Config): (r: Event)
    ensures r.project == cfg.projectId
    ensures r.id == e.id && r.attributes == e.attributes
  {
    e.(project := cfg.projectId)
  }

  /**
   * `send(event)` with the clock reading `now` that `Time.now` would give
   * while building the header.
   */
  function Send(rt: Runtime, c: Client, e: Event, now: int): (o: SendOutcome)
    ensures !c.configuration.sendInCurrentEnvironment ==> o == SendOutcome(c, e, Skipped)
    ensures c.configuration.sendInCurrentEnvironment ==> o.event == e.(project := c.configuration.projectId)
    ensures o.client.configuration == c.configuration
    ensures c.transport.Some? ==> o.client.transport == c.transport
    ensures o.client.transport.None? ==> o.client.sent == c.sent
    ensures |c.sent| <= |o.client.sent| <= |c.sent| + 1 && o.client.sent[..|c.sent|] == c.sent
    ensures |o.client.sent| > |c.sent| ==> o.client.transport == Some(o.client.sent[|c.sent|].kind)
    ensures o.status == Handed ==> |o.client.sent| == |c.sent| + 1
    ensures |o.client.sent| > |c.sent| && c.transport.None? ==>
      Ok(o.client.sent[|c.sent|].kind) == KindForScheme(c.configuration.scheme)
    ensures |o.client.sent| > |c.sent| ==>
      o.status == (match rt.transportSend(o.client.sent[|c.sent|])
                   case None => Handed
                   case Some(reason) => Failed(TransportError(reason)))
    ensures |o.client.sent| > |c.sent| ==>
      var d := o.client.sent[|c.sent|];
      d.authHeader == PREFIX + Render(AuthFields(rt, c.configuration, now, d.body))
  {
    var cfg := c.configuration;
    if !cfg.sendInCurrentEnvironment then SendOutcome(c, e, Skipped)
    else
      var stamped := Stamp(e, cfg);
      match Encode(rt, stamped, cfg.encoding)
      case Err(err) => SendOutcome(c, stamped, Failed(err))
      case Ok(payload) =>
        var (c', resolved) := Resolve(c);
        match resolved
        case Err(err) => SendOutcome(c', stamped, Failed(err))
        case Ok(kind) =>
          var d := Delivery(kind, GenerateAuthHeader(rt, cfg, now, payload.body), payload.body, payload.contentType);
          var c'' := c'.(sent := c'.sent + [d]);
          match rt.transportSend(d)
          case None => SendOutcome(c'', stamped, Handed)
          case Some(reason) => SendOutcome(c'', stamped, Failed(TransportError(reason)))
  }

  /** Exactly the enabled, serialisable sends on a client with a usable transport reach the transport. */
  lemma SendReachesTransportIff(rt: Runtime, c: Client, e: Event, now: int)
    ensures var o := Send(rt, c, e, now);
      |o.client.sent| == |c.sent| + 1 <==>
        && c.configuration.sendInCurrentEnvironment
        && rt.json(Stamp(e, c.configuration)).Ok?
        && (c.transport.Some? || IsKnownScheme(c.configuration.scheme))
  {
  }

  /** A failed serialisation raises before any transport is resolved or cached. */
  lemma EncodingErrorSendsNothing(rt: Runtime, c: Client, e: Event, now: int)
    requires c.configuration.sendInCurrentEnvironment
    requires rt.json(Stamp(e, c.configuration)).Err?
    ensures var o := Send(rt, c, e, now);
      && o.client == c
      && o.status == Failed(EncodingError(rt.json(Stamp(e, c.configuration)).error))
  {
  }

  /**
   * An unknown scheme raises an error naming it, leaves the cache empty and
   * sends nothing; the event keeps its new project id.
   */
  lemma UnknownSchemeSendsNothing(rt: Runtime, c: Client, e: Event, now: int)
    requires c.configuration.sendInCurrentEnvironment && c.transport.None?
    requires rt.json(Stamp(e, c.configuration)).Ok?
    requires !IsKnownScheme(c.configuration.scheme)
    ensures var o := Send(rt, c, e, now);
      && o.client == c
      && o.event.project == c.configuration.projectId
      && o.status.Failed?
      && o.status.error == UnknownScheme(c.configuration.scheme)
      && Contains(Message(o.status.error), c.configuration.scheme)
  {
    UnknownSchemeNamed(c.configuration.scheme);
  }

  /**
   * The delivered payload is the stamped event: a receiver unwrapping it
   * finds that event's JSON, deflated under "gzip".
   */
  lemma SendDeliversStampedEvent(rt: Runtime, c: Client, e: Event, now: int)
    requires |Send(rt, c, e, now).client.sent| > |c.sent|
    ensures var d := Send(rt, c, e, now).client.sent[|c.sent|];
      var json := rt.json(Stamp(e, c.configuration));
      && json.Ok?
      && Unwrap(Payload(d.contentType, d.body)) ==
         Some(if c.configuration.encoding == GZIP then Compressed(rt.deflate(json.value)) else Plain(json.value))
  {
    EncodeRoundTrip(rt, Stamp(e, c.configuration), c.configuration.encoding);
  }

  /**
   * The header handed to the transport signs the body handed with it (the
   * encoded bytes, not the JSON), at the clock reading of the call.
   */
  lemma SendSignsWireBytes(rt: Runtime, c: Client, e: Event, now: int)
    requires ',' !in c.configuration.publicKey && ',' !in rt.version
    requires |Send(rt, c, e, now).client.sent| > |c.sent|
    ensures var d := Send(rt, c, e, now).client.sent[|c.sent|];
      && Accepts(rt, c.configuration.publicKey, c.configuration.secretKey, d.authHeader, d.body)
      && ParseHeader(d.authHeader) == Some(AuthFields(rt, c.configuration, now, d.body))
  {
    var payload := Encode(rt, Stamp(e, c.configuration), c.configuration.encoding).value;
    HeaderAccepted(rt, c.configuration, now, payload.body);
  }

  /** Every delivery so far would be accepted under the configuration's keys. */
  ghost predicate Authentic(rt: Runtime, cfg: Config, sent: seq<Delivery>)
  {
    forall i :: 0 <= i < |sent| ==> Accepts(rt, cfg.publicKey, cfg.secretKey, sent[i].authHeader, sent[i].body)
  }

  lemma SendPreservesAuthentic(rt: Runtime, c: Client, e: Event, now: int)
    requires ',' !in c.configuration.publicKey && ',' !in rt.version
    requires Authentic(rt, c.configuration, c.sent)
    ensures Authentic(rt, c.configuration, Send(rt, c, e, now).client.sent)
  {
    var o := Send(rt, c, e, now);
    if |o.client.sent| > |c.sent| {
      SendSignsWireBytes(rt, c, e, now);
      forall i | 0 <= i < |o.client.sent|
        ensures Accepts(rt, c.configuration.publicKey, c.configuration.secretKey,
                        o.client.sent[i].authHeader, o.client.sent[i].body)
      {
        if i < |c.sent| {
          assert o.client.sent[i] == o.client.sent[..|c.sent|][i];
        }
      }
    } else {
      assert o.client.sent == o.client.sent[..|c.sent|];
    }
  }

  /**
   * One transport per client lifetime: nothing is sent before a transport is
   * cached, and everything sent went through the cached one.
   */
  ghost predicate OneTransport(c: Client)
  {
    match c.transport
    case None => c.sent == []
    case Some(kind) => forall i :: 0 <= i < |c.sent| ==> c.sent[i].kind == kind
  }

  lemma SendPreservesOneTransport(rt: Runtime, c: Client, e: Event, now: int)
    requires OneTransport(c)
    ensures OneTransport(Send(rt, c, e, now).client)
  {
    var o := Send(rt, c, e, now);
    if o.client.transport.Some? {
      var kind := o.client.transport.value;
      forall i | 0 <= i < |o.client.sent|
        ensures o.client.sent[i].kind == kind
      {
        if i < |c.sent| {
          assert o.client.sent[i] == o.client.sent[..|c.sent|][i];
        }
      }
    }
  }

  lemma ReconfigurePreservesOneTransport(c: Client, cfg: Config)
    requires OneTransport(c)
    ensures OneTransport(WithConfiguration(c, cfg))
  {
  }

  /** A cached transport survives a change of configuration, scheme included. */
  lemma MemoIgnoresNewScheme(c: Client, cfg: Config)
    requires c.transport.Some?
    ensures Resolve(WithConfiguration(c, cfg)).1 == Ok(c.transport.value)
  {
  }

  /** Resolving twice gives what resolving once gives; a failure is raised again. */
  lemma ResolveIdempotent(c: Client)
    ensures Resolve(Resolve(c).0) == Resolve(c)
  {
  }
}
