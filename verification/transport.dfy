/**
 * Connection setup and the plain/TLS stream wrapper (src/ws.rs). DNS, TCP,
 * TLS and the WebSocket handshake are outside the model: `init` receives
 * them as a `Network` of oracles and is modelled as the fixed order in which
 * it consults them. The result records every fallible step it attempted.
 */
module Transport {
  import opened Wrappers
  import opened Utf8
  import opened Messages

  /** What the URL library reports: the scheme, `host_str()` and `port_or_known_default()`. */
  datatype Url = Url(scheme: string, host: Option<string>, port: Option<nat>)

  datatype SocketAddr = SocketAddr(ip: bytes, port: nat)
  datatype Certificate = Certificate(der: bytes)
  datatype TcpStream = TcpStream(peer: SocketAddr)
  datatype TlsStream = TlsStream(domain: string, tcp: TcpStream, root: Certificate)
  /** A stream on which the WebSocket handshake for `url` completed. */
  datatype WebSocketStream<S> = WebSocketStream(inner: S, url: Url)

  /** The wrapper `init` returns: one variant per transport. */
  datatype WsStream<P, T> = Plain(plain: P) | Tls(tls: T)

  type Connection = WsStream<WebSocketStream<TcpStream>, WebSocketStream<TlsStream>>

  /** The fallible steps of `init`. */
  datatype Step =
    | HostStep       // the URL has a host
    | PortStep       // the URL has a port or its scheme a default one
    | ResolveStep    // name resolution
    | AddressStep    // resolution gave at least one address
    | SchemeStep     // the scheme is "ws" or "wss"
    | CertStep       // a certificate was supplied
    | PemStep        // the certificate parses as PEM
    | ConnectStep    // TCP connect
    | TlsStep        // TLS handshake
    | HandshakeStep  // WebSocket handshake

  /** The step that failed and its message. */
  datatype SetupError = SetupError(step: Step, detail: string)

  /** The outside world as `init` sees it. */
  datatype Network = Network(
    resolve: (string, nat) -> Result<seq<SocketAddr>, string>,
    connect: SocketAddr -> Result<TcpStream, string>,
    fromPem: bytes -> Result<Certificate, string>,
    tlsConnect: (string, TcpStream, Certificate) -> Result<TlsStream, string>,
    handshakePlain: (Url, TcpStream) -> Result<WebSocketStream<TcpStream>, string>,
    handshakeTls: (Url, TlsStream) -> Result<WebSocketStream<TlsStream>, string>)

  /** The result of `init`, and the steps it attempted, in order, including the one that failed. */
  datatype Attempt = Attempt(result: Result<Connection, SetupError>, attempted: seq<Step>)

  const CommonSteps := [HostStep, PortStep, ResolveStep, AddressStep, SchemeStep]

  /** Every step `init` runs, in order, when none fails. */
  function Plan(scheme: string): seq<Step>
  {
    if scheme == "ws" then CommonSteps + [ConnectStep, HandshakeStep]
    else if scheme == "wss" then CommonSteps + [CertStep, PemStep, ConnectStep, TlsStep, HandshakeStep]
    else CommonSteps
  }

  function Fail(done: seq<Step>, step: Step, detail: string): Attempt
  {
    Attempt(Err(SetupError(step, detail)), done + [step])
  }

  /** The steps for a "ws" URL, once the address is known. */
  function ConnectPlain(url: Url, addr: SocketAddr, net: Network, done: seq<Step>): (a: Attempt)
    ensures |done| < |a.attempted| && a.attempted <= done + [ConnectStep, HandshakeStep]
    ensures a.result.Err? ==> a.result.error.step == a.attempted[|a.attempted| - 1]
    ensures a.result.Ok? ==> a.attempted == done + [ConnectStep, HandshakeStep] && a.result.value.Plain?
    // a failed connect is reported with its own error, and nothing follows it
    ensures net.connect(addr).Err? ==> a.result == Err(SetupError(ConnectStep, net.connect(addr).error))
    // after a connect, the handshake decides: its error, or the plain variant around its stream
    ensures net.connect(addr).Ok? ==>
      var hs := net.handshakePlain(url, net.connect(addr).value);
      && (hs.Err? ==> a.result == Err(SetupError(HandshakeStep, hs.error)))
      && (hs.Ok? ==> a.result == Ok(Plain(hs.value)))
  {
    match net.connect(addr)
    case Err(e) => Fail(done, ConnectStep, e)
    case Ok(tcp) =>
      match net.handshakePlain(url, tcp)
      case Err(e) => Fail(done + [ConnectStep], HandshakeStep, e)
      case Ok(ws) => Attempt(Ok(Plain(ws)), done + [ConnectStep, HandshakeStep])
  }

  /** The steps for a "wss" URL, once the address is known. */
  function ConnectTls(url: Url, host: string, addr: SocketAddr, cert: Option<bytes>, net: Network, done: seq<Step>): (a: Attempt)
    ensures |done| < |a.attempted| && a.attempted <= done + [CertStep, PemStep, ConnectStep, TlsStep, HandshakeStep]
    ensures a.result.Err? ==> a.result.error.step == a.attempted[|a.attempted| - 1]
    ensures a.result.Ok? ==> a.attempted == done + [CertStep, PemStep, ConnectStep, TlsStep, HandshakeStep] && a.result.value.Tls?
    // each step that fails is reported with its own error
    ensures cert.None? ==> a.result == Err(SetupError(CertStep, "No certificate found for tls"))
    ensures cert.Some? && net.fromPem(cert.value).Err? ==> a.result == Err(SetupError(PemStep, net.fromPem(cert.value).error))
    ensures cert.Some? && net.fromPem(cert.value).Ok? && net.connect(addr).Err? ==>
      a.result == Err(SetupError(ConnectStep, net.connect(addr).error))
    ensures cert.Some? && net.fromPem(cert.value).Ok? && net.connect(addr).Ok? ==>
      var tls := net.tlsConnect(host, net.connect(addr).value, net.fromPem(cert.value).value);
      && (tls.Err? ==> a.result == Err(SetupError(TlsStep, tls.error)))
      && (tls.Ok? ==>
            var hs := net.handshakeTls(url, tls.value);
            && (hs.Err? ==> a.result == Err(SetupError(HandshakeStep, hs.error)))
            && (hs.Ok? ==> a.result == Ok(Tls(hs.value))))
  {
    match cert
    case None => Fail(done, CertStep, "No certificate found for tls")
    case Some(pem) =>
      match net.fromPem(pem)
      case Err(e) => Fail(done + [CertStep], PemStep, e)
      case Ok(root) =>
        var done := done + [CertStep, PemStep];
        match net.connect(addr)
        case Err(e) => Fail(done, ConnectStep, e)
        case Ok(tcp) =>
          match net.tlsConnect(host, tcp, root)
          case Err(e) => Fail(done + [ConnectStep], TlsStep, e)
          case Ok(tls) =>
            match net.handshakeTls(url, tls)
            case Err(e) => Fail(done + [ConnectStep, TlsStep], HandshakeStep, e)
            case Ok(ws) => Attempt(Ok(Tls(ws)), done + [ConnectStep, TlsStep, HandshakeStep])
  }

  /**
   * `init`: the steps run in `Plan` order and stop at the first failure, which
   * is the last step attempted; success runs the whole plan, and gives `Plain`
   * exactly for "ws" and `Tls` exactly for "wss".
   */
  function Init(url: Url, cert: Option<bytes>, net: Network): (a: Attempt)
    ensures 0 < |a.attempted| && a.attempted <= Plan(url.scheme)
    ensures a.result.Err? ==> a.result.error.step == a.attempted[|a.attempted| - 1]
    ensures a.result.Ok? ==> a.attempted == Plan(url.scheme)
    ensures a.result.Ok? ==> (url.scheme == "ws" && a.result.value.Plain?) || (url.scheme == "wss" && a.result.value.Tls?)
    // the URL checks and name resolution fail with their own errors, in this order
    ensures url.host.None? ==> a.result == Err(SetupError(HostStep, "Can't parse host"))
    ensures url.host.Some? && url.port.None? ==> a.result == Err(SetupError(PortStep, "Can't guess port"))
    ensures url.host.Some? && url.port.Some? ==>
      var res := net.resolve(url.host.value, url.port.value);
      && (res.Err? ==> a.result == Err(SetupError(ResolveStep, res.error)))
      && (res.Ok? && |res.value| == 0 ==> a.result == Err(SetupError(AddressStep, "cannot resolve address")))
      && (res.Ok? && |res.value| > 0 && url.scheme != "ws" && url.scheme != "wss" ==>
            a.result == Err(SetupError(SchemeStep, "unsupported scheme")))
  {
    if url.host.None? then Fail([], HostStep, "Can't parse host")
    else if url.port.None? then Fail([HostStep], PortStep, "Can't guess port")
    else
      var host := url.host.value;
      match net.resolve(host, url.port.value)
      case Err(e) => Fail([HostStep, PortStep], ResolveStep, e)
      case Ok(addrs) =>
        if |addrs| == 0 then Fail([HostStep, PortStep, ResolveStep], AddressStep, "cannot resolve address")
        else if url.scheme == "ws" then ConnectPlain(url, addrs[0], net, CommonSteps)
        else if url.scheme == "wss" then ConnectTls(url, host, addrs[0], cert, net, CommonSteps)
        else Fail([HostStep, PortStep, ResolveStep, AddressStep], SchemeStep, "unsupported scheme")
  }

  /** A missing host or port fails before any name resolution. */
  lemma NoHostOrPortNoResolve(url: Url, cert: Option<bytes>, net: Network)
    requires url.host.None? || url.port.None?
    ensures Init(url, cert, net).result.Err?
    ensures ResolveStep !in Init(url, cert, net).attempted
  {
  }

  /** A resolution failure, or no address, fails before the scheme is looked at or anything is connected. */
  lemma ResolveFailureNoConnect(url: Url, cert: Option<bytes>, net: Network)
    requires url.host.Some? && url.port.Some?
    requires var res := net.resolve(url.host.value, url.port.value); res.Err? || |res.value| == 0
    ensures Init(url, cert, net).result.Err?
    ensures SchemeStep !in Init(url, cert, net).attempted && ConnectStep !in Init(url, cert, net).attempted
  {
  }

  /**
   * Once a "ws" URL resolves, the first address decides: a failed connect or
   * handshake fails `init` with that step's own error, and when both succeed
   * `init` returns the plain variant around the handshake's stream.
   */
  lemma InitWsOutcome(url: Url, cert: Option<bytes>, net: Network, addrs: seq<SocketAddr>)
    requires url.scheme == "ws" && url.host.Some? && url.port.Some?
    requires net.resolve(url.host.value, url.port.value) == Ok(addrs) && 0 < |addrs|
    ensures var c := net.connect(addrs[0]);
      c.Err? ==> Init(url, cert, net).result == Err(SetupError(ConnectStep, c.error))
    ensures var c := net.connect(addrs[0]);
      c.Ok? && net.handshakePlain(url, c.value).Err? ==>
        Init(url, cert, net).result == Err(SetupError(HandshakeStep, net.handshakePlain(url, c.value).error))
    ensures var c := net.connect(addrs[0]);
      c.Ok? && net.handshakePlain(url, c.value).Ok? ==>
        Init(url, cert, net).result == Ok(Plain(net.handshakePlain(url, c.value).value))
  {
  }

  /**
   * Once a "wss" URL resolves, the certificate, its PEM parse, the connect to
   * the first address, the TLS handshake with the URL's host and the WebSocket
   * handshake are tried in that order; the first to fail fails `init` with
   * its own error, and when all succeed `init` returns the TLS variant around
   * the handshake's stream.
   */
  lemma InitWssOutcome(url: Url, cert: Option<bytes>, net: Network, addrs: seq<SocketAddr>)
    requires url.scheme == "wss" && url.host.Some? && url.port.Some?
    requires net.resolve(url.host.value, url.port.value) == Ok(addrs) && 0 < |addrs|
    ensures cert.None? ==> Init(url, cert, net).result == Err(SetupError(CertStep, "No certificate found for tls"))
    ensures cert.Some? && net.fromPem(cert.value).Err? ==>
      Init(url, cert, net).result == Err(SetupError(PemStep, net.fromPem(cert.value).error))
    ensures cert.Some? && net.fromPem(cert.value).Ok? && net.connect(addrs[0]).Err? ==>
      Init(url, cert, net).result == Err(SetupError(ConnectStep, net.connect(addrs[0]).error))
    ensures cert.Some? && net.fromPem(cert.value).Ok? && net.connect(addrs[0]).Ok? ==>
      var tls := net.tlsConnect(url.host.value, net.connect(addrs[0]).value, net.fromPem(cert.value).value);
      && (tls.Err? ==> Init(url, cert, net).result == Err(SetupError(TlsStep, tls.error)))
      && (tls.Ok? && net.handshakeTls(url, tls.value).Err? ==>
            Init(url, cert, net).result == Err(SetupError(HandshakeStep, net.handshakeTls(url, tls.value).error)))
      && (tls.Ok? && net.handshakeTls(url, tls.value).Ok? ==>
            Init(url, cert, net).result == Ok(Tls(net.handshakeTls(url, tls.value).value)))
  {
  }

  /** A "ws" URL never attempts TLS, and succeeds only with the plain variant. */
  lemma {:induction false} WsNeverTls(url: Url, cert: Option<bytes>, net: Network)
    requires url.scheme == "ws"
    ensures TlsStep !in Init(url, cert, net).attempted && CertStep !in Init(url, cert, net).attempted
    ensures Init(url, cert, net).result.Ok? ==> Init(url, cert, net).result.value.Plain?
  {
    var a := Init(url, cert, net);
    assert forall i :: 0 <= i < |a.attempted| ==> a.attempted[i] == Plan(url.scheme)[i];
  }

  /** A "wss" URL without a certificate never connects; once the address is known it fails at the certificate step. */
  lemma {:induction false} WssWithoutCertNoConnect(url: Url, net: Network)
    requires url.scheme == "wss"
    ensures ConnectStep !in Init(url, None, net).attempted
    ensures Init(url, None, net).result.Err?
    ensures AddressStep in Init(url, None, net).attempted && Init(url, None, net).result.error.step != AddressStep ==>
      Init(url, None, net).result.error == SetupError(CertStep, "No certificate found for tls")
  {
    var a := Init(url, None, net);
    assert forall i :: 0 <= i < |a.attempted| ==> a.attempted[i] == Plan(url.scheme)[i];
  }

  /** A prefix of `plan` that contains the step only `plan`'s last position holds is all of `plan`. */
  lemma {:induction false} PrefixReachingLast(done: seq<Step>, plan: seq<Step>, last: Step)
    requires done <= plan && last in done
    requires forall i :: 0 <= i < |plan| - 1 ==> plan[i] != last
    ensures done == plan
  {
    var k :| 0 <= k < |done| && done[k] == last;
    assert plan[k] == last;
  }

  /**
   * For "wss", the WebSocket handshake runs only after the TCP connect and the
   * TLS handshake both succeeded, and success is the TLS variant.
   */
  lemma {:induction false} WssHandshakeAfterTls(url: Url, cert: Option<bytes>, net: Network)
    requires url.scheme == "wss"
    requires HandshakeStep in Init(url, cert, net).attempted
    ensures var a := Init(url, cert, net);
      && a.attempted == Plan("wss")
      && a.attempted[|a.attempted| - 3 ..] == [ConnectStep, TlsStep, HandshakeStep]
      && (a.result.Err? ==> a.result.error.step == HandshakeStep)
      && (a.result.Ok? ==> a.result.value.Tls?)
  {
    var a := Init(url, cert, net);
    PrefixReachingLast(a.attempted, Plan("wss"), HandshakeStep);
  }

  /** Any scheme but "ws" and "wss" never connects; once the address is known it fails as unsupported. */
  lemma {:induction false} OtherSchemeRejected(url: Url, cert: Option<bytes>, net: Network)
    requires url.scheme != "ws" && url.scheme != "wss"
    ensures Init(url, cert, net).result.Err?
    ensures ConnectStep !in Init(url, cert, net).attempted
    ensures AddressStep in Init(url, cert, net).attempted && Init(url, cert, net).result.error.step != AddressStep ==>
      Init(url, cert, net).result.error == SetupError(SchemeStep, "unsupported scheme")
  {
    var a := Init(url, cert, net);
    assert forall i :: 0 <= i < |a.attempted| ==> a.attempted[i] == CommonSteps[i];
  }

  // ------------------------------------------------------------ forwarding

  /** The operations of the `Sink<Message>` and `Stream` implementations. */
  datatype Op = PollReady | StartSend(item: Message) | PollFlush | PollClose | PollNext

  datatype Poll<T> = Ready(value: T) | Pending

  /** What an operation answers. */
  datatype Reply =
    | Readiness(poll: Poll<Result<(), string>>)          // poll_ready, poll_flush, poll_close
    | Started(sent: Result<(), string>)                  // start_send
    | Next(next: Poll<Option<Result<Message, string>>>)  // poll_next

  /**
   * One `Sink`/`Stream` call on the wrapper: it is handed to the stream of the
   * variant it was made on, which keeps its variant, and the answer is that
   * stream's answer.
   */
  function Forward<P, T>(s: WsStream<P, T>, op: Op, plain: (P, Op) -> (P, Reply), tls: (T, Op) -> (T, Reply)): (r: (WsStream<P, T>, Reply))
    ensures r.0.Plain? <==> s.Plain?
    ensures s.Plain? ==> (r.0.plain, r.1) == plain(s.plain, op)
    ensures s.Tls? ==> (r.0.tls, r.1) == tls(s.tls, op)
  {
    match s
    case Plain(p) => var (p', reply) := plain(p, op); (Plain(p'), reply)
    case Tls(t) => var (t', reply) := tls(t, op); (Tls(t'), reply)
  }

  /** A sequence of calls on the wrapper: the final wrapper and the answers. */
  function RunOps<P, T>(s: WsStream<P, T>, ops: seq<Op>, plain: (P, Op) -> (P, Reply), tls: (T, Op) -> (T, Reply)): (WsStream<P, T>, seq<Reply>)
    decreases |ops|
  {
    if |ops| == 0 then (s, [])
    else
      var (s', reply) := Forward(s, ops[0], plain, tls);
      var (final, replies) := RunOps(s', ops[1..], plain, tls);
      (final, [reply] + replies)
  }

  /** A sequence of calls made directly on one underlying stream. */
  function RunInner<S>(s: S, ops: seq<Op>, step: (S, Op) -> (S, Reply)): (S, seq<Reply>)
    decreases |ops|
  {
    if |ops| == 0 then (s, [])
    else
      var (s', reply) := step(s, ops[0]);
      var (final, replies) := RunInner(s', ops[1..], step);
      (final, [reply] + replies)
  }

  /**
   * However many calls are made, the wrapper never changes variant, and it
   * answers exactly as the underlying plain or TLS stream would on its own.
   */
  lemma {:induction false} ForwardingPreservesVariant<P, T>(s: WsStream<P, T>, ops: seq<Op>, plain: (P, Op) -> (P, Reply), tls: (T, Op) -> (T, Reply))
    ensures RunOps(s, ops, plain, tls).0.Plain? <==> s.Plain?
    ensures s.Plain? ==>
      var inner := RunInner(s.plain, ops, plain);
      RunOps(s, ops, plain, tls) == (Plain(inner.0), inner.1)
    ensures s.Tls? ==>
      var inner := RunInner(s.tls, ops, tls);
      RunOps(s, ops, plain, tls) == (Tls(inner.0), inner.1)
    decreases |ops|
  {
    if |ops| > 0 {
      var (s', _) := Forward(s, ops[0], plain, tls);
      ForwardingPreservesVariant(s', ops[1..], plain, tls);
    }
  }
}
