/** The client's handshake machine up to TLS 1.2. */
module ClientHandshake {
  import opened Wrappers
  import opened Handshake

  datatype State =
    | StartConnect | EnterEarlyData | ReadHelloVerifyRequest | ReadServerHello
    | ReadServerCertificate | ReadCertificateStatus | VerifyServerCertificate
    | ReadServerKeyExchange | ReadCertificateRequest | ReadServerHelloDone
    | SendClientCertificate | SendClientKeyExchange | SendClientCertificateVerify
    | SendClientFinished | FinishFlight
    | ReadSessionTicket | ProcessChangeCipherSpec | ReadServerFinished
    | FinishClientHandshake | Done

  /** `falseStart` is the mode; `alpn` says that a protocol was selected or is not needed for it. */
  datatype Config = Config(dtls: bool, tls12: bool, falseStart: bool, alpn: bool)

  /** What callbacks, the peer's message bodies and the local resources come to in one handler call. */
  datatype Env = Env(
    ok: bool, sessionUsable: bool, verify: VerifyResult, signatureOk: bool,
    lookup: VerifyResult, hasCertificate: bool)

  datatype Client = Client(
    state: State, cfg: Config, offered: bool, resumed: bool, params: Params, certRequest: bool,
    ticketExpected: bool, readChanged: bool, writeChanged: bool,
    canEarlyWrite: bool, checks: set<Check>, io: Io)

  function NewClient(cfg: Config): Client {
    Client(StartConnect, cfg, false, false, NO_PARAMS, false, false, false, false, false, {}, NEW_IO)
  }

  // ----- What holds in every state -----

  /** How far the machine is; every handler that moves it on moves it forward. */
  function Rank(c: Client): (r: nat)
    ensures r <= 19
  {
    match c.state
    case StartConnect => 0
    case EnterEarlyData => 1
    case ReadHelloVerifyRequest => 2
    case ReadServerHello => 3
    case ReadServerCertificate => 4
    case ReadCertificateStatus => 5
    case VerifyServerCertificate => 6
    case ReadServerKeyExchange => 7
    case ReadCertificateRequest => 8
    case ReadServerHelloDone => 9
    case SendClientCertificate => 10
    case SendClientKeyExchange => 11
    case SendClientCertificateVerify => 12
    case ReadSessionTicket => if c.resumed then 4 else 15
    case ProcessChangeCipherSpec => if c.resumed then 5 else 16
    case ReadServerFinished => if c.resumed then 6 else 17
    case SendClientFinished => 13
    case FinishFlight => 14
    case FinishClientHandshake => 18
    case Done => 19
  }

  /** The states only a full handshake goes through. */
  predicate FullOnly(state: State) {
    || state.ReadServerCertificate? || state.ReadCertificateStatus? || state.VerifyServerCertificate?
    || state.ReadServerKeyExchange? || state.ReadCertificateRequest? || state.ReadServerHelloDone?
    || state.SendClientCertificate? || state.SendClientKeyExchange? || state.SendClientCertificateVerify?
  }

  predicate Placed(c: Client) {
    FullOnly(c.state) ==> !c.resumed
  }

  predicate CanFalseStart(c: Client) {
    !c.cfg.dtls && c.cfg.tls12 && c.params.kex == EcdheExchange && c.params.aead && (c.cfg.alpn || c.params.npn)
  }

  /** What has been checked by the time a state is reached. */
  predicate Safe(c: Client) {
    && Placed(c)
    && (PeerFinished in c.checks ==> c.readChanged)
    && (c.state.FinishClientHandshake? || c.state.Done? || (c.resumed && Rank(c) >= 13) ==> PeerFinished in c.checks)
    && (c.state.ReadServerFinished? ==> c.readChanged)
    && (!c.resumed && Rank(c) >= 7 && c.params.auth == CertificateAuth ==> ChainVerified in c.checks)
    && (!c.resumed && Rank(c) >= 8 && c.params.auth == CertificateAuth && c.params.kex == EcdheExchange ==>
          KeyExchangeSigned in c.checks)
    && (c.canEarlyWrite <==>
          (!c.resumed && Rank(c) >= 15 && c.cfg.falseStart && !c.cfg.dtls && c.cfg.tls12
            && c.params.kex == EcdheExchange && c.params.aead && (c.cfg.alpn || c.params.npn)))
    && (c.state.StartConnect? ==> c.io.transcript == [])
    && (1 <= Rank(c) <= 3 ==> c.io.transcript == [ClientHello(c.offered)])
    && (Rank(c) <= 3 ==> !c.resumed)
    && (Rank(c) >= 4 ==> (c.resumed <==> c.offered && c.params.echoed))
    && (c.writeChanged <==> (c.resumed && Rank(c) >= 18) || c.state.FinishFlight? || (!c.resumed && Rank(c) >= 15))
    && (c.readChanged <==> (if c.resumed then Rank(c) >= 6 else Rank(c) >= 17))
  }

  /** The flight has room for what is still to be added before the next flush. */
  predicate FlightFits(c: Client) {
    && |c.io.flight| <= MAX_FLIGHT
    && (match c.state
        case SendClientCertificate => c.io.Pending() == 0
        case SendClientKeyExchange => c.io.Pending() <= 1
        case SendClientCertificateVerify => c.io.Pending() <= 2
        case SendClientFinished => c.io.Pending() <= 3
        case _ => c.io.flushed)
  }

  function Flushed(o: Outcome<Client>): Client
    requires o.Next?
  {
    if o.flush then o.hs.(io := o.hs.io.Flush()) else o.hs
  }

  predicate Good(c: Client) {
    Safe(c) && FlightFits(c)
  }

  /** A handler that moves the machine on moves it forward, and keeps it good once the flight is flushed. */
  predicate Improves(c: Client, o: Outcome<Client>) {
    o.Next? ==> Rank(c) < Rank(o.hs) && o.hs.cfg == c.cfg && Good(Flushed(o))
  }

  // ----- Handlers -----

  function AfterStartConnect(c: Client, env: Env): (o: Outcome<Client>)
    ensures Good(c) && c.state == StartConnect ==> Improves(c, o)
  {
    if !env.ok then Failed else
    Next(c.(state := EnterEarlyData, offered := env.sessionUsable, io := c.io.Say(ClientHello(env.sessionUsable))), true, false)
  }

  function AfterEnterEarlyData(c: Client): (o: Outcome<Client>)
    ensures Good(c) && c.state == EnterEarlyData ==> Improves(c, o)
  {
    Goes(c.(state := if c.cfg.dtls then ReadHelloVerifyRequest else ReadServerHello))
  }

  function AfterReadHelloVerifyRequest(c: Client, m: Msg, env: Env): (o: Outcome<Client>)
    ensures Good(c) && c.state == ReadHelloVerifyRequest ==> Improves(c, o)
  {
    if !m.HelloVerifyRequest? then Goes(c.(state := ReadServerHello))
    else if !env.ok then Failed
    else
      var io := c.io.Take().(transcript := []);
      Next(c.(state := ReadServerHello, io := io.Say(ClientHello(c.offered))), true, false)
  }

  function AfterReadServerHello(c: Client, m: Msg, env: Env): (o: Outcome<Client>)
    ensures Good(c) && c.state == ReadServerHello ==> Improves(c, o)
  {
    if !m.ServerHello? || !env.ok then Failed
    else
      var resumed := c.offered && m.params.echoed;
      Goes(c.(state := if resumed then ReadSessionTicket else ReadServerCertificate, resumed := resumed,
              params := m.params, ticketExpected := m.params.ticket, io := c.io.Hear(m)))
  }

  function AfterReadServerCertificate(c: Client, m: Msg, env: Env): (o: Outcome<Client>)
    ensures Good(c) && c.state == ReadServerCertificate ==> Improves(c, o)
  {
    if !m.Certificate? || m.count == 0 || !env.ok then Failed
    else Goes(c.(state := ReadCertificateStatus, io := c.io.Hear(m)))
  }

  /** The server may change its mind about sending the status. */
  function AfterReadCertificateStatus(c: Client, m: Msg, env: Env): (o: Outcome<Client>)
    ensures Good(c) && c.state == ReadCertificateStatus ==> Improves(c, o)
  {
    if !m.CertificateStatus? then Goes(c.(state := VerifyServerCertificate))
    else if !env.ok then Failed
    else Goes(c.(state := VerifyServerCertificate, io := c.io.Hear(m)))
  }

  function AfterVerifyServerCertificate(c: Client, env: Env): (o: Outcome<Client>)
    ensures Good(c) && c.state == VerifyServerCertificate ==> Improves(c, o)
  {
    if c.params.auth != CertificateAuth then Goes(c.(state := ReadServerKeyExchange))
    else
      match env.verify
      case VerifyOk => Goes(c.(state := ReadServerKeyExchange, checks := c.checks + {ChainVerified}))
      case VerifyInvalid => Failed
      case VerifyRetry => Paused
  }

  function AfterReadServerKeyExchange(c: Client, m: Msg, env: Env): (o: Outcome<Client>)
    ensures Good(c) && c.state == ReadServerKeyExchange ==> Improves(c, o)
  {
    if !m.ServerKeyExchange? then
      if c.params.kex == EcdheExchange then Failed else Goes(c.(state := ReadCertificateRequest))
    else if c.params.kex == RsaExchange || !env.ok then Failed
    else if c.params.auth == CertificateAuth then
      if !env.signatureOk then Failed
      else Goes(c.(state := ReadCertificateRequest, checks := c.checks + {KeyExchangeSigned}, io := c.io.Hear(m)))
    else Goes(c.(state := ReadCertificateRequest, io := c.io.Hear(m)))
  }

  function AfterReadCertificateRequest(c: Client, m: Msg, env: Env): (o: Outcome<Client>)
    ensures Good(c) && c.state == ReadCertificateRequest ==> Improves(c, o)
  {
    if m.ServerHelloDone? then Goes(c.(state := ReadServerHelloDone))
    else if !m.CertificateRequest? || !env.ok then Failed
    else Goes(c.(state := ReadServerHelloDone, certRequest := true, io := c.io.Hear(m)))
  }

  function AfterReadServerHelloDone(c: Client, m: Msg, env: Env): (o: Outcome<Client>)
    ensures Good(c) && c.state == ReadServerHelloDone ==> Improves(c, o)
  {
    if !m.ServerHelloDone? || !env.ok then Failed
    else Goes(c.(state := SendClientCertificate, io := c.io.Hear(m)))
  }

  /** Without a certificate an empty chain is sent. */
  function AfterSendClientCertificate(c: Client, env: Env): (o: Outcome<Client>)
    ensures Good(c) && c.state == SendClientCertificate ==> Improves(c, o)
  {
    if !c.certRequest then Goes(c.(state := SendClientKeyExchange))
    else
      match env.lookup
      case VerifyInvalid => Failed
      case VerifyRetry => Paused
      case VerifyOk =>
        if !env.ok then Failed
        else Goes(c.(state := SendClientKeyExchange, io := c.io.Say(Certificate(if env.hasCertificate then 1 else 0))))
  }

  function AfterSendClientKeyExchange(c: Client, env: Env): (o: Outcome<Client>)
    ensures Good(c) && c.state == SendClientKeyExchange ==> Improves(c, o)
  {
    if !env.ok then Failed
    else Goes(c.(state := SendClientCertificateVerify, io := c.io.Say(ClientKeyExchange)))
  }

  function AfterSendClientCertificateVerify(c: Client, env: Env): (o: Outcome<Client>)
    ensures Good(c) && c.state == SendClientCertificateVerify ==> Improves(c, o)
  {
    if !c.certRequest || !env.hasCertificate then Goes(c.(state := SendClientFinished))
    else
      match env.lookup
      case VerifyInvalid => Failed
      case VerifyRetry => Paused
      case VerifyOk =>
        if !env.ok then Failed
        else Goes(c.(state := SendClientFinished, io := c.io.Say(CertificateVerify)))
  }

  function AfterSendClientFinished(c: Client, env: Env): (o: Outcome<Client>)
    ensures Good(c) && c.state == SendClientFinished ==> Improves(c, o)
  {
    if c.params.channelId && env.lookup == VerifyInvalid then Failed
    else if c.params.channelId && env.lookup == VerifyRetry then Paused
    else if !env.ok then Failed
    else
      var io := c.io.Add(ChangeCipherSpec).SayIf(c.params.npn, NextProto).SayIf(c.params.channelId, ChannelId);
      Next(c.(state := FinishFlight, writeChanged := true, io := io.Say(Finished(false, io.transcript))), true, false)
  }

  function AfterFinishFlight(c: Client, env: Env): (o: Outcome<Client>)
    ensures Good(c) && c.state == FinishFlight ==> Improves(c, o)
  {
    if !env.ok && !c.resumed then Failed
    else
      var early := !c.resumed && c.cfg.falseStart && CanFalseStart(c);
      var next := if c.resumed then FinishClientHandshake else ReadSessionTicket;
      Next(c.(state := next, canEarlyWrite := early), false, early)
  }

  function AfterReadSessionTicket(c: Client, m: Msg, env: Env): (o: Outcome<Client>)
    ensures Good(c) && c.state == ReadSessionTicket ==> Improves(c, o)
  {
    if !m.NewSessionTicket? || !env.ok then Failed
    else Goes(c.(state := ProcessChangeCipherSpec, ticketExpected := !m.empty, io := c.io.Hear(m)))
  }

  function AfterProcessChangeCipherSpec(c: Client, env: Env): (o: Outcome<Client>)
    ensures Good(c) && c.state == ProcessChangeCipherSpec ==> Improves(c, o)
  {
    if !env.ok then Failed
    else Goes(c.(state := ReadServerFinished, readChanged := true, io := c.io.Take()))
  }

  function AfterReadServerFinished(c: Client, m: Msg, env: Env): (o: Outcome<Client>)
    ensures Good(c) && c.state == ReadServerFinished ==> Improves(c, o)
  {
    if m != Finished(true, c.io.transcript) || !env.ok then Failed
    else Goes(c.(state := if c.resumed then SendClientFinished else FinishClientHandshake,
                 checks := c.checks + {PeerFinished}, io := c.io.Hear(m)))
  }

  function AfterFinishClientHandshake(c: Client, env: Env): (o: Outcome<Client>)
    ensures Good(c) && c.state == FinishClientHandshake ==> Improves(c, o)
  {
    if !env.ok then Failed else Goes(c.(state := Done))
  }

  // ----- The machine -----

  /** The states whose handler asks for the next message. */
  predicate WantsMessage(c: Client) {
    match c.state
    case ReadHelloVerifyRequest => true
    case ReadServerHello => true
    case ReadServerCertificate => c.params.auth == CertificateAuth
    case ReadCertificateStatus => c.params.status
    case ReadServerKeyExchange => true
    case ReadCertificateRequest => c.params.auth == CertificateAuth
    case ReadServerHelloDone => true
    case ReadSessionTicket => c.ticketExpected
    case ReadServerFinished => true
    case _ => false
  }

  /** A message that is not due is not waited for. */
  function AfterSkip(c: Client): (o: Outcome<Client>)
    requires c.state.ReadServerCertificate? || c.state.ReadCertificateStatus? || c.state.ReadCertificateRequest?
        || c.state.ReadSessionTicket?
    ensures Good(c) && !WantsMessage(c) ==> Improves(c, o)
  {
    match c.state
    case ReadServerCertificate => Goes(c.(state := ReadCertificateStatus))
    case ReadCertificateStatus => Goes(c.(state := VerifyServerCertificate))
    case ReadCertificateRequest => Goes(c.(state := ReadServerHelloDone))
    case ReadSessionTicket => Goes(c.(state := ProcessChangeCipherSpec))
  }

  function OnMessage(c: Client, m: Msg, env: Env): (o: Outcome<Client>)
    requires WantsMessage(c)
    ensures Good(c) ==> Improves(c, o)
  {
    match c.state
    case ReadHelloVerifyRequest => AfterReadHelloVerifyRequest(c, m, env)
    case ReadServerHello => AfterReadServerHello(c, m, env)
    case ReadServerCertificate => AfterReadServerCertificate(c, m, env)
    case ReadCertificateStatus => AfterReadCertificateStatus(c, m, env)
    case ReadServerKeyExchange => AfterReadServerKeyExchange(c, m, env)
    case ReadCertificateRequest => AfterReadCertificateRequest(c, m, env)
    case ReadServerHelloDone => AfterReadServerHelloDone(c, m, env)
    case ReadSessionTicket => AfterReadSessionTicket(c, m, env)
    case ReadServerFinished => AfterReadServerFinished(c, m, env)
  }

  function OnNothing(c: Client, env: Env): (o: Outcome<Client>)
    requires !WantsMessage(c) && !c.state.ProcessChangeCipherSpec? && c.state != Done
    ensures Good(c) ==> Improves(c, o)
  {
    match c.state
    case StartConnect => AfterStartConnect(c, env)
    case EnterEarlyData => AfterEnterEarlyData(c)
    case ReadServerCertificate => AfterSkip(c)
    case ReadCertificateStatus => AfterSkip(c)
    case VerifyServerCertificate => AfterVerifyServerCertificate(c, env)
    case ReadCertificateRequest => AfterSkip(c)
    case SendClientCertificate => AfterSendClientCertificate(c, env)
    case SendClientKeyExchange => AfterSendClientKeyExchange(c, env)
    case SendClientCertificateVerify => AfterSendClientCertificateVerify(c, env)
    case SendClientFinished => AfterSendClientFinished(c, env)
    case FinishFlight => AfterFinishFlight(c, env)
    case ReadSessionTicket => AfterSkip(c)
    case FinishClientHandshake => AfterFinishClientHandshake(c, env)
  }

  /** One handler call. `head` is what the record layer has next, if anything; a message where a
      ChangeCipherSpec is due, or the other way round, fails the handshake. */
  function Handle(c: Client, head: Option<Item>, env: Env): (o: Outcome<Client>)
    requires c.state != Done
    ensures Good(c) ==> Improves(c, o)
  {
    if WantsMessage(c) then
      match head
      case None => Blocked
      case Some(ChangeCipherSpec) => Failed
      case Some(Handshake(m)) => OnMessage(c, m, env)
    else if c.state.ProcessChangeCipherSpec? then
      match head
      case None => Blocked
      case Some(ChangeCipherSpec) => AfterProcessChangeCipherSpec(c, env)
      case Some(Handshake(_)) => Failed
    else OnNothing(c, env)
  }

  // ----- Whole runs, whatever the peer sends -----

  datatype Event = Event(head: Option<Item>, env: Env)

  /** Where a run of handler calls leads; None when it failed. */
  function Play(cfg: Config, run: Run<Event>): Option<Client> {
    match run
    case Start => Some(NewClient(cfg))
    case Then(past, e) =>
      match Play(cfg, past)
      case None => None
      case Some(c) => Call(c, e)
  }

  function Call(c: Client, e: Event): Option<Client> {
    if c.state == Done then Some(c) else
    var o := Handle(c, e.head, e.env);
    match o
    case Failed => None
    case Next(_, _, _) => Some(Flushed(o))
    case _ => Some(c)
  }

  /** In every run, whatever the peer sends: the flight has at most seven entries; before the ServerHello
      nothing is hashed but the one ClientHello, with or without a HelloVerifyRequest; the machine is done
      only when the peer's Finished matched under the changed read state; a full handshake with certificates
      gets to sending keys, or to writing early, only after the chain was verified and, for an ephemeral key
      exchange, its signature checked; and it writes early exactly where a false start is configured and the
      version, the key exchange, the cipher and the negotiated protocol allow it. */
  lemma {:induction false} EveryRunIsSafe(cfg: Config, run: Run<Event>)
    requires Play(cfg, run).Some?
    ensures var c := Play(cfg, run).value;
      && c.cfg == cfg && Good(c)
      && (c.state.ReadHelloVerifyRequest? || c.state.ReadServerHello? ==> c.io.transcript == [ClientHello(c.offered)])
      && (c.state == Done ==> c.readChanged && c.writeChanged && PeerFinished in c.checks)
      && ((c.canEarlyWrite || (c.state == Done && !c.resumed)) && c.params.auth == CertificateAuth ==>
            ChainVerified in c.checks && (c.params.kex == EcdheExchange ==> KeyExchangeSigned in c.checks))
      && (c.canEarlyWrite ==>
            !c.resumed && cfg.falseStart && !cfg.dtls && cfg.tls12 && c.params.kex == EcdheExchange && c.params.aead
              && (cfg.alpn || c.params.npn))
  {
    if run.Then? {
      EveryRunIsSafe(cfg, run.past);
    }
  }
}
