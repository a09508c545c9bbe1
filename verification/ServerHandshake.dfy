/** The server's handshake machine up to TLS 1.2. */
module ServerHandshake {
  import opened Wrappers
  import opened Handshake

  datatype State =
    | StartAccept | ReadClientHello | SelectCertificate | SelectParameters | SendServerHello
    | SendServerCertificate | SendServerKeyExchange | SendServerHelloDone
    | ReadClientCertificate | VerifyClientCertificate | ReadClientKeyExchange | ReadClientCertificateVerify
    | ReadChangeCipherSpec | ProcessChangeCipherSpec | ReadNextProto | ReadChannelId | ReadClientFinished
    | SendServerFinished | FinishServerHandshake | Done

  /** `verifyPeer`, `unlessChannelId` and `failWithoutCertificate` are the verify mode. */
  datatype Config = Config(
    verifyPeer: bool, unlessChannelId: bool, failWithoutCertificate: bool, pskHint: bool, hasCertificate: bool)

  /** What the ClientHello and the server's own choices come to. */
  datatype Offer = Offer(
    kex: KeyExchange, auth: Authentication, aead: bool, status: bool, npn: bool, channelId: bool,
    resume: bool, tickets: bool, renew: bool, hashesRecorded: bool)

  /** What callbacks, the peer's message bodies and the local resources come to in one handler call. */
  datatype Env = Env(ok: bool, offer: Offer, lookup: VerifyResult, verify: VerifyResult, signatureOk: bool, emptyTicket: bool)

  /** `chain` is the length of the client's certificate chain; its key is there when it is not empty. */
  datatype Server = Server(
    state: State, cfg: Config, resumed: bool, params: Params, certRequest: bool, ticketExpected: bool,
    chain: nat, hasParams: bool, readChanged: bool, writeChanged: bool, checks: set<Check>, io: Io)

  function NewServer(cfg: Config): Server {
    Server(StartAccept, cfg, false, NO_PARAMS, false, false, 0, false, false, false, {}, NEW_IO)
  }

  // ----- What holds in every state -----

  /** How far the machine is; every handler that moves it on moves it forward. */
  function Rank(s: Server): (r: nat)
    ensures r <= 19
  {
    match s.state
    case StartAccept => 0
    case ReadClientHello => 1
    case SelectCertificate => 2
    case SelectParameters => 3
    case SendServerHello => 4
    case SendServerCertificate => 5
    case SendServerKeyExchange => 6
    case SendServerHelloDone => 7
    case ReadClientCertificate => 8
    case VerifyClientCertificate => 9
    case ReadClientKeyExchange => 10
    case ReadClientCertificateVerify => 11
    case ReadChangeCipherSpec => 12
    case ProcessChangeCipherSpec => 13
    case ReadNextProto => 14
    case ReadChannelId => 15
    case ReadClientFinished => 16
    case SendServerFinished => if s.resumed then 5 else 17
    case FinishServerHandshake => 18
    case Done => 19
  }

  /** The states only a full handshake goes through. */
  predicate FullOnly(state: State) {
    || state.SendServerCertificate? || state.SendServerKeyExchange? || state.SendServerHelloDone?
    || state.ReadClientCertificate? || state.VerifyClientCertificate? || state.ReadClientKeyExchange?
    || state.ReadClientCertificateVerify?
  }

  /** What has been checked by the time a state is reached. */
  predicate Safe(s: Server) {
    && (FullOnly(s.state) ==> !s.resumed)
    && (Rank(s) <= 3 ==> !s.resumed)
    && (PeerFinished in s.checks ==> s.readChanged)
    && (s.state.FinishServerHandshake? || s.state.Done? || (!s.resumed && Rank(s) >= 17) ==> PeerFinished in s.checks)
    && (s.state.ReadNextProto? || s.state.ReadChannelId? || s.state.ReadClientFinished? ==> s.readChanged)
    && (s.resumed || Rank(s) <= 8 ==> s.chain == 0)
    && (Rank(s) >= 10 && s.chain > 0 ==> ChainVerified in s.checks)
    && (Rank(s) >= 12 && s.chain > 0 ==> PossessionProved in s.checks)
    && (Rank(s) >= 9 && s.cfg.failWithoutCertificate && s.certRequest ==> s.chain > 0)
    && (s.resumed ==> !s.certRequest)
    && s.readChanged == (Rank(s) >= 14)
    && s.writeChanged == (Rank(s) >= if s.resumed then 12 else 18)
  }

  /** The flight has room for what is still to be added before the next flush. */
  predicate FlightFits(s: Server) {
    && |s.io.flight| <= MAX_FLIGHT
    && (match s.state
        case SendServerCertificate => s.io.Pending() <= 1
        case SendServerKeyExchange => s.io.Pending() <= 3
        case SendServerHelloDone => s.io.Pending() <= 4
        case SendServerFinished => s.io.Pending() <= 1
        case _ => s.io.flushed)
  }

  function Flushed(o: Outcome<Server>): Server
    requires o.Next?
  {
    if o.flush then o.hs.(io := o.hs.io.Flush()) else o.hs
  }

  predicate Good(s: Server) {
    Safe(s) && FlightFits(s)
  }

  /** A handler that moves the machine on moves it forward, takes nothing back, and keeps it good once the
      flight is flushed. */
  predicate Improves(s: Server, o: Outcome<Server>) {
    o.Next? ==> Rank(s) < Rank(o.hs) && o.hs.cfg == s.cfg && s.io.got <= o.hs.io.got && Good(Flushed(o))
  }

  // ----- Handlers -----

  function AfterStartAccept(s: Server): (o: Outcome<Server>)
    ensures Good(s) && s.state == StartAccept ==> Improves(s, o)
  {
    Goes(s.(state := ReadClientHello))
  }

  /** The ClientHello is only looked at here; it stays the current message. */
  function AfterReadClientHello(s: Server, m: Msg, env: Env): (o: Outcome<Server>)
    ensures Good(s) && s.state == ReadClientHello ==> Improves(s, o)
  {
    if !m.ClientHello? then Failed
    else if env.lookup == VerifyRetry then Paused
    else if env.lookup == VerifyInvalid || !env.ok then Failed
    else Goes(s.(state := SelectCertificate,
                 params := s.params.(status := env.offer.status, npn := env.offer.npn, channelId := env.offer.channelId)))
  }

  function AfterSelectCertificate(s: Server, env: Env): (o: Outcome<Server>)
    ensures Good(s) && s.state == SelectCertificate ==> Improves(s, o)
  {
    if env.lookup == VerifyRetry then Paused
    else if env.lookup == VerifyInvalid || !env.ok then Failed
    else Goes(s.(state := SelectParameters,
                 params := s.params.(kex := env.offer.kex, auth := env.offer.auth, aead := env.offer.aead)))
  }

  function AfterSelectParameters(s: Server, m: Msg, env: Env): (o: Outcome<Server>)
    ensures Good(s) && s.state == SelectParameters ==> Improves(s, o)
  {
    if env.lookup == VerifyRetry then Paused
    else if !env.ok then Failed
    else
      var resumed := env.offer.resume;
      var certRequest := !resumed && s.cfg.verifyPeer && !(s.cfg.unlessChannelId && s.params.channelId)
          && s.params.auth == CertificateAuth;
      Goes(s.(state := SendServerHello, resumed := resumed, certRequest := certRequest,
              ticketExpected := if resumed then env.offer.renew else env.offer.tickets, io := s.io.Hear(m)))
  }

  /** Channel ID is only accepted with an ephemeral key exchange, and on resumption only if the original
      handshake's hashes were kept. */
  function HelloParams(s: Server, hashesRecorded: bool): Params {
    s.params.(echoed := s.resumed, ticket := s.ticketExpected,
              channelId := s.params.channelId && s.params.kex == EcdheExchange && (s.resumed ==> hashesRecorded))
  }

  function AfterSendServerHello(s: Server, env: Env): (o: Outcome<Server>)
    ensures Good(s) && s.state == SendServerHello ==> Improves(s, o)
  {
    if !env.ok then Failed
    else
      var params := HelloParams(s, env.offer.hashesRecorded);
      var io := s.io.Say(ServerHello(params));
      if s.resumed then Goes(s.(state := SendServerFinished, params := params, io := io))
      else Goes(s.(state := SendServerCertificate, params := params, io := io))
  }

  function AfterSendServerCertificate(s: Server, env: Env): (o: Outcome<Server>)
    ensures Good(s) && s.state == SendServerCertificate ==> Improves(s, o)
  {
    var certified := s.params.auth == CertificateAuth;
    if !env.ok || (certified && !s.cfg.hasCertificate) then Failed
    else
      var hasParams := s.params.kex == EcdheExchange || (s.params.auth == PskAuth && s.cfg.pskHint);
      var io := s.io.SayIf(certified, Certificate(1));
      Goes(s.(state := SendServerKeyExchange, hasParams := hasParams,
              io := io.SayIf(certified && s.params.status, CertificateStatus)))
  }

  function AfterSendServerKeyExchange(s: Server, env: Env): (o: Outcome<Server>)
    ensures Good(s) && s.state == SendServerKeyExchange ==> Improves(s, o)
  {
    if !s.hasParams then Goes(s.(state := SendServerHelloDone))
    else if s.params.auth == CertificateAuth && env.lookup == VerifyRetry then Paused
    else if (s.params.auth == CertificateAuth && env.lookup == VerifyInvalid) || !env.ok then Failed
    else Goes(s.(state := SendServerHelloDone, hasParams := false, io := s.io.Say(ServerKeyExchange)))
  }

  function AfterSendServerHelloDone(s: Server, env: Env): (o: Outcome<Server>)
    ensures Good(s) && s.state == SendServerHelloDone ==> Improves(s, o)
  {
    if !env.ok then Failed
    else Next(s.(state := ReadClientCertificate, io := s.io.SayIf(s.certRequest, CertificateRequest).Say(ServerHelloDone)), true, false)
  }

  function AfterReadClientCertificate(s: Server, m: Msg, env: Env): (o: Outcome<Server>)
    ensures Good(s) && s.state == ReadClientCertificate && s.certRequest ==> Improves(s, o)
  {
    if !m.Certificate? || !env.ok then Failed
    else if m.count == 0 && s.cfg.failWithoutCertificate then Failed
    else Goes(s.(state := VerifyClientCertificate, chain := m.count, io := s.io.Hear(m)))
  }

  function AfterVerifyClientCertificate(s: Server, env: Env): (o: Outcome<Server>)
    ensures Good(s) && s.state == VerifyClientCertificate ==> Improves(s, o)
  {
    if s.chain == 0 then Goes(s.(state := ReadClientKeyExchange))
    else
      match env.verify
      case VerifyOk => Goes(s.(state := ReadClientKeyExchange, checks := s.checks + {ChainVerified}))
      case VerifyInvalid => Failed
      case VerifyRetry => Paused
  }

  function AfterReadClientKeyExchange(s: Server, m: Msg, env: Env): (o: Outcome<Server>)
    ensures Good(s) && s.state == ReadClientKeyExchange ==> Improves(s, o)
  {
    if !m.ClientKeyExchange? then Failed
    else if s.params.kex == RsaExchange && env.lookup == VerifyRetry then Paused
    else if (s.params.kex == RsaExchange && env.lookup == VerifyInvalid) || !env.ok then Failed
    else Goes(s.(state := ReadClientCertificateVerify, io := s.io.Hear(m)))
  }

  /** Due exactly when the client sent a certificate. */
  function AfterReadClientCertificateVerify(s: Server, m: Msg, env: Env): (o: Outcome<Server>)
    ensures Good(s) && s.state == ReadClientCertificateVerify ==> Improves(s, o)
  {
    if !m.CertificateVerify? || !env.ok || !env.signatureOk then Failed
    else Goes(s.(state := ReadChangeCipherSpec, checks := s.checks + {PossessionProved}, io := s.io.Hear(m)))
  }

  function AfterReadChangeCipherSpec(s: Server): (o: Outcome<Server>)
    ensures Good(s) && s.state == ReadChangeCipherSpec ==> Improves(s, o)
  {
    Goes(s.(state := ProcessChangeCipherSpec))
  }

  function AfterProcessChangeCipherSpec(s: Server, env: Env): (o: Outcome<Server>)
    ensures Good(s) && s.state == ProcessChangeCipherSpec ==> Improves(s, o)
  {
    if !env.ok then Failed
    else Goes(s.(state := ReadNextProto, readChanged := true, io := s.io.Take()))
  }

  function AfterReadNextProto(s: Server, m: Msg, env: Env): (o: Outcome<Server>)
    ensures Good(s) && s.state == ReadNextProto ==> Improves(s, o)
  {
    if !m.NextProto? || !env.ok then Failed
    else Goes(s.(state := ReadChannelId, io := s.io.Hear(m)))
  }

  function AfterReadChannelId(s: Server, m: Msg, env: Env): (o: Outcome<Server>)
    ensures Good(s) && s.state == ReadChannelId ==> Improves(s, o)
  {
    if !m.ChannelId? || !env.ok then Failed
    else Goes(s.(state := ReadClientFinished, io := s.io.Hear(m)))
  }

  function AfterReadClientFinished(s: Server, m: Msg, env: Env): (o: Outcome<Server>)
    ensures Good(s) && s.state == ReadClientFinished ==> Improves(s, o)
  {
    if m != Finished(false, s.io.transcript) || !env.ok then Failed
    else Goes(s.(state := if s.resumed then FinishServerHandshake else SendServerFinished,
                 checks := s.checks + {PeerFinished}, io := s.io.Hear(m)))
  }

  function AfterSendServerFinished(s: Server, env: Env): (o: Outcome<Server>)
    ensures Good(s) && s.state == SendServerFinished ==> Improves(s, o)
  {
    if !env.ok then Failed
    else
      var io := s.io.SayIf(s.ticketExpected, NewSessionTicket(env.emptyTicket)).Add(ChangeCipherSpec);
      Next(s.(state := if s.resumed then ReadChangeCipherSpec else FinishServerHandshake, writeChanged := true,
              io := io.Say(Finished(true, io.transcript))), true, false)
  }

  function AfterFinishServerHandshake(s: Server): (o: Outcome<Server>)
    ensures Good(s) && s.state == FinishServerHandshake ==> Improves(s, o)
  {
    Goes(s.(state := Done))
  }

  /** A message that is not due is not waited for. */
  function AfterSkip(s: Server): (o: Outcome<Server>)
    requires s.state.ReadClientCertificate? || s.state.ReadClientCertificateVerify?
        || s.state.ReadNextProto? || s.state.ReadChannelId?
    ensures Good(s) && !WantsMessage(s) ==> Improves(s, o)
  {
    match s.state
    case ReadClientCertificate => Goes(s.(state := VerifyClientCertificate))
    case ReadClientCertificateVerify => Goes(s.(state := ReadChangeCipherSpec))
    case ReadNextProto => Goes(s.(state := ReadChannelId))
    case ReadChannelId => Goes(s.(state := ReadClientFinished))
  }

  // ----- The machine -----

  /** The states whose handler asks for the next message. */
  predicate WantsMessage(s: Server) {
    match s.state
    case ReadClientHello => true
    case SelectCertificate => true
    case SelectParameters => true
    case ReadClientCertificate => s.certRequest
    case ReadClientKeyExchange => true
    case ReadClientCertificateVerify => s.chain > 0
    case ReadNextProto => s.params.npn
    case ReadChannelId => s.params.channelId
    case ReadClientFinished => true
    case _ => false
  }

  function OnMessage(s: Server, m: Msg, env: Env): (o: Outcome<Server>)
    requires WantsMessage(s)
    ensures Good(s) ==> Improves(s, o)
  {
    match s.state
    case ReadClientHello => AfterReadClientHello(s, m, env)
    case SelectCertificate => AfterSelectCertificate(s, env)
    case SelectParameters => AfterSelectParameters(s, m, env)
    case ReadClientCertificate => AfterReadClientCertificate(s, m, env)
    case ReadClientKeyExchange => AfterReadClientKeyExchange(s, m, env)
    case ReadClientCertificateVerify => AfterReadClientCertificateVerify(s, m, env)
    case ReadNextProto => AfterReadNextProto(s, m, env)
    case ReadChannelId => AfterReadChannelId(s, m, env)
    case ReadClientFinished => AfterReadClientFinished(s, m, env)
  }

  function OnNothing(s: Server, env: Env): (o: Outcome<Server>)
    requires !WantsMessage(s) && !s.state.ProcessChangeCipherSpec? && s.state != Done
    ensures Good(s) ==> Improves(s, o)
  {
    match s.state
    case StartAccept => AfterStartAccept(s)
    case SendServerHello => AfterSendServerHello(s, env)
    case SendServerCertificate => AfterSendServerCertificate(s, env)
    case SendServerKeyExchange => AfterSendServerKeyExchange(s, env)
    case SendServerHelloDone => AfterSendServerHelloDone(s, env)
    case VerifyClientCertificate => AfterVerifyClientCertificate(s, env)
    case ReadChangeCipherSpec => AfterReadChangeCipherSpec(s)
    case SendServerFinished => AfterSendServerFinished(s, env)
    case FinishServerHandshake => AfterFinishServerHandshake(s)
    case ReadClientCertificate => AfterSkip(s)
    case ReadClientCertificateVerify => AfterSkip(s)
    case ReadNextProto => AfterSkip(s)
    case ReadChannelId => AfterSkip(s)
  }

  /** One handler call. `head` is what the record layer has next, if anything; a message where a
      ChangeCipherSpec is due, or the other way round, fails the handshake. */
  function Handle(s: Server, head: Option<Item>, env: Env): (o: Outcome<Server>)
    requires s.state != Done
    ensures Good(s) ==> Improves(s, o)
  {
    if WantsMessage(s) then
      match head
      case None => Blocked
      case Some(ChangeCipherSpec) => Failed
      case Some(Handshake(m)) => OnMessage(s, m, env)
    else if s.state.ProcessChangeCipherSpec? then
      match head
      case None => Blocked
      case Some(ChangeCipherSpec) => AfterProcessChangeCipherSpec(s, env)
      case Some(Handshake(_)) => Failed
    else OnNothing(s, env)
  }

  // ----- Whole runs, whatever the peer sends -----

  datatype Event = Event(head: Option<Item>, env: Env)

  /** Where a run of handler calls leads; None when it failed. */
  function Play(cfg: Config, run: Run<Event>): Option<Server> {
    match run
    case Start => Some(NewServer(cfg))
    case Then(past, e) =>
      match Play(cfg, past)
      case None => None
      case Some(s) => Call(s, e)
  }

  function Call(s: Server, e: Event): Option<Server> {
    if s.state == Done then Some(s) else
    var o := Handle(s, e.head, e.env);
    match o
    case Failed => None
    case Next(_, _, _) => Some(Flushed(o))
    case _ => Some(s)
  }

  /** The item a run has looked at last without consuming it. */
  function Awaiting(cfg: Config, run: Run<Event>): Option<Item> {
    match run
    case Start => None
    case Then(past, e) =>
      match Play(cfg, past)
      case None => None
      case Some(s) =>
        match Play(cfg, run)
        case None => None
        case Some(after) => if after.io.got == s.io.got then e.head else None
  }

  /** What was looked at stays the next item until it is consumed. */
  predicate Steady(cfg: Config, run: Run<Event>) {
    run.Then? ==>
      && Steady(cfg, run.past)
      && (Awaiting(cfg, run.past).Some? ==> run.last.head == Awaiting(cfg, run.past))
  }

  /** In every run, whatever the peer sends: the flight has at most seven entries; the machine is done
      only when the peer's Finished matched under the changed read state; and with a client chain only
      after the chain was verified and the client proved that it has the key. */
  lemma {:induction false} EveryRunIsSafe(cfg: Config, run: Run<Event>)
    requires Play(cfg, run).Some?
    ensures var s := Play(cfg, run).value;
      && s.cfg == cfg && Good(s)
      && (s.state == Done ==> s.readChanged && s.writeChanged && PeerFinished in s.checks)
      && (s.state == Done && s.chain > 0 ==> ChainVerified in s.checks && PossessionProved in s.checks)
  {
    if run.Then? {
      EveryRunIsSafe(cfg, run.past);
    }
  }
}
