/** The client and the server machine put together over ordered channels. */
module HandshakeProduct {
  import opened Wrappers
  import opened Handshake
  import opened HandshakeFlow
  import C = ClientHandshake
  import S = ServerHandshake

  // ----- Every callback succeeds -----

  function ClientEnv(a: Agreement): C.Env {
    C.Env(true, a.offersSession, VerifyOk, true, VerifyOk, a.clientCertificate)
  }

  function ServerEnv(a: Agreement): S.Env {
    S.Env(true, a.offer, VerifyOk, VerifyOk, true, a.emptyTicket)
  }

  // ----- Where a machine stands in the flow -----

  function ClientStage(c: C.Client): nat {
    match c.state
    case StartConnect => 0
    case EnterEarlyData => 1
    case ReadHelloVerifyRequest => 1
    case ReadServerHello => 1
    case ReadServerCertificate => 2
    case ReadCertificateStatus => 3
    case VerifyServerCertificate => 4
    case ReadServerKeyExchange => 4
    case ReadCertificateRequest => 5
    case ReadServerHelloDone => 6
    case SendClientCertificate => 7
    case SendClientKeyExchange => 8
    case SendClientCertificateVerify => 9
    case SendClientFinished => if c.resumed then 5 else 10
    case FinishFlight => if c.resumed then 9 else 14
    case ReadSessionTicket => if c.resumed then 2 else 14
    case ProcessChangeCipherSpec => if c.resumed then 3 else 15
    case ReadServerFinished => if c.resumed then 4 else 16
    case FinishClientHandshake => if c.resumed then 9 else 17
    case Done => if c.resumed then 9 else 17
  }

  function ServerStage(s: S.Server): nat {
    match s.state
    case StartAccept => 0
    case ReadClientHello => 0
    case SelectCertificate => 0
    case SelectParameters => 0
    case SendServerHello => 1
    case SendServerCertificate => 2
    case SendServerKeyExchange => 4
    case SendServerHelloDone => 5
    case ReadClientCertificate => 7
    case VerifyClientCertificate => 8
    case ReadClientKeyExchange => 8
    case ReadClientCertificateVerify => 9
    case ReadChangeCipherSpec => if s.resumed then 5 else 10
    case ProcessChangeCipherSpec => if s.resumed then 5 else 10
    case ReadNextProto => if s.resumed then 6 else 11
    case ReadChannelId => if s.resumed then 7 else 12
    case ReadClientFinished => if s.resumed then 8 else 13
    case SendServerFinished => if s.resumed then 2 else 14
    case FinishServerHandshake => if s.resumed then 9 else 17
    case Done => if s.resumed then 9 else 17
  }

  /** Everything added was flushed, except in the middle of a flight. */
  predicate Visible(io: Io, midFlight: bool) {
    io.visible <= |io.sent| && (midFlight || io.visible == |io.sent|)
  }

  predicate BeforeServerHello(state: C.State) {
    state.StartConnect? || state.EnterEarlyData? || state.ReadHelloVerifyRequest? || state.ReadServerHello?
  }

  predicate BeforeRequest(state: C.State) {
    || BeforeServerHello(state) || state.ReadServerCertificate? || state.ReadCertificateStatus?
    || state.VerifyServerCertificate? || state.ReadServerKeyExchange? || state.ReadCertificateRequest?
  }

  predicate BeforeTicket(c: C.Client) {
    || C.FullOnly(c.state) || c.state.ReadSessionTicket?
    || (!c.resumed && (c.state.SendClientFinished? || c.state.FinishFlight?))
  }

  predicate ClientMid(state: C.State) {
    state.SendClientKeyExchange? || state.SendClientCertificateVerify? || state.SendClientFinished?
  }

  /** The client has settled what both agree on, as far as it has come. */
  predicate ClientAgrees(a: Agreement, c: C.Client) {
    && C.Placed(c) && Visible(c.io, ClientMid(c.state))
    && (if BeforeServerHello(c.state) then !c.resumed && (c.state.StartConnect? || c.offered == a.offersSession)
        else c.params == a.Settled() && c.resumed == a.offer.resume)
    && c.certRequest == (!BeforeRequest(c.state) && a.RequestsCertificate())
    && (BeforeTicket(c) ==> c.ticketExpected == a.SendsTicket())
  }

  predicate ServerMid(state: S.State) {
    state.SendServerCertificate? || state.SendServerKeyExchange? || state.SendServerHelloDone?
      || state.SendServerFinished?
  }

  /** The server has settled what both agree on, as far as it has come. */
  predicate ServerAgrees(a: Agreement, s: S.Server) {
    && s.cfg == a.server && Visible(s.io, ServerMid(s.state))
    && (S.FullOnly(s.state) ==> !s.resumed)
    && (s.state.SelectCertificate? || s.state.SelectParameters? || s.state.SendServerHello? ==>
          s.params.status == a.offer.status && s.params.npn == a.offer.npn && s.params.channelId == a.offer.channelId)
    && (s.state.SelectParameters? || s.state.SendServerHello? ==>
          s.params.kex == a.offer.kex && s.params.auth == a.offer.auth && s.params.aead == a.offer.aead)
    && (S.Rank(s) >= 4 ==>
          s.resumed == a.offer.resume && s.certRequest == a.RequestsCertificate()
            && s.ticketExpected == a.SendsTicket())
    && (S.Rank(s) >= 5 ==> s.params == a.Settled())
    && (s.state.SendServerKeyExchange? ==> s.hasParams == a.SendsKeyExchange())
    && s.chain == (if a.RequestsCertificate() && S.Rank(s) >= 9 then Chain(a) else 0)
  }

  /** Both machines agree, and what is under way between them is what the flow has there. */
  predicate Joint(a: Agreement, c: C.Client, s: S.Server) {
    && a.Consistent() && ClientAgrees(a, c) && ServerAgrees(a, s)
    && Linked(a, c.io, ClientStage(c), s.io, ServerStage(s), true)
  }

  /** The client machine after a handler call still fits a server that stands at a stage. */
  predicate ClientGoesOn(a: Agreement, o: Outcome<C.Client>, y: Io, ny: nat) {
    && o.Next? && ClientAgrees(a, C.Flushed(o))
    && Linked(a, C.Flushed(o).io, ClientStage(C.Flushed(o)), y, ny, true)
  }

  // ----- The client's handlers -----

  predicate ClientAt(a: Agreement, c: C.Client, y: Io, ny: nat) {
    a.Consistent() && ClientAgrees(a, c) && Linked(a, c.io, ClientStage(c), y, ny, true)
  }

  lemma {:induction false} ClientLeavesHello(a: Agreement, c: C.Client, m: Msg)
    requires a.Consistent() && ClientAgrees(a, c) && c.state.ReadHelloVerifyRequest? && !m.HelloVerifyRequest?
    ensures var o := C.AfterReadHelloVerifyRequest(c, m, ClientEnv(a));
      && o.Next? && ClientAgrees(a, C.Flushed(o)) && ClientStage(C.Flushed(o)) == 1
      && C.Flushed(o).io == c.io
  {
  }

  lemma {:induction false} ClientLooksAtHello(a: Agreement, c: C.Client, y: Io, ny: nat, m: Msg)
    requires ClientAt(a, c, y, ny) && c.state.ReadHelloVerifyRequest?
    requires c.io.got < |y.sent| && y.sent[c.io.got] == Handshake(m)
    ensures ClientGoesOn(a, C.AfterReadHelloVerifyRequest(c, m, ClientEnv(a)), y, ny)
  {
    Reads(a, c.io, 1, y, ny, true, c.io.Hear(m));
    ClientLeavesHello(a, c, m);
  }

  lemma {:induction false} ClientTakesHello(a: Agreement, c: C.Client, m: Msg)
    requires a.Consistent() && ClientAgrees(a, c) && c.state.ReadServerHello? && m == ServerHello(a.Settled())
    ensures var o := C.AfterReadServerHello(c, m, ClientEnv(a));
      && o.Next? && ClientAgrees(a, C.Flushed(o)) && ClientStage(C.Flushed(o)) == 2
      && C.Flushed(o).io == c.io.Hear(m)
  {
  }

  lemma {:induction false} ClientReadsHello(a: Agreement, c: C.Client, y: Io, ny: nat, m: Msg)
    requires ClientAt(a, c, y, ny) && c.state.ReadServerHello?
    requires c.io.got < |y.sent| && y.sent[c.io.got] == Handshake(m)
    ensures ClientGoesOn(a, C.AfterReadServerHello(c, m, ClientEnv(a)), y, ny)
  {
    Reads(a, c.io, 1, y, ny, true, c.io.Hear(m));
    ClientTakesHello(a, c, m);
  }

  lemma {:induction false} ClientReadsCertificate(a: Agreement, c: C.Client, y: Io, ny: nat, m: Msg)
    requires ClientAt(a, c, y, ny) && c.state.ReadServerCertificate? && C.WantsMessage(c)
    requires c.io.got < |y.sent| && y.sent[c.io.got] == Handshake(m)
    ensures ClientGoesOn(a, C.AfterReadServerCertificate(c, m, ClientEnv(a)), y, ny)
  {
    Reads(a, c.io, 2, y, ny, true, c.io.Hear(m));
  }

  lemma {:induction false} ClientReadsStatus(a: Agreement, c: C.Client, y: Io, ny: nat, m: Msg)
    requires ClientAt(a, c, y, ny) && c.state.ReadCertificateStatus? && C.WantsMessage(c)
    requires c.io.got < |y.sent| && y.sent[c.io.got] == Handshake(m)
    ensures ClientGoesOn(a, C.AfterReadCertificateStatus(c, m, ClientEnv(a)), y, ny)
  {
    if SlotAt(a, 3).Due? {
      Reads(a, c.io, 3, y, ny, true, c.io.Hear(m));
    } else {
      var k := HeadIsDue(a, c.io, 3, y, ny, true);
      assert SlotAt(a, 6).Due?;
      assert k == 4 || k == 5 || k == 6;
      Passes(a, c.io, 3, y, ny, true);
    }
  }

  lemma {:induction false} ClientMissesKeyExchange(a: Agreement, c: C.Client, y: Io, ny: nat, m: Msg)
    requires ClientAt(a, c, y, ny) && c.state.ReadServerKeyExchange? && !a.SendsKeyExchange()
    requires c.io.got < |y.sent| && y.sent[c.io.got] == Handshake(m)
    ensures ClientGoesOn(a, C.AfterReadServerKeyExchange(c, m, ClientEnv(a)), y, ny)
  {
    var k := HeadIsDue(a, c.io, 4, y, ny, true);
    assert SlotAt(a, 6).Due?;
    assert !m.ServerKeyExchange?;
    Passes(a, c.io, 4, y, ny, true);
  }

  lemma {:induction false} ClientTakesKeyExchange(a: Agreement, c: C.Client, m: Msg)
    requires a.Consistent() && ClientAgrees(a, c) && c.state.ReadServerKeyExchange?
    requires a.SendsKeyExchange() && m.ServerKeyExchange?
    ensures var o := C.AfterReadServerKeyExchange(c, m, ClientEnv(a));
      o.Next? && ClientAgrees(a, C.Flushed(o)) && ClientStage(C.Flushed(o)) == 5 && C.Flushed(o).io == c.io.Hear(m)
  {
  }

  lemma {:induction false} ClientReadsKeyExchange(a: Agreement, c: C.Client, y: Io, ny: nat, m: Msg)
    requires ClientAt(a, c, y, ny) && c.state.ReadServerKeyExchange? && a.SendsKeyExchange()
    requires c.io.got < |y.sent| && y.sent[c.io.got] == Handshake(m)
    ensures ClientGoesOn(a, C.AfterReadServerKeyExchange(c, m, ClientEnv(a)), y, ny)
  {
    Reads(a, c.io, 4, y, ny, true, c.io.Hear(m));
    ClientTakesKeyExchange(a, c, m);
  }

  lemma {:induction false} ClientTakesRequest(a: Agreement, c: C.Client, m: Msg)
    requires a.Consistent() && ClientAgrees(a, c) && c.state.ReadCertificateRequest?
    requires a.RequestsCertificate() && m.CertificateRequest?
    ensures var o := C.AfterReadCertificateRequest(c, m, ClientEnv(a));
      o.Next? && ClientAgrees(a, C.Flushed(o)) && ClientStage(C.Flushed(o)) == 6 && C.Flushed(o).io == c.io.Hear(m)
  {
  }

  lemma {:induction false} ClientMissesRequest(a: Agreement, c: C.Client, y: Io, ny: nat, m: Msg)
    requires ClientAt(a, c, y, ny) && c.state.ReadCertificateRequest? && !a.RequestsCertificate()
    requires c.io.got < |y.sent| && y.sent[c.io.got] == Handshake(m)
    ensures ClientGoesOn(a, C.AfterReadCertificateRequest(c, m, ClientEnv(a)), y, ny)
  {
    var k := HeadIsDue(a, c.io, 5, y, ny, true);
    assert SlotAt(a, 6).Due?;
    assert m.ServerHelloDone?;
    Passes(a, c.io, 5, y, ny, true);
  }

  lemma {:induction false} ClientReadsRequest(a: Agreement, c: C.Client, y: Io, ny: nat, m: Msg)
    requires ClientAt(a, c, y, ny) && c.state.ReadCertificateRequest? && C.WantsMessage(c)
    requires c.io.got < |y.sent| && y.sent[c.io.got] == Handshake(m)
    ensures ClientGoesOn(a, C.AfterReadCertificateRequest(c, m, ClientEnv(a)), y, ny)
  {
    if a.RequestsCertificate() {
      Reads(a, c.io, 5, y, ny, true, c.io.Hear(m));
      ClientTakesRequest(a, c, m);
    } else {
      ClientMissesRequest(a, c, y, ny, m);
    }
  }

  lemma {:induction false} ClientReadsHelloDone(a: Agreement, c: C.Client, y: Io, ny: nat, m: Msg)
    requires ClientAt(a, c, y, ny) && c.state.ReadServerHelloDone?
    requires c.io.got < |y.sent| && y.sent[c.io.got] == Handshake(m)
    ensures ClientGoesOn(a, C.AfterReadServerHelloDone(c, m, ClientEnv(a)), y, ny)
  {
    Reads(a, c.io, 6, y, ny, true, c.io.Hear(m));
  }

  lemma {:induction false} ClientReadsTicket(a: Agreement, c: C.Client, y: Io, ny: nat, m: Msg)
    requires ClientAt(a, c, y, ny) && c.state.ReadSessionTicket? && C.WantsMessage(c)
    requires c.io.got < |y.sent| && y.sent[c.io.got] == Handshake(m)
    ensures ClientGoesOn(a, C.AfterReadSessionTicket(c, m, ClientEnv(a)), y, ny)
  {
    Reads(a, c.io, if c.resumed then 2 else 14, y, ny, true, c.io.Hear(m));
  }

  lemma {:induction false} ClientTakesFinished(a: Agreement, c: C.Client, m: Msg)
    requires a.Consistent() && ClientAgrees(a, c) && c.state.ReadServerFinished? && m == Finished(true, c.io.transcript)
    ensures var o := C.AfterReadServerFinished(c, m, ClientEnv(a));
      && o.Next? && ClientAgrees(a, C.Flushed(o)) && ClientStage(C.Flushed(o)) == ClientStage(c) + 1
      && C.Flushed(o).io == c.io.Hear(m)
  {
  }

  lemma {:induction false} ClientReadsFinished(a: Agreement, c: C.Client, y: Io, ny: nat, m: Msg)
    requires ClientAt(a, c, y, ny) && c.state.ReadServerFinished?
    requires c.io.got < |y.sent| && y.sent[c.io.got] == Handshake(m)
    ensures ClientGoesOn(a, C.AfterReadServerFinished(c, m, ClientEnv(a)), y, ny)
  {
    Reads(a, c.io, ClientStage(c), y, ny, true, c.io.Hear(m));
    ClientTakesFinished(a, c, m);
  }

  lemma {:induction false} ClientOnMessage(a: Agreement, c: C.Client, y: Io, ny: nat, m: Msg)
    requires ClientAt(a, c, y, ny) && C.WantsMessage(c)
    requires c.io.got < |y.sent| && y.sent[c.io.got] == Handshake(m)
    ensures ClientGoesOn(a, C.OnMessage(c, m, ClientEnv(a)), y, ny)
  {
    match c.state
    case ReadHelloVerifyRequest => ClientLooksAtHello(a, c, y, ny, m);
    case ReadServerHello => ClientReadsHello(a, c, y, ny, m);
    case ReadServerCertificate => ClientReadsCertificate(a, c, y, ny, m);
    case ReadCertificateStatus => ClientReadsStatus(a, c, y, ny, m);
    case ReadServerKeyExchange =>
      if a.SendsKeyExchange() {
        ClientReadsKeyExchange(a, c, y, ny, m);
      } else {
        ClientMissesKeyExchange(a, c, y, ny, m);
      }
    case ReadCertificateRequest => ClientReadsRequest(a, c, y, ny, m);
    case ReadServerHelloDone => ClientReadsHelloDone(a, c, y, ny, m);
    case ReadSessionTicket => ClientReadsTicket(a, c, y, ny, m);
    case ReadServerFinished => ClientReadsFinished(a, c, y, ny, m);
  }

  /** Where the client asks for a message, that is what the server sends next. */
  lemma {:induction false} ClientHeadIsMessage(a: Agreement, c: C.Client, y: Io, ny: nat)
    requires ClientAt(a, c, y, ny) && C.WantsMessage(c) && c.io.got < |y.sent|
    ensures y.sent[c.io.got].Handshake?
  {
    var n := ClientStage(c);
    var k := HeadIsDue(a, c.io, n, y, ny, true);
    if 2 <= n <= 6 && !c.resumed {
      assert SlotAt(a, 6).Due?;
      assert k <= 6;
    }
  }

  lemma {:induction false} ClientReadsCcs(a: Agreement, c: C.Client, y: Io, ny: nat)
    requires ClientAt(a, c, y, ny) && c.state.ProcessChangeCipherSpec? && c.io.got < |y.sent|
    ensures y.sent[c.io.got] == ChangeCipherSpec
    ensures ClientGoesOn(a, C.AfterProcessChangeCipherSpec(c, ClientEnv(a)), y, ny)
  {
    Reads(a, c.io, if c.resumed then 3 else 15, y, ny, true, c.io.Take());
  }

  lemma {:induction false} ClientSkipsAgrees(a: Agreement, c: C.Client)
    requires a.Consistent() && ClientAgrees(a, c) && !C.WantsMessage(c)
    requires c.state.ReadServerCertificate? || c.state.ReadCertificateStatus? || c.state.ReadCertificateRequest?
          || c.state.ReadSessionTicket?
    ensures var o := C.AfterSkip(c);
      && o.Next? && ClientAgrees(a, C.Flushed(o)) && ClientStage(C.Flushed(o)) == ClientStage(c) + 1
      && C.Flushed(o).io == c.io && SlotAt(a, ClientStage(c)).Absent?
  {
  }

  lemma {:induction false} ClientSkips(a: Agreement, c: C.Client, y: Io, ny: nat)
    requires ClientAt(a, c, y, ny) && !C.WantsMessage(c)
    requires c.state.ReadServerCertificate? || c.state.ReadCertificateStatus? || c.state.ReadCertificateRequest?
          || c.state.ReadSessionTicket?
    ensures ClientGoesOn(a, C.AfterSkip(c), y, ny)
  {
    ClientSkipsAgrees(a, c);
    Passes(a, c.io, ClientStage(c), y, ny, true);
  }

  lemma {:induction false} ClientSaysHello(a: Agreement, c: C.Client)
    requires a.Consistent() && ClientAgrees(a, c) && c.state.StartConnect?
    ensures var o := C.AfterStartConnect(c, ClientEnv(a));
      && o.Next? && ClientAgrees(a, C.Flushed(o)) && ClientStage(C.Flushed(o)) == 1
      && C.Flushed(o).io == c.io.Say(ClientHello(a.offersSession)).Flush()
  {
  }

  lemma {:induction false} ClientConnects(a: Agreement, c: C.Client, y: Io, ny: nat)
    requires ClientAt(a, c, y, ny) && c.state.StartConnect?
    ensures ClientGoesOn(a, C.AfterStartConnect(c, ClientEnv(a)), y, ny)
  {
    var hello := ClientHello(a.offersSession);
    ClientSaysHello(a, c);
    Sends(a, c.io, 0, y, ny, true, Handshake(hello), c.io.Say(hello).Flush());
  }

  lemma {:induction false} ClientSendsKeyExchange(a: Agreement, c: C.Client, y: Io, ny: nat)
    requires ClientAt(a, c, y, ny) && c.state.SendClientKeyExchange?
    ensures ClientGoesOn(a, C.AfterSendClientKeyExchange(c, ClientEnv(a)), y, ny)
  {
    Sends(a, c.io, 8, y, ny, true, Handshake(ClientKeyExchange), c.io.Say(ClientKeyExchange));
  }

  lemma {:induction false} ClientSendsVerify(a: Agreement, c: C.Client, y: Io, ny: nat)
    requires ClientAt(a, c, y, ny) && c.state.SendClientCertificateVerify?
    ensures ClientGoesOn(a, C.AfterSendClientCertificateVerify(c, ClientEnv(a)), y, ny)
  {
    if a.RequestsCertificate() && a.clientCertificate {
      Sends(a, c.io, 9, y, ny, true, Handshake(CertificateVerify), c.io.Say(CertificateVerify));
    } else {
      Passes(a, c.io, 9, y, ny, true);
    }
  }

  /** A message that is sent at stage n or not due there. */
  lemma {:induction false} SaysIf(a: Agreement, x: Io, n: nat, y: Io, ny: nat, xIsClient: bool, said: bool, m: Msg)
    requires Linked(a, x, n, y, ny, xIsClient) && SlotAt(a, n) == DueIf(said, xIsClient, m) && !m.Finished?
    ensures Linked(a, if said then x.Say(m) else x, n + 1, y, ny, xIsClient)
  {
    if said {
      Sends(a, x, n, y, ny, xIsClient, Handshake(m), x.Say(m));
    } else {
      Passes(a, x, n, y, ny, xIsClient);
    }
  }

  lemma {:induction false} ClientAnswersRequest(a: Agreement, c: C.Client)
    requires a.Consistent() && ClientAgrees(a, c) && c.state.SendClientCertificate?
    ensures var o := C.AfterSendClientCertificate(c, ClientEnv(a));
      && o.Next? && ClientAgrees(a, C.Flushed(o)) && ClientStage(C.Flushed(o)) == 8
      && C.Flushed(o).io == c.io.SayIf(a.RequestsCertificate(), Certificate(Chain(a)))
  {
  }

  lemma {:induction false} ClientSendsCertificate(a: Agreement, c: C.Client, y: Io, ny: nat)
    requires ClientAt(a, c, y, ny) && c.state.SendClientCertificate?
    ensures ClientGoesOn(a, C.AfterSendClientCertificate(c, ClientEnv(a)), y, ny)
  {
    SaysIf(a, c.io, 7, y, ny, true, a.RequestsCertificate(), Certificate(Chain(a)));
    ClientAnswersRequest(a, c);
  }

  /** The two messages that extensions add between the ChangeCipherSpec and the Finished. */
  lemma {:induction false} ClientExtras(a: Agreement, x: Io, n: nat, y: Io, ny: nat)
    requires Linked(a, x, n, y, ny, true) && n == (if a.Full() then 11 else 6)
    ensures Linked(a, x.SayIf(a.offer.npn, NextProto).SayIf(a.UsesChannelId(), ChannelId), n + 2, y, ny, true)
  {
    SaysIf(a, x, n, y, ny, true, a.offer.npn, NextProto);
    SaysIf(a, x.SayIf(a.offer.npn, NextProto), n + 1, y, ny, true, a.UsesChannelId(), ChannelId);
  }

  /** The last flight of the client, from the ChangeCipherSpec at stage n to the Finished. */
  lemma {:induction false} ClientFlight(a: Agreement, x: Io, n: nat, y: Io, ny: nat)
    requires Linked(a, x, n, y, ny, true) && n == (if a.Full() then 10 else 5)
    ensures var io := x.Add(ChangeCipherSpec).SayIf(a.offer.npn, NextProto).SayIf(a.UsesChannelId(), ChannelId);
      Linked(a, io.Say(Finished(false, io.transcript)), n + 4, y, ny, true)
  {
    var io := x.Add(ChangeCipherSpec);
    Sends(a, x, n, y, ny, true, ChangeCipherSpec, io);
    ClientExtras(a, io, n + 1, y, ny);
    io := io.SayIf(a.offer.npn, NextProto).SayIf(a.UsesChannelId(), ChannelId);
    var m := Finished(false, io.transcript);
    Sends(a, io, n + 3, y, ny, true, Handshake(m), io.Say(m));
  }

  lemma {:induction false} ClientFlushes(a: Agreement, c: C.Client, io: Io, y: Io, ny: nat)
    requires a.Consistent() && ClientAgrees(a, c) && c.state.SendClientFinished?
    requires Linked(a, io, ClientStage(c) + 4, y, ny, true)
    ensures ClientGoesOn(a, Next(c.(state := C.FinishFlight, writeChanged := true, io := io), true, false), y, ny)
  {
  }

  lemma {:induction false} ClientSendsFinished(a: Agreement, c: C.Client, y: Io, ny: nat)
    requires ClientAt(a, c, y, ny) && c.state.SendClientFinished?
    ensures ClientGoesOn(a, C.AfterSendClientFinished(c, ClientEnv(a)), y, ny)
  {
    ClientFlight(a, c.io, ClientStage(c), y, ny);
    var io := c.io.Add(ChangeCipherSpec).SayIf(a.offer.npn, NextProto).SayIf(a.UsesChannelId(), ChannelId);
    ClientFlushes(a, c, io.Say(Finished(false, io.transcript)), y, ny);
  }

  lemma {:induction false} ClientOnNothing(a: Agreement, c: C.Client, y: Io, ny: nat)
    requires ClientAt(a, c, y, ny) && !C.WantsMessage(c) && !c.state.ProcessChangeCipherSpec? && c.state != C.Done
    ensures ClientGoesOn(a, C.OnNothing(c, ClientEnv(a)), y, ny)
  {
    match c.state
    case StartConnect => ClientConnects(a, c, y, ny);
    case ReadServerCertificate => ClientSkips(a, c, y, ny);
    case ReadCertificateStatus => ClientSkips(a, c, y, ny);
    case ReadCertificateRequest => ClientSkips(a, c, y, ny);
    case ReadSessionTicket => ClientSkips(a, c, y, ny);
    case SendClientCertificate => ClientSendsCertificate(a, c, y, ny);
    case SendClientKeyExchange => ClientSendsKeyExchange(a, c, y, ny);
    case SendClientCertificateVerify => ClientSendsVerify(a, c, y, ny);
    case SendClientFinished => ClientSendsFinished(a, c, y, ny);
    case EnterEarlyData => ClientEnters(a, c, y, ny);
    case VerifyServerCertificate => ClientVerifies(a, c, y, ny);
    case FinishFlight => ClientFinishesFlight(a, c, y, ny);
    case FinishClientHandshake => ClientFinishes(a, c, y, ny);
  }

  lemma {:induction false} ClientEntersAgrees(a: Agreement, c: C.Client)
    requires a.Consistent() && ClientAgrees(a, c) && c.state.EnterEarlyData?
    ensures var o := C.AfterEnterEarlyData(c);
      && o.Next? && ClientAgrees(a, C.Flushed(o)) && C.Flushed(o).io == c.io
      && ClientStage(C.Flushed(o)) == ClientStage(c)
  {
  }

  lemma {:induction false} ClientEnters(a: Agreement, c: C.Client, y: Io, ny: nat)
    requires ClientAt(a, c, y, ny) && c.state.EnterEarlyData?
    ensures ClientGoesOn(a, C.AfterEnterEarlyData(c), y, ny)
  {
    ClientEntersAgrees(a, c);
  }

  lemma {:induction false} ClientVerifiesAgrees(a: Agreement, c: C.Client)
    requires a.Consistent() && ClientAgrees(a, c) && c.state.VerifyServerCertificate?
    ensures var o := C.AfterVerifyServerCertificate(c, ClientEnv(a));
      && o.Next? && ClientAgrees(a, C.Flushed(o)) && C.Flushed(o).io == c.io
      && ClientStage(C.Flushed(o)) == ClientStage(c)
  {
  }

  lemma {:induction false} ClientVerifies(a: Agreement, c: C.Client, y: Io, ny: nat)
    requires ClientAt(a, c, y, ny) && c.state.VerifyServerCertificate?
    ensures ClientGoesOn(a, C.AfterVerifyServerCertificate(c, ClientEnv(a)), y, ny)
  {
    ClientVerifiesAgrees(a, c);
  }

  lemma {:induction false} ClientFinishesFlightAgrees(a: Agreement, c: C.Client)
    requires a.Consistent() && ClientAgrees(a, c) && c.state.FinishFlight?
    ensures var o := C.AfterFinishFlight(c, ClientEnv(a));
      && o.Next? && ClientAgrees(a, C.Flushed(o)) && C.Flushed(o).io == c.io
      && ClientStage(C.Flushed(o)) == ClientStage(c)
  {
  }

  lemma {:induction false} ClientFinishesFlight(a: Agreement, c: C.Client, y: Io, ny: nat)
    requires ClientAt(a, c, y, ny) && c.state.FinishFlight?
    ensures ClientGoesOn(a, C.AfterFinishFlight(c, ClientEnv(a)), y, ny)
  {
    ClientFinishesFlightAgrees(a, c);
  }

  lemma {:induction false} ClientFinishesAgrees(a: Agreement, c: C.Client)
    requires a.Consistent() && ClientAgrees(a, c) && c.state.FinishClientHandshake?
    ensures var o := C.AfterFinishClientHandshake(c, ClientEnv(a));
      && o.Next? && ClientAgrees(a, C.Flushed(o)) && C.Flushed(o).io == c.io
      && ClientStage(C.Flushed(o)) == ClientStage(c)
  {
  }

  lemma {:induction false} ClientFinishes(a: Agreement, c: C.Client, y: Io, ny: nat)
    requires ClientAt(a, c, y, ny) && c.state.FinishClientHandshake?
    ensures ClientGoesOn(a, C.AfterFinishClientHandshake(c, ClientEnv(a)), y, ny)
  {
    ClientFinishesAgrees(a, c);
  }

  // ----- The server's handlers -----

  predicate ServerAt(a: Agreement, s: S.Server, y: Io, ny: nat) {
    a.Consistent() && ServerAgrees(a, s) && Linked(a, s.io, ServerStage(s), y, ny, false)
  }

  predicate ServerGoesOn(a: Agreement, o: Outcome<S.Server>, y: Io, ny: nat) {
    && o.Next? && ServerAgrees(a, S.Flushed(o))
    && Linked(a, S.Flushed(o).io, ServerStage(S.Flushed(o)), y, ny, false)
  }

  lemma {:induction false} ServerLooksAtHello(a: Agreement, s: S.Server, y: Io, ny: nat, m: Msg)
    requires ServerAt(a, s, y, ny) && s.state.ReadClientHello?
    requires s.io.got < |y.sent| && y.sent[s.io.got] == Handshake(m)
    ensures ServerGoesOn(a, S.AfterReadClientHello(s, m, ServerEnv(a)), y, ny)
  {
    Reads(a, s.io, 0, y, ny, false, s.io.Hear(m));
  }

  lemma {:induction false} ServerSelects(a: Agreement, s: S.Server, y: Io, ny: nat)
    requires ServerAt(a, s, y, ny) && s.state.SelectCertificate?
    ensures ServerGoesOn(a, S.AfterSelectCertificate(s, ServerEnv(a)), y, ny)
  {
  }

  lemma {:induction false} ServerReadsHello(a: Agreement, s: S.Server, y: Io, ny: nat, m: Msg)
    requires ServerAt(a, s, y, ny) && s.state.SelectParameters?
    requires s.io.got < |y.sent| && y.sent[s.io.got] == Handshake(m)
    ensures ServerGoesOn(a, S.AfterSelectParameters(s, m, ServerEnv(a)), y, ny)
  {
    Reads(a, s.io, 0, y, ny, false, s.io.Hear(m));
  }

  lemma {:induction false} ServerReadsCertificate(a: Agreement, s: S.Server, y: Io, ny: nat, m: Msg)
    requires ServerAt(a, s, y, ny) && s.state.ReadClientCertificate? && S.WantsMessage(s)
    requires s.io.got < |y.sent| && y.sent[s.io.got] == Handshake(m)
    ensures ServerGoesOn(a, S.AfterReadClientCertificate(s, m, ServerEnv(a)), y, ny)
  {
    Reads(a, s.io, 7, y, ny, false, s.io.Hear(m));
  }

  lemma {:induction false} ServerReadsKeyExchange(a: Agreement, s: S.Server, y: Io, ny: nat, m: Msg)
    requires ServerAt(a, s, y, ny) && s.state.ReadClientKeyExchange?
    requires s.io.got < |y.sent| && y.sent[s.io.got] == Handshake(m)
    ensures ServerGoesOn(a, S.AfterReadClientKeyExchange(s, m, ServerEnv(a)), y, ny)
  {
    Reads(a, s.io, 8, y, ny, false, s.io.Hear(m));
  }

  lemma {:induction false} ServerReadsVerify(a: Agreement, s: S.Server, y: Io, ny: nat, m: Msg)
    requires ServerAt(a, s, y, ny) && s.state.ReadClientCertificateVerify? && S.WantsMessage(s)
    requires s.io.got < |y.sent| && y.sent[s.io.got] == Handshake(m)
    ensures ServerGoesOn(a, S.AfterReadClientCertificateVerify(s, m, ServerEnv(a)), y, ny)
  {
    Reads(a, s.io, 9, y, ny, false, s.io.Hear(m));
  }

  lemma {:induction false} ServerReadsNextProto(a: Agreement, s: S.Server, y: Io, ny: nat, m: Msg)
    requires ServerAt(a, s, y, ny) && s.state.ReadNextProto? && S.WantsMessage(s)
    requires s.io.got < |y.sent| && y.sent[s.io.got] == Handshake(m)
    ensures ServerGoesOn(a, S.AfterReadNextProto(s, m, ServerEnv(a)), y, ny)
  {
    Reads(a, s.io, if s.resumed then 6 else 11, y, ny, false, s.io.Hear(m));
  }

  lemma {:induction false} ServerReadsChannelId(a: Agreement, s: S.Server, y: Io, ny: nat, m: Msg)
    requires ServerAt(a, s, y, ny) && s.state.ReadChannelId? && S.WantsMessage(s)
    requires s.io.got < |y.sent| && y.sent[s.io.got] == Handshake(m)
    ensures ServerGoesOn(a, S.AfterReadChannelId(s, m, ServerEnv(a)), y, ny)
  {
    Reads(a, s.io, if s.resumed then 7 else 12, y, ny, false, s.io.Hear(m));
  }

  lemma {:induction false} ServerTakesFinished(a: Agreement, s: S.Server, m: Msg)
    requires a.Consistent() && ServerAgrees(a, s) && s.state.ReadClientFinished? && m == Finished(false, s.io.transcript)
    ensures var o := S.AfterReadClientFinished(s, m, ServerEnv(a));
      && o.Next? && ServerAgrees(a, S.Flushed(o)) && ServerStage(S.Flushed(o)) == ServerStage(s) + 1
      && S.Flushed(o).io == s.io.Hear(m)
  {
  }

  lemma {:induction false} ServerReadsFinished(a: Agreement, s: S.Server, y: Io, ny: nat, m: Msg)
    requires ServerAt(a, s, y, ny) && s.state.ReadClientFinished?
    requires s.io.got < |y.sent| && y.sent[s.io.got] == Handshake(m)
    ensures ServerGoesOn(a, S.AfterReadClientFinished(s, m, ServerEnv(a)), y, ny)
  {
    Reads(a, s.io, ServerStage(s), y, ny, false, s.io.Hear(m));
    ServerTakesFinished(a, s, m);
  }

  lemma {:induction false} ServerOnMessage(a: Agreement, s: S.Server, y: Io, ny: nat, m: Msg)
    requires ServerAt(a, s, y, ny) && S.WantsMessage(s)
    requires s.io.got < |y.sent| && y.sent[s.io.got] == Handshake(m)
    ensures ServerGoesOn(a, S.OnMessage(s, m, ServerEnv(a)), y, ny)
  {
    match s.state
    case ReadClientHello => ServerLooksAtHello(a, s, y, ny, m);
    case SelectCertificate => ServerSelects(a, s, y, ny);
    case SelectParameters => ServerReadsHello(a, s, y, ny, m);
    case ReadClientCertificate => ServerReadsCertificate(a, s, y, ny, m);
    case ReadClientKeyExchange => ServerReadsKeyExchange(a, s, y, ny, m);
    case ReadClientCertificateVerify => ServerReadsVerify(a, s, y, ny, m);
    case ReadNextProto => ServerReadsNextProto(a, s, y, ny, m);
    case ReadChannelId => ServerReadsChannelId(a, s, y, ny, m);
    case ReadClientFinished => ServerReadsFinished(a, s, y, ny, m);
  }

  /** Where the server waits, the client has something due. */
  lemma {:induction false} ServerWaits(a: Agreement, s: S.Server)
    requires a.Consistent() && ServerAgrees(a, s) && (S.WantsMessage(s) || s.state.ProcessChangeCipherSpec?)
    ensures SlotAt(a, ServerStage(s)).Due? && SlotAt(a, ServerStage(s)).byClient
    ensures SlotAt(a, ServerStage(s)).item.Handshake? <==> S.WantsMessage(s)
  {
  }

  lemma {:induction false} ServerHeadIsMessage(a: Agreement, s: S.Server, y: Io, ny: nat)
    requires ServerAt(a, s, y, ny) && S.WantsMessage(s) && s.io.got < |y.sent|
    ensures y.sent[s.io.got].Handshake?
  {
    ServerWaits(a, s);
    var k := HeadIsDue(a, s.io, ServerStage(s), y, ny, false);
    assert k == ServerStage(s);
  }

  lemma {:induction false} ServerReadsCcs(a: Agreement, s: S.Server, y: Io, ny: nat)
    requires ServerAt(a, s, y, ny) && s.state.ProcessChangeCipherSpec? && s.io.got < |y.sent|
    ensures y.sent[s.io.got] == ChangeCipherSpec
    ensures ServerGoesOn(a, S.AfterProcessChangeCipherSpec(s, ServerEnv(a)), y, ny)
  {
    Reads(a, s.io, if s.resumed then 5 else 10, y, ny, false, s.io.Take());
  }

  lemma {:induction false} ServerSkipsAgrees(a: Agreement, s: S.Server)
    requires a.Consistent() && ServerAgrees(a, s) && !S.WantsMessage(s)
    requires s.state.ReadClientCertificate? || s.state.ReadClientCertificateVerify?
        || s.state.ReadNextProto? || s.state.ReadChannelId?
    ensures var o := S.AfterSkip(s);
      && o.Next? && ServerAgrees(a, S.Flushed(o)) && ServerStage(S.Flushed(o)) == ServerStage(s) + 1
      && S.Flushed(o).io == s.io
  {
  }

  lemma {:induction false} ServerSkipsAbsent(a: Agreement, s: S.Server)
    requires a.Consistent() && ServerAgrees(a, s) && !S.WantsMessage(s)
    requires s.state.ReadClientCertificate? || s.state.ReadClientCertificateVerify?
        || s.state.ReadNextProto? || s.state.ReadChannelId?
    ensures SlotAt(a, ServerStage(s)).Absent?
  {
  }

  lemma {:induction false} ServerSkips(a: Agreement, s: S.Server, y: Io, ny: nat)
    requires ServerAt(a, s, y, ny) && !S.WantsMessage(s)
    requires s.state.ReadClientCertificate? || s.state.ReadClientCertificateVerify?
        || s.state.ReadNextProto? || s.state.ReadChannelId?
    ensures ServerGoesOn(a, S.AfterSkip(s), y, ny)
  {
    ServerSkipsAgrees(a, s);
    ServerSkipsAbsent(a, s);
    Passes(a, s.io, ServerStage(s), y, ny, false);
  }

  lemma {:induction false} ServerSettles(a: Agreement, s: S.Server)
    requires a.Consistent() && ServerAgrees(a, s) && s.state.SendServerHello?
    ensures var o := S.AfterSendServerHello(s, ServerEnv(a));
      && o.Next? && ServerAgrees(a, S.Flushed(o)) && ServerStage(S.Flushed(o)) == 2
      && S.Flushed(o).io == s.io.Say(ServerHello(a.Settled()))
  {
    assert s.params.(echoed := s.resumed, ticket := s.ticketExpected, channelId := a.UsesChannelId()) == a.Settled();
  }

  lemma {:induction false} ServerSendsHello(a: Agreement, s: S.Server, y: Io, ny: nat)
    requires ServerAt(a, s, y, ny) && s.state.SendServerHello?
    ensures ServerGoesOn(a, S.AfterSendServerHello(s, ServerEnv(a)), y, ny)
  {
    var m := ServerHello(a.Settled());
    Sends(a, s.io, 1, y, ny, false, Handshake(m), s.io.Say(m));
    ServerSettles(a, s);
  }

  lemma {:induction false} ServerCertificateFlight(a: Agreement, x: Io, n: nat, y: Io, ny: nat)
    requires a.Full() && Linked(a, x, n, y, ny, false) && n == 2
    ensures var io := x.SayIf(a.ByCertificate(), Certificate(1));
      Linked(a, io.SayIf(a.ByCertificate() && a.offer.status, CertificateStatus), n + 2, y, ny, false)
  {
    SaysIf(a, x, n, y, ny, false, a.ByCertificate(), Certificate(1));
    var io := x.SayIf(a.ByCertificate(), Certificate(1));
    SaysIf(a, io, n + 1, y, ny, false, a.ByCertificate() && a.offer.status, CertificateStatus);
  }

  lemma {:induction false} ServerSaysCertificate(a: Agreement, s: S.Server)
    requires a.Consistent() && ServerAgrees(a, s) && s.state.SendServerCertificate?
    ensures var o := S.AfterSendServerCertificate(s, ServerEnv(a));
      && o.Next? && ServerAgrees(a, S.Flushed(o)) && ServerStage(S.Flushed(o)) == 4
      && S.Flushed(o).io == s.io.SayIf(a.ByCertificate(), Certificate(1)).SayIf(a.ByCertificate() && a.offer.status, CertificateStatus)
  {
  }

  lemma {:induction false} ServerSendsCertificate(a: Agreement, s: S.Server, y: Io, ny: nat)
    requires ServerAt(a, s, y, ny) && s.state.SendServerCertificate?
    ensures ServerGoesOn(a, S.AfterSendServerCertificate(s, ServerEnv(a)), y, ny)
  {
    ServerSaysCertificate(a, s);
    ServerCertificateFlight(a, s.io, 2, y, ny);
  }

  lemma {:induction false} ServerSendsKeyExchange(a: Agreement, s: S.Server, y: Io, ny: nat)
    requires ServerAt(a, s, y, ny) && s.state.SendServerKeyExchange?
    ensures ServerGoesOn(a, S.AfterSendServerKeyExchange(s, ServerEnv(a)), y, ny)
  {
    SaysIf(a, s.io, 4, y, ny, false, a.SendsKeyExchange(), ServerKeyExchange);
  }

  lemma {:induction false} ServerHelloDoneFlight(a: Agreement, x: Io, n: nat, y: Io, ny: nat)
    requires a.Full() && Linked(a, x, n, y, ny, false) && n == 5
    ensures Linked(a, x.SayIf(a.RequestsCertificate(), CertificateRequest).Say(ServerHelloDone), n + 2, y, ny, false)
  {
    SaysIf(a, x, n, y, ny, false, a.RequestsCertificate(), CertificateRequest);
    var io := x.SayIf(a.RequestsCertificate(), CertificateRequest);
    Sends(a, io, n + 1, y, ny, false, Handshake(ServerHelloDone), io.Say(ServerHelloDone));
  }

  lemma {:induction false} ServerFlushesHello(a: Agreement, s: S.Server, io: Io, y: Io, ny: nat)
    requires a.Consistent() && ServerAgrees(a, s) && s.state.SendServerHelloDone?
    requires Linked(a, io, 7, y, ny, false)
    ensures ServerGoesOn(a, Next(s.(state := S.ReadClientCertificate, io := io), true, false), y, ny)
  {
  }

  lemma {:induction false} ServerSendsHelloDone(a: Agreement, s: S.Server, y: Io, ny: nat)
    requires ServerAt(a, s, y, ny) && s.state.SendServerHelloDone?
    ensures ServerGoesOn(a, S.AfterSendServerHelloDone(s, ServerEnv(a)), y, ny)
  {
    ServerHelloDoneFlight(a, s.io, 5, y, ny);
    ServerFlushesHello(a, s, s.io.SayIf(a.RequestsCertificate(), CertificateRequest).Say(ServerHelloDone), y, ny);
  }

  /** The last flight of the server, from the ticket at stage n to the Finished. */
  lemma {:induction false} ServerFlight(a: Agreement, x: Io, n: nat, y: Io, ny: nat)
    requires Linked(a, x, n, y, ny, false) && n == (if a.Full() then 14 else 2)
    ensures var io := x.SayIf(a.SendsTicket(), NewSessionTicket(a.emptyTicket)).Add(ChangeCipherSpec);
      Linked(a, io.Say(Finished(true, io.transcript)), n + 3, y, ny, false)
  {
    SaysIf(a, x, n, y, ny, false, a.SendsTicket(), NewSessionTicket(a.emptyTicket));
    ServerCloses(a, x.SayIf(a.SendsTicket(), NewSessionTicket(a.emptyTicket)), n + 1, y, ny);
  }

  lemma {:induction false} ServerCloses(a: Agreement, x: Io, n: nat, y: Io, ny: nat)
    requires Linked(a, x, n, y, ny, false) && n == (if a.Full() then 15 else 3)
    ensures var io := x.Add(ChangeCipherSpec);
      Linked(a, io.Say(Finished(true, io.transcript)), n + 2, y, ny, false)
  {
    var io := x.Add(ChangeCipherSpec);
    Sends(a, x, n, y, ny, false, ChangeCipherSpec, io);
    var m := Finished(true, io.transcript);
    Sends(a, io, n + 1, y, ny, false, Handshake(m), io.Say(m));
  }

  lemma {:induction false} ServerFlushesAgrees(a: Agreement, s: S.Server, io: Io)
    requires a.Consistent() && ServerAgrees(a, s) && s.state.SendServerFinished?
    ensures var next := if s.resumed then S.ReadChangeCipherSpec else S.FinishServerHandshake;
      var after := s.(state := next, writeChanged := true, io := io.Flush());
      ServerAgrees(a, after) && ServerStage(after) == ServerStage(s) + 3
  {
  }

  lemma {:induction false} ServerFlushes(a: Agreement, s: S.Server, io: Io, y: Io, ny: nat)
    requires a.Consistent() && ServerAgrees(a, s) && s.state.SendServerFinished?
    requires Linked(a, io, ServerStage(s) + 3, y, ny, false)
    ensures var next := if s.resumed then S.ReadChangeCipherSpec else S.FinishServerHandshake;
      ServerGoesOn(a, Next(s.(state := next, writeChanged := true, io := io), true, false), y, ny)
  {
    ServerFlushesAgrees(a, s, io);
  }

  lemma {:induction false} ServerSaysFinished(a: Agreement, s: S.Server)
    requires a.Consistent() && ServerAgrees(a, s) && s.state.SendServerFinished?
    ensures var next := if s.resumed then S.ReadChangeCipherSpec else S.FinishServerHandshake;
      var io := s.io.SayIf(a.SendsTicket(), NewSessionTicket(a.emptyTicket)).Add(ChangeCipherSpec);
      && S.AfterSendServerFinished(s, ServerEnv(a))
          == Next(s.(state := next, writeChanged := true, io := io.Say(Finished(true, io.transcript))), true, false)
      && ServerStage(s) == (if a.Full() then 14 else 2)
  {
  }

  lemma {:induction false} ServerSendsFinished(a: Agreement, s: S.Server, y: Io, ny: nat)
    requires ServerAt(a, s, y, ny) && s.state.SendServerFinished?
    ensures ServerGoesOn(a, S.AfterSendServerFinished(s, ServerEnv(a)), y, ny)
  {
    ServerSaysFinished(a, s);
    ServerFlight(a, s.io, ServerStage(s), y, ny);
    var io := s.io.SayIf(a.SendsTicket(), NewSessionTicket(a.emptyTicket)).Add(ChangeCipherSpec);
    ServerFlushes(a, s, io.Say(Finished(true, io.transcript)), y, ny);
  }

  lemma {:induction false} ServerAccepts(a: Agreement, s: S.Server, y: Io, ny: nat)
    requires ServerAt(a, s, y, ny) && s.state.StartAccept?
    ensures ServerGoesOn(a, S.AfterStartAccept(s), y, ny)
  {
  }

  lemma {:induction false} ServerVerifies(a: Agreement, s: S.Server, y: Io, ny: nat)
    requires ServerAt(a, s, y, ny) && s.state.VerifyClientCertificate?
    ensures ServerGoesOn(a, S.AfterVerifyClientCertificate(s, ServerEnv(a)), y, ny)
  {
  }

  lemma {:induction false} ServerAwaitsCcs(a: Agreement, s: S.Server, y: Io, ny: nat)
    requires ServerAt(a, s, y, ny) && s.state.ReadChangeCipherSpec?
    ensures ServerGoesOn(a, S.AfterReadChangeCipherSpec(s), y, ny)
  {
  }

  lemma {:induction false} ServerFinishes(a: Agreement, s: S.Server, y: Io, ny: nat)
    requires ServerAt(a, s, y, ny) && s.state.FinishServerHandshake?
    ensures ServerGoesOn(a, S.AfterFinishServerHandshake(s), y, ny)
  {
  }

  lemma {:induction false} ServerOnNothing(a: Agreement, s: S.Server, y: Io, ny: nat)
    requires ServerAt(a, s, y, ny) && !S.WantsMessage(s) && !s.state.ProcessChangeCipherSpec? && s.state != S.Done
    ensures ServerGoesOn(a, S.OnNothing(s, ServerEnv(a)), y, ny)
  {
    match s.state
    case SendServerHello => ServerSendsHello(a, s, y, ny);
    case SendServerCertificate => ServerSendsCertificate(a, s, y, ny);
    case SendServerKeyExchange => ServerSendsKeyExchange(a, s, y, ny);
    case SendServerHelloDone => ServerSendsHelloDone(a, s, y, ny);
    case SendServerFinished => ServerSendsFinished(a, s, y, ny);
    case ReadClientCertificate => ServerSkips(a, s, y, ny);
    case ReadClientCertificateVerify => ServerSkips(a, s, y, ny);
    case ReadNextProto => ServerSkips(a, s, y, ny);
    case ReadChannelId => ServerSkips(a, s, y, ny);
    case StartAccept => ServerAccepts(a, s, y, ny);
    case VerifyClientCertificate => ServerVerifies(a, s, y, ny);
    case ReadChangeCipherSpec => ServerAwaitsCcs(a, s, y, ny);
    case FinishServerHandshake => ServerFinishes(a, s, y, ny);
  }
}
