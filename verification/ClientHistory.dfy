/** What a run of the client means, whatever the server sends: the messages that passed fill the places of
    a handshake one after the other, the transcript is exactly what passed since the last
    HelloVerifyRequest, and the checks were made on what they are about. */
module ClientHistory {
  import opened Wrappers
  import opened Handshake
  import opened ClientHandshake
  import opened HandshakeFlow
  import opened HandshakeGrammar
  import P = HandshakeProduct

  function Form(resumed: bool, p: Params, asked: bool): nat -> Place {
    if resumed then (n: nat) => ResumedForm(p, n) else (n: nat) => ClientFullForm(p, asked, n)
  }

  function FormOf(c: Client): nat -> Place {
    Form(c.resumed, c.params, c.certRequest)
  }

  /** The items are what the client has said and heard, in order, and nothing else was hashed. */
  ghost predicate Told(c: Client, items: seq<Item>) {
    && c.io.transcript == HashedAll(items)
    && Fills(FormOf(c), P.ClientStage(c), items)
    && (P.ClientStage(c) > 0 ==> items != [] && items[0] == Handshake(ClientHello(c.offered)))
  }

  /** What is still to be looked at is what the ServerHello said. */
  predicate Keeps(c: Client) {
    && (c.certRequest ==> !c.resumed && Rank(c) >= 9 && c.params.auth == CertificateAuth)
    && (Rank(c) >= 4 && P.BeforeTicket(c) ==> c.ticketExpected == c.params.ticket)
  }

  ghost predicate Lawful(c: Client, items: seq<Item>) {
    Told(c, items) && Keeps(c)
  }

  /** The handler moved on by one place, filled by an item. */
  lemma {:induction false} Tells(c: Client, items: seq<Item>, item: Item, after: Client)
    requires Told(c, items) && P.ClientStage(after) == P.ClientStage(c) + 1
    requires Alike(FormOf(c), FormOf(after), P.ClientStage(c)) && !FormOf(after)(P.ClientStage(c)).Empty?
    requires Matches(FormOf(after)(P.ClientStage(c)).sample, item, items)
    requires after.io.transcript == c.io.transcript + Hashed(item)
    requires if P.ClientStage(c) == 0 then item == Handshake(ClientHello(after.offered)) else after.offered == c.offered
    ensures Told(after, items + [item])
  {
    FillsOn(FormOf(c), FormOf(after), P.ClientStage(c), items, item);
  }

  /** The handler moved on by one place, which stays empty. */
  lemma {:induction false} Passes(c: Client, items: seq<Item>, after: Client)
    requires Told(c, items) && P.ClientStage(after) == P.ClientStage(c) + 1 && P.ClientStage(c) > 0
    requires FormOf(after) == FormOf(c) && !FormOf(after)(P.ClientStage(c)).Must?
    requires after.io.transcript == c.io.transcript && after.offered == c.offered
    ensures Told(after, items)
  {
    FillsPast(FormOf(c), FormOf(after), P.ClientStage(c), items);
  }

  /** The ChangeCipherSpec, the two messages of the extensions, and the Finished. */
  lemma {:induction false} LastFlightFills(form: nat -> Place, p: Params, n: nat, items: seq<Item>, io: Io)
    requires Fills(form, n, items) && io.transcript == HashedAll(items)
    requires form(n) == Must(Exactly(ChangeCipherSpec)) && form(n + 1) == MustIf(p.npn, NextProto)
    requires form(n + 2) == MustIf(p.channelId, ChannelId) && form(n + 3) == Must(FinishedBy(false))
    ensures var last := io.Add(ChangeCipherSpec).SayIf(p.npn, NextProto).SayIf(p.channelId, ChannelId);
      Adds(form, n + 4, items, |io.sent|, last.Say(Finished(false, last.transcript)))
  {
    var from := |io.sent|;
    AddsNothing(form, n, items, io);
    AddsItem(form, n, items, from, io, ChangeCipherSpec, io.Add(ChangeCipherSpec));
    AddsIf(form, n + 1, items, from, io.Add(ChangeCipherSpec), p.npn, NextProto);
    AddsIf(form, n + 2, items, from, io.Add(ChangeCipherSpec).SayIf(p.npn, NextProto), p.channelId, ChannelId);
    var last := io.Add(ChangeCipherSpec).SayIf(p.npn, NextProto).SayIf(p.channelId, ChannelId);
    AddsFinished(form, n + 3, items, from, last, false);
  }

  // ----- One handler call -----

  /** A handler call that moved on leaves the story lawful. */
  ghost predicate GoesOnLawfully(c: Client, items: seq<Item>, head: Option<Item>, o: Outcome<Client>) {
    o.Next? ==>
      var after := Flushed(o);
      var passed := Passed(c.io, head, after.io);
      && Lawful(after, Onward(items, passed))
      && (passed != [] ==> Handshake(HelloVerifyRequest) !in passed[1..])
  }

  /** A check is added only by the call it is about. */
  predicate ChecksGrow(c: Client, e: Event, o: Outcome<Client>) {
    o.Next? ==>
      || (c.state.VerifyServerCertificate? && o.hs.checks == c.checks + {ChainVerified} && e.env.verify == VerifyOk)
      || (c.state.ReadServerKeyExchange? && o.hs.checks == c.checks + {KeyExchangeSigned}
          && e.head == Some(Handshake(ServerKeyExchange)) && e.env.signatureOk)
      || (c.state.ReadServerFinished? && o.hs.checks == c.checks + {PeerFinished}
          && e.head == Some(Handshake(Finished(true, c.io.transcript))) && e.env.ok)
      || o.hs.checks == c.checks
  }

  /** The handler has not said or heard, settled or checked anything. */
  predicate Idle(c: Client, o: Outcome<Client>) {
    o.Next? ==>
      && o.hs.io == c.io && !o.flush && o.hs.state != Done && o.hs.params == c.params && o.hs.certRequest == c.certRequest
      && o.hs.checks <= c.checks + {ChainVerified} && o.hs.canEarlyWrite == c.canEarlyWrite
  }

  /** The client needs its own certificate or key, and a callback's leave to use it. */
  predicate NeedsKey(c: Client, env: Env) {
    match c.state
    case SendClientCertificate => c.certRequest
    case SendClientCertificateVerify => c.certRequest && env.hasCertificate
    case SendClientFinished => c.params.channelId
    case _ => false
  }

  predicate VerifiesChain(c: Client) {
    c.state.VerifyServerCertificate? && c.params.auth == CertificateAuth
  }

  /** A callback is called again exactly when it asks for that, and nothing goes on without its leave. */
  predicate Heeds(c: Client, env: Env, o: Outcome<Client>) {
    && (o.Paused? <==>
          ((VerifiesChain(c) && env.verify == VerifyRetry) || (NeedsKey(c, env) && env.lookup == VerifyRetry)))
    && (o.Next? && NeedsKey(c, env) ==> env.lookup == VerifyOk)
    && (o.Next? && VerifiesChain(c) ==> env.verify == VerifyOk)
  }

  predicate Honest(c: Client, head: Option<Item>, env: Env, o: Outcome<Client>) {
    ChecksGrow(c, Event(head, env), o) && (!env.ok ==> Idle(c, o)) && Heeds(c, env, o)
  }

  /** The story of a handler that heard one message. */
  lemma {:induction false} HearsLawfully(c: Client, items: seq<Item>, m: Msg, after: Client)
    requires after.io == c.io.Hear(m) && m != HelloVerifyRequest && Lawful(after, items + [Handshake(m)])
    ensures GoesOnLawfully(c, items, Some(Handshake(m)), Goes(after))
  {
    assert Passed(c.io, Some(Handshake(m)), after.io) == [Handshake(m)];
  }

  /** The story of a handler that neither heard nor said anything. */
  lemma {:induction false} IdlesLawfully(c: Client, items: seq<Item>, head: Option<Item>, after: Client)
    requires after.io == c.io && Lawful(after, items)
    ensures forall early :: GoesOnLawfully(c, items, head, Next(after, false, early))
  {
    assert Passed(c.io, head, after.io) == [];
    assert items + [] == items;
  }

  /** The story of a handler that said one message. */
  lemma {:induction false} SaysLawfully(c: Client, items: seq<Item>, head: Option<Item>, m: Msg, o: Outcome<Client>)
    requires o.Next? && o.hs.io == c.io.Say(m) && m != HelloVerifyRequest && Lawful(Flushed(o), items + [Handshake(m)])
    ensures GoesOnLawfully(c, items, head, o)
  {
    PassedOne(c.io, head, Flushed(o).io, Handshake(m));
  }

  lemma {:induction false} StartIsLawful(c: Client, items: seq<Item>, head: Option<Item>, env: Env)
    requires Good(c) && Lawful(c, items) && c.state.StartConnect?
    ensures GoesOnLawfully(c, items, head, AfterStartConnect(c, env))
    ensures Honest(c, head, env, AfterStartConnect(c, env))
  {
    var o := AfterStartConnect(c, env);
    if o.Next? {
      var m := ClientHello(env.sessionUsable);
      Tells(c, items, Handshake(m), Flushed(o));
      SaysLawfully(c, items, head, m, o);
    }
  }

  lemma {:induction false} HelloAlone(form: nat -> Place, hello: Item)
    requires form(0) == Must(AnyHello) && hello.Handshake? && hello.m.ClientHello?
    ensures Fills(form, 1, [hello]) && HashedAll([hello]) == [hello.m]
  {
    assert [] + [hello] == [hello] && HashedAll([]) == [];
    FillsOn(form, form, 0, [], hello);
  }

  /** The second ClientHello is the first thing hashed. */
  lemma {:induction false} SecondHello(c: Client, m: Msg, env: Env)
    requires Good(c) && Keeps(c) && c.state.ReadHelloVerifyRequest? && m.HelloVerifyRequest? && env.ok
    ensures var after := Flushed(AfterReadHelloVerifyRequest(c, m, env));
      && after.state.ReadServerHello? && P.ClientStage(after) == 1 && Keeps(after) && after.offered == c.offered
      && after.io.transcript == [ClientHello(c.offered)] && FormOf(after)(0) == Must(AnyHello)
      && after.io.sent == c.io.sent + [Handshake(ClientHello(c.offered))] && after.io.got == c.io.got + 1
  {
  }

  lemma {:induction false} SecondHelloIsLawful(c: Client, m: Msg, env: Env)
    requires Good(c) && Keeps(c) && c.state.ReadHelloVerifyRequest? && m.HelloVerifyRequest? && env.ok
    ensures var after := Flushed(AfterReadHelloVerifyRequest(c, m, env));
      && Lawful(after, [Handshake(ClientHello(c.offered))])
      && Passed(c.io, Some(Handshake(m)), after.io) == [Handshake(m), Handshake(ClientHello(c.offered))]
  {
    var hello := Handshake(ClientHello(c.offered));
    var after := Flushed(AfterReadHelloVerifyRequest(c, m, env));
    SecondHello(c, m, env);
    HelloAlone(FormOf(after), hello);
    assert after.io.sent[|c.io.sent|..] == [hello];
  }

  /** Another message is only looked at. */
  lemma {:induction false} OtherIsLeft(c: Client, m: Msg, env: Env)
    requires Good(c) && Keeps(c) && c.state.ReadHelloVerifyRequest? && !m.HelloVerifyRequest?
    ensures var o := AfterReadHelloVerifyRequest(c, m, env);
      && o == Goes(o.hs) && P.ClientStage(o.hs) == P.ClientStage(c) && FormOf(o.hs) == FormOf(c)
      && o.hs.offered == c.offered && o.hs.io == c.io && Keeps(o.hs)
  {
  }

  lemma {:induction false} CookieIsHonest(c: Client, m: Msg, env: Env)
    requires c.state.ReadHelloVerifyRequest?
    ensures Honest(c, Some(Handshake(m)), env, AfterReadHelloVerifyRequest(c, m, env))
  {
  }

  lemma {:induction false} CookieIsLawful(c: Client, items: seq<Item>, m: Msg, env: Env)
    requires Good(c) && Lawful(c, items) && c.state.ReadHelloVerifyRequest?
    ensures GoesOnLawfully(c, items, Some(Handshake(m)), AfterReadHelloVerifyRequest(c, m, env))
    ensures Honest(c, Some(Handshake(m)), env, AfterReadHelloVerifyRequest(c, m, env))
  {
    var o := AfterReadHelloVerifyRequest(c, m, env);
    CookieIsHonest(c, m, env);
    if !m.HelloVerifyRequest? {
      OtherIsLeft(c, m, env);
      StayIsLawful(c, items, Some(Handshake(m)), o.hs);
    } else if env.ok {
      SecondHelloIsLawful(c, m, env);
      RestartIsLawful(c, items, m, o, Handshake(ClientHello(c.offered)));
    }
  }

  lemma {:induction false} RestartIsLawful(c: Client, items: seq<Item>, m: Msg, o: Outcome<Client>, hello: Item)
    requires o.Next? && m.HelloVerifyRequest? && hello != Handshake(HelloVerifyRequest)
    requires Passed(c.io, Some(Handshake(m)), Flushed(o).io) == [Handshake(m), hello] && Lawful(Flushed(o), [hello])
    ensures GoesOnLawfully(c, items, Some(Handshake(m)), o)
  {
  }

  /** A handler that stays at its place. */
  lemma {:induction false} StayIsLawful(c: Client, items: seq<Item>, head: Option<Item>, after: Client)
    requires Lawful(c, items) && Keeps(after) && after.io == c.io && P.ClientStage(after) == P.ClientStage(c)
    requires FormOf(after) == FormOf(c) && after.offered == c.offered
    ensures GoesOnLawfully(c, items, head, Goes(after))
  {
    StaysTold(c, items, after);
    IdlesLawfully(c, items, head, after);
  }

  lemma {:induction false} HelloIsLawful(c: Client, items: seq<Item>, m: Msg, env: Env)
    requires Good(c) && Lawful(c, items) && c.state.ReadServerHello?
    ensures GoesOnLawfully(c, items, Some(Handshake(m)), AfterReadServerHello(c, m, env))
    ensures Honest(c, Some(Handshake(m)), env, AfterReadServerHello(c, m, env))
  {
    var o := AfterReadServerHello(c, m, env);
    if o.Next? {
      Tells(c, items, Handshake(m), o.hs);
      HearsLawfully(c, items, m, o.hs);
    }
  }

  /** A message read where the form has a place for it. */
  lemma {:induction false} ReadIsLawful(c: Client, items: seq<Item>, m: Msg, after: Client)
    requires Lawful(c, items) && Keeps(after) && after.io == c.io.Hear(m) && after.offered == c.offered
    requires m != HelloVerifyRequest && P.ClientStage(c) > 0 && P.ClientStage(after) == P.ClientStage(c) + 1
    requires Alike(FormOf(c), FormOf(after), P.ClientStage(c)) && !FormOf(after)(P.ClientStage(c)).Empty?
    requires Matches(FormOf(after)(P.ClientStage(c)).sample, Handshake(m), items)
    ensures GoesOnLawfully(c, items, Some(Handshake(m)), Goes(after))
  {
    Tells(c, items, Handshake(m), after);
    HearsLawfully(c, items, m, after);
  }

  /** A place that stays empty, whatever there is to read. */
  lemma {:induction false} SkipIsLawful(c: Client, items: seq<Item>, head: Option<Item>, after: Client)
    requires Lawful(c, items) && Keeps(after) && after.io == c.io && after.offered == c.offered
    requires P.ClientStage(c) > 0 && P.ClientStage(after) == P.ClientStage(c) + 1
    requires FormOf(after) == FormOf(c) && !FormOf(after)(P.ClientStage(c)).Must?
    ensures GoesOnLawfully(c, items, head, Goes(after))
  {
    Passes(c, items, after);
    IdlesLawfully(c, items, head, after);
  }

  /** A message sent in the middle of a flight. */
  lemma {:induction false} SendIsLawful(c: Client, items: seq<Item>, head: Option<Item>, m: Msg, after: Client)
    requires Lawful(c, items) && Keeps(after) && after.io == c.io.Say(m) && after.offered == c.offered
    requires m != HelloVerifyRequest && P.ClientStage(c) > 0 && P.ClientStage(after) == P.ClientStage(c) + 1
    requires FormOf(after) == FormOf(c) && !FormOf(after)(P.ClientStage(c)).Empty?
    requires Matches(FormOf(after)(P.ClientStage(c)).sample, Handshake(m), items)
    ensures GoesOnLawfully(c, items, head, Goes(after))
  {
    Tells(c, items, Handshake(m), after);
    SaysLawfully(c, items, head, m, Goes(after));
  }

  lemma {:induction false} CertificateIsLawful(c: Client, items: seq<Item>, m: Msg, env: Env)
    requires Good(c) && Lawful(c, items) && c.state.ReadServerCertificate? && WantsMessage(c)
    ensures GoesOnLawfully(c, items, Some(Handshake(m)), AfterReadServerCertificate(c, m, env))
    ensures Honest(c, Some(Handshake(m)), env, AfterReadServerCertificate(c, m, env))
  {
    var o := AfterReadServerCertificate(c, m, env);
    if o.Next? {
      ReadIsLawful(c, items, m, o.hs);
    }
  }

  lemma {:induction false} StatusIsLawful(c: Client, items: seq<Item>, m: Msg, env: Env)
    requires Good(c) && Lawful(c, items) && c.state.ReadCertificateStatus? && WantsMessage(c)
    ensures GoesOnLawfully(c, items, Some(Handshake(m)), AfterReadCertificateStatus(c, m, env))
    ensures Honest(c, Some(Handshake(m)), env, AfterReadCertificateStatus(c, m, env))
  {
    var o := AfterReadCertificateStatus(c, m, env);
    if !m.CertificateStatus? {
      SkipIsLawful(c, items, Some(Handshake(m)), o.hs);
    } else if o.Next? {
      ReadIsLawful(c, items, m, o.hs);
    }
  }

  lemma {:induction false} KeyExchangeIsLawful(c: Client, items: seq<Item>, m: Msg, env: Env)
    requires Good(c) && Lawful(c, items) && c.state.ReadServerKeyExchange?
    ensures GoesOnLawfully(c, items, Some(Handshake(m)), AfterReadServerKeyExchange(c, m, env))
    ensures Honest(c, Some(Handshake(m)), env, AfterReadServerKeyExchange(c, m, env))
  {
    var o := AfterReadServerKeyExchange(c, m, env);
    if o.Next? {
      if m.ServerKeyExchange? {
        ReadIsLawful(c, items, m, o.hs);
      } else {
        SkipIsLawful(c, items, Some(Handshake(m)), o.hs);
      }
    }
  }

  lemma {:induction false} RequestIsLawful(c: Client, items: seq<Item>, m: Msg, env: Env)
    requires Good(c) && Lawful(c, items) && c.state.ReadCertificateRequest? && WantsMessage(c)
    ensures GoesOnLawfully(c, items, Some(Handshake(m)), AfterReadCertificateRequest(c, m, env))
    ensures Honest(c, Some(Handshake(m)), env, AfterReadCertificateRequest(c, m, env))
  {
    var o := AfterReadCertificateRequest(c, m, env);
    if m.ServerHelloDone? {
      SkipIsLawful(c, items, Some(Handshake(m)), o.hs);
    } else if o.Next? {
      ReadIsLawful(c, items, m, o.hs);
    }
  }

  lemma {:induction false} HelloDoneIsLawful(c: Client, items: seq<Item>, m: Msg, env: Env)
    requires Good(c) && Lawful(c, items) && c.state.ReadServerHelloDone?
    ensures GoesOnLawfully(c, items, Some(Handshake(m)), AfterReadServerHelloDone(c, m, env))
    ensures Honest(c, Some(Handshake(m)), env, AfterReadServerHelloDone(c, m, env))
  {
    var o := AfterReadServerHelloDone(c, m, env);
    if o.Next? {
      ReadIsLawful(c, items, m, o.hs);
    }
  }

  lemma {:induction false} TicketIsLawful(c: Client, items: seq<Item>, m: Msg, env: Env)
    requires Good(c) && Lawful(c, items) && c.state.ReadSessionTicket? && WantsMessage(c)
    ensures GoesOnLawfully(c, items, Some(Handshake(m)), AfterReadSessionTicket(c, m, env))
    ensures Honest(c, Some(Handshake(m)), env, AfterReadSessionTicket(c, m, env))
  {
    var o := AfterReadSessionTicket(c, m, env);
    if o.Next? {
      ReadIsLawful(c, items, m, o.hs);
    }
  }

  lemma {:induction false} FinishedIsLawful(c: Client, items: seq<Item>, m: Msg, env: Env)
    requires Good(c) && Lawful(c, items) && c.state.ReadServerFinished?
    ensures GoesOnLawfully(c, items, Some(Handshake(m)), AfterReadServerFinished(c, m, env))
    ensures Honest(c, Some(Handshake(m)), env, AfterReadServerFinished(c, m, env))
  {
    var o := AfterReadServerFinished(c, m, env);
    if o.Next? {
      ReadIsLawful(c, items, m, o.hs);
    }
  }

  lemma {:induction false} MessageIsLawful(c: Client, items: seq<Item>, m: Msg, env: Env)
    requires Good(c) && Lawful(c, items) && WantsMessage(c)
    ensures GoesOnLawfully(c, items, Some(Handshake(m)), OnMessage(c, m, env))
    ensures Honest(c, Some(Handshake(m)), env, OnMessage(c, m, env))
  {
    match c.state
    case ReadHelloVerifyRequest => CookieIsLawful(c, items, m, env);
    case ReadServerHello => HelloIsLawful(c, items, m, env);
    case ReadServerCertificate => CertificateIsLawful(c, items, m, env);
    case ReadCertificateStatus => StatusIsLawful(c, items, m, env);
    case ReadServerKeyExchange => KeyExchangeIsLawful(c, items, m, env);
    case ReadCertificateRequest => RequestIsLawful(c, items, m, env);
    case ReadServerHelloDone => HelloDoneIsLawful(c, items, m, env);
    case ReadSessionTicket => TicketIsLawful(c, items, m, env);
    case ReadServerFinished => FinishedIsLawful(c, items, m, env);
  }

  lemma {:induction false} CcsIsLawful(c: Client, items: seq<Item>, env: Env)
    requires Good(c) && Lawful(c, items) && c.state.ProcessChangeCipherSpec?
    ensures GoesOnLawfully(c, items, Some(ChangeCipherSpec), AfterProcessChangeCipherSpec(c, env))
    ensures Honest(c, Some(ChangeCipherSpec), env, AfterProcessChangeCipherSpec(c, env))
  {
    var o := AfterProcessChangeCipherSpec(c, env);
    if o.Next? {
      Tells(c, items, ChangeCipherSpec, o.hs);
      assert Passed(c.io, Some(ChangeCipherSpec), o.hs.io) == [ChangeCipherSpec];
    }
  }

  lemma {:induction false} EmptyPlaceIsLawful(c: Client, items: seq<Item>, head: Option<Item>, env: Env)
    requires Good(c) && Lawful(c, items) && !WantsMessage(c)
    requires c.state.ReadServerCertificate? || c.state.ReadCertificateStatus? || c.state.ReadCertificateRequest?
        || c.state.ReadSessionTicket?
    ensures GoesOnLawfully(c, items, head, AfterSkip(c))
    ensures Honest(c, head, env, AfterSkip(c))
  {
    SkipIsLawful(c, items, head, AfterSkip(c).hs);
  }

  lemma {:induction false} OwnCertificateIsLawful(c: Client, items: seq<Item>, head: Option<Item>, env: Env)
    requires Good(c) && Lawful(c, items) && c.state.SendClientCertificate?
    ensures GoesOnLawfully(c, items, head, AfterSendClientCertificate(c, env))
    ensures Honest(c, head, env, AfterSendClientCertificate(c, env))
  {
    var o := AfterSendClientCertificate(c, env);
    if !c.certRequest {
      SkipIsLawful(c, items, head, o.hs);
    } else if o.Next? {
      SendIsLawful(c, items, head, Certificate(if env.hasCertificate then 1 else 0), o.hs);
    }
  }

  lemma {:induction false} OwnKeyExchangeIsLawful(c: Client, items: seq<Item>, head: Option<Item>, env: Env)
    requires Good(c) && Lawful(c, items) && c.state.SendClientKeyExchange?
    ensures GoesOnLawfully(c, items, head, AfterSendClientKeyExchange(c, env))
    ensures Honest(c, head, env, AfterSendClientKeyExchange(c, env))
  {
    var o := AfterSendClientKeyExchange(c, env);
    if o.Next? {
      SendIsLawful(c, items, head, ClientKeyExchange, o.hs);
    }
  }

  lemma {:induction false} OwnVerifyIsLawful(c: Client, items: seq<Item>, head: Option<Item>, env: Env)
    requires Good(c) && Lawful(c, items) && c.state.SendClientCertificateVerify?
    ensures GoesOnLawfully(c, items, head, AfterSendClientCertificateVerify(c, env))
    ensures Honest(c, head, env, AfterSendClientCertificateVerify(c, env))
  {
    var o := AfterSendClientCertificateVerify(c, env);
    if !c.certRequest || !env.hasCertificate {
      SkipIsLawful(c, items, head, o.hs);
    } else if o.Next? {
      SendIsLawful(c, items, head, CertificateVerify, o.hs);
    }
  }

  lemma {:induction false} OwnFlightIsLawful(c: Client, items: seq<Item>, head: Option<Item>, env: Env)
    requires Good(c) && Lawful(c, items) && c.state.SendClientFinished?
    ensures GoesOnLawfully(c, items, head, AfterSendClientFinished(c, env))
    ensures Honest(c, head, env, AfterSendClientFinished(c, env))
  {
    var o := AfterSendClientFinished(c, env);
    if o.Next? {
      LastFlightFills(FormOf(c), c.params, P.ClientStage(c), items, c.io);
      FlightMoves(c, o.hs.io.Flush());
      FlightIsLawful(c, items, head, o);
    }
  }

  lemma {:induction false} FlightTold(c: Client, items: seq<Item>, io: Io, after: Client)
    requires Told(c, items) && Adds(FormOf(c), P.ClientStage(c) + 4, items, |c.io.sent|, io) && P.ClientStage(c) > 0
    requires P.ClientStage(after) == P.ClientStage(c) + 4 && FormOf(after) == FormOf(c)
    requires after.offered == c.offered && after.io.transcript == io.transcript
    ensures Told(after, items + io.sent[|c.io.sent|..])
  {
  }

  lemma {:induction false} FlightMoves(c: Client, io: Io)
    requires Good(c) && Keeps(c) && c.state.SendClientFinished?
    ensures var after := c.(state := FinishFlight, writeChanged := true, io := io);
      P.ClientStage(after) == P.ClientStage(c) + 4 && P.ClientStage(c) > 0 && FormOf(after) == FormOf(c) && Keeps(after)
  {
  }

  lemma {:induction false} FlightIsLawful(c: Client, items: seq<Item>, head: Option<Item>, o: Outcome<Client>)
    requires Lawful(c, items) && o.Next? && o.hs.io.got == c.io.got && Keeps(Flushed(o)) && Flushed(o).io == o.hs.io.Flush()
    requires P.ClientStage(c) > 0 && P.ClientStage(Flushed(o)) == P.ClientStage(c) + 4
    requires Adds(FormOf(c), P.ClientStage(c) + 4, items, |c.io.sent|, o.hs.io)
    requires FormOf(Flushed(o)) == FormOf(c) && Flushed(o).offered == c.offered
    ensures GoesOnLawfully(c, items, head, o)
  {
    FlightTold(c, items, o.hs.io, Flushed(o));
    FlightPassed(c.io, head, o.hs.io);
  }

  lemma {:induction false} FlightPassed(before: Io, head: Option<Item>, io: Io)
    requires |before.sent| <= |io.sent| && io.got == before.got
    requires Handshake(HelloVerifyRequest) !in io.sent[|before.sent|..]
    ensures var passed := Passed(before, head, io.Flush());
      && passed == io.sent[|before.sent|..] && Handshake(HelloVerifyRequest) !in passed
      && (passed != [] ==> passed[0] in passed && Handshake(HelloVerifyRequest) !in passed[1..])
  {
  }

  lemma {:induction false} NothingIsLawful(c: Client, items: seq<Item>, head: Option<Item>, env: Env)
    requires Good(c) && Lawful(c, items) && !WantsMessage(c) && !c.state.ProcessChangeCipherSpec? && c.state != Done
    ensures GoesOnLawfully(c, items, head, OnNothing(c, env))
    ensures Honest(c, head, env, OnNothing(c, env))
  {
    match c.state
    case StartConnect => StartIsLawful(c, items, head, env);
    case SendClientCertificate => OwnCertificateIsLawful(c, items, head, env);
    case SendClientKeyExchange => OwnKeyExchangeIsLawful(c, items, head, env);
    case SendClientCertificateVerify => OwnVerifyIsLawful(c, items, head, env);
    case SendClientFinished => OwnFlightIsLawful(c, items, head, env);
    case ReadServerCertificate => EmptyPlaceIsLawful(c, items, head, env);
    case ReadCertificateStatus => EmptyPlaceIsLawful(c, items, head, env);
    case ReadCertificateRequest => EmptyPlaceIsLawful(c, items, head, env);
    case ReadSessionTicket => EmptyPlaceIsLawful(c, items, head, env);
    case _ => IdleIsLawful(c, items, head, env);
  }

  /** A handler that neither moves to another place nor changes the form. */
  lemma {:induction false} StaysTold(c: Client, items: seq<Item>, after: Client)
    requires Told(c, items) && P.ClientStage(after) == P.ClientStage(c) && FormOf(after) == FormOf(c)
    requires after.offered == c.offered && after.io.transcript == c.io.transcript
    ensures Told(after, items)
  {
  }

  lemma {:induction false} IdleStays(c: Client, env: Env)
    requires Good(c) && Keeps(c)
    requires c.state.EnterEarlyData? || c.state.VerifyServerCertificate? || c.state.FinishFlight?
        || c.state.FinishClientHandshake?
    ensures var o := OnNothing(c, env);
      o.Next? ==> !o.flush && P.ClientStage(o.hs) == P.ClientStage(c) && FormOf(o.hs) == FormOf(c)
                  && o.hs.offered == c.offered && o.hs.io == c.io && Keeps(o.hs)
  {
  }

  lemma {:induction false} IdleIsLawful(c: Client, items: seq<Item>, head: Option<Item>, env: Env)
    requires Good(c) && Lawful(c, items)
    requires c.state.EnterEarlyData? || c.state.VerifyServerCertificate? || c.state.FinishFlight?
        || c.state.FinishClientHandshake?
    ensures GoesOnLawfully(c, items, head, OnNothing(c, env))
    ensures Honest(c, head, env, OnNothing(c, env))
  {
    var o := OnNothing(c, env);
    IdleStays(c, env);
    if o.Next? {
      StaysTold(c, items, o.hs);
      IdlesLawfully(c, items, head, o.hs);
    }
  }

  lemma {:induction false} CallIsLawful(c: Client, items: seq<Item>, head: Option<Item>, env: Env)
    requires Good(c) && Lawful(c, items) && c.state != Done
    ensures GoesOnLawfully(c, items, head, Handle(c, head, env))
    ensures Honest(c, head, env, Handle(c, head, env))
  {
    if WantsMessage(c) {
      if head.Some? && head.value.Handshake? {
        MessageIsLawful(c, items, head.value.m, env);
      }
    } else if c.state.ProcessChangeCipherSpec? {
      if head == Some(ChangeCipherSpec) {
        CcsIsLawful(c, items, env);
      }
    } else {
      NothingIsLawful(c, items, head, env);
    }
  }

  // ----- Whole runs -----

  /** Everything the client consumed and sent in a run, in order. */
  function Story(cfg: Config, run: Run<Event>): seq<Item> {
    match run
    case Start => []
    case Then(past, e) =>
      match Play(cfg, past)
      case None => []
      case Some(c) =>
        match Call(c, e)
        case None => []
        case Some(after) => Story(cfg, past) + Passed(c.io, e.head, after.io)
  }

  lemma {:induction false} RunIsLawful(cfg: Config, run: Run<Event>)
    requires Play(cfg, run).Some?
    ensures Lawful(Play(cfg, run).value, SinceCookie(Story(cfg, run)))
  {
    if run.Then? {
      var past := run.past;
      RunIsLawful(cfg, past);
      EveryRunIsSafe(cfg, past);
      OneCallIsLawful(Play(cfg, past).value, Story(cfg, past), run.last);
    } else {
      assert HashedAll([]) == [];
    }
  }

  lemma {:induction false} DoneIsWhole(c: Client, items: seq<Item>)
    requires Good(c) && Lawful(c, items)
    ensures c.state == Done ==> Fills(FormOf(c), if c.resumed then 9 else 17, items)
    ensures c.state == Done ==> (c.resumed <==> c.offered && c.params.echoed)
    ensures c.certRequest ==> !c.resumed && c.params.auth == CertificateAuth
  {
  }

  /** Whatever the server sends: what has passed since the last HelloVerifyRequest begins with the client's
      ClientHello, is all that was hashed, and fills the places of a handshake up to where the client stands;
      so a client that is done has been through one whole handshake, full or resumed. It resumes exactly
      when the server repeats the session it offered, and was asked for a certificate only by a server that
      has one. */
  lemma {:induction false} EveryRunIsLawful(cfg: Config, run: Run<Event>)
    requires Play(cfg, run).Some?
    ensures var c, items := Play(cfg, run).value, SinceCookie(Story(cfg, run));
      && Lawful(c, items) && c.io.transcript == HashedAll(items)
      && (c.state != StartConnect ==> items != [] && items[0] == Handshake(ClientHello(c.offered)))
      && (c.state == Done ==> Fills(FormOf(c), if c.resumed then 9 else 17, items))
      && (c.state == Done ==> (c.resumed <==> c.offered && c.params.echoed))
      && (c.certRequest ==> !c.resumed && c.params.auth == CertificateAuth)
  {
    EveryRunIsSafe(cfg, run);
    RunIsLawful(cfg, run);
    DoneIsWhole(Play(cfg, run).value, SinceCookie(Story(cfg, run)));
  }

  lemma {:induction false} OneCallIsLawful(c: Client, items: seq<Item>, e: Event)
    requires Good(c) && Lawful(c, SinceCookie(items)) && Call(c, e).Some?
    ensures Lawful(Call(c, e).value, SinceCookie(items + Passed(c.io, e.head, Call(c, e).value.io)))
  {
    if c.state != Done && Handle(c, e.head, e.env).Next? {
      CallIsLawful(c, SinceCookie(items), e.head, e.env);
      OnwardIsSinceCookie(items, Passed(c.io, e.head, Call(c, e).value.io));
    } else {
      assert items + Passed(c.io, e.head, c.io) == items;
    }
  }

  // ----- What the checks were made on -----

  /** The call in which a check was made; `t` is what has been hashed before it. */
  predicate Shows(what: Check, c: Client, t: seq<Msg>, e: Event) {
    match what
    case ChainVerified => c.state.VerifyServerCertificate? && e.env.verify == VerifyOk
    case KeyExchangeSigned =>
      c.state.ReadServerKeyExchange? && e.head == Some(Handshake(ServerKeyExchange)) && e.env.signatureOk
    case PeerFinished =>
      c.state.ReadServerFinished? && c.readChanged && e.head == Some(Handshake(Finished(true, t))) && e.env.ok
    case PossessionProved => false
  }

  /** Some call of the run made the check. */
  predicate Made(cfg: Config, run: Run<Event>, what: Check) {
    && run.Then?
    && (|| Made(cfg, run.past, what)
        || (Play(cfg, run.past).Some?
            && Shows(what, Play(cfg, run.past).value, HashedAll(SinceCookie(Story(cfg, run.past))), run.last)))
  }

  lemma {:induction false} ChecksWereMade(cfg: Config, run: Run<Event>, what: Check)
    requires Play(cfg, run).Some? && what in Play(cfg, run).value.checks
    ensures Made(cfg, run, what)
  {
    var past := run.past;
    var c := Play(cfg, past).value;
    if what in c.checks {
      ChecksWereMade(cfg, past, what);
    } else {
      EveryRunIsLawful(cfg, past);
      EveryRunIsSafe(cfg, past);
      if c.state != Done {
        CallIsLawful(c, SinceCookie(Story(cfg, past)), run.last.head, run.last.env);
      }
      NewCheckShows(c, run.last, what);
    }
  }

  lemma {:induction false} NewCheckShows(c: Client, e: Event, what: Check)
    requires c.state.ReadServerFinished? ==> c.readChanged
    requires c.state != Done ==> ChecksGrow(c, e, Handle(c, e.head, e.env))
    requires Call(c, e).Some? && what !in c.checks && what in Call(c, e).value.checks
    ensures Shows(what, c, c.io.transcript, e)
  {
  }

  /** A client that is done saw the server's Finished over everything that passed, under the changed read
      state; and one that finished a full handshake with certificates, or writes early in it, saw the chain
      verified and, for an ephemeral key exchange, the signature on a ServerKeyExchange. */
  lemma {:induction false} CompletionMeans(cfg: Config, run: Run<Event>)
    requires Play(cfg, run).Some?
    ensures var c := Play(cfg, run).value;
      && (c.state == Done ==> Made(cfg, run, PeerFinished))
      && ((c.canEarlyWrite || (c.state == Done && !c.resumed)) && c.params.auth == CertificateAuth ==>
            Made(cfg, run, ChainVerified) && (c.params.kex == EcdheExchange ==> Made(cfg, run, KeyExchangeSigned)))
  {
    EveryRunIsSafe(cfg, run);
    forall what | what in Play(cfg, run).value.checks
      ensures Made(cfg, run, what)
    {
      ChecksWereMade(cfg, run, what);
    }
  }

  /** In any run: a call in which something went wrong says and hears nothing if it moves on at all, settles
      nothing, and does not complete the handshake; and callbacks are heeded. */
  lemma {:induction false} CallsAreHonest(cfg: Config, run: Run<Event>, e: Event)
    requires Play(cfg, run).Some? && Play(cfg, run).value.state != Done
    ensures var c := Play(cfg, run).value;
      && (!e.env.ok ==> Idle(c, Handle(c, e.head, e.env))) && Heeds(c, e.env, Handle(c, e.head, e.env))
  {
    EveryRunIsSafe(cfg, run);
    EveryRunIsLawful(cfg, run);
    CallIsLawful(Play(cfg, run).value, SinceCookie(Story(cfg, run)), e.head, e.env);
  }
}
