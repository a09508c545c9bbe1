/** What a run of the server means, whatever the client sends: the messages that passed fill the places of
    a handshake one after the other and are exactly what was hashed, and the checks were made on what they
    are about. */
module ServerHistory {
  import opened Wrappers
  import opened Handshake
  import opened ServerHandshake
  import opened HandshakeFlow
  import opened HandshakeGrammar
  import P = HandshakeProduct

  function Form(resumed: bool, p: Params, asked: bool, chain: nat, hint: bool): nat -> Place {
    if resumed then (n: nat) => ResumedForm(p, n) else (n: nat) => ServerFullForm(p, asked, chain, hint, n)
  }

  function FormOf(s: Server): nat -> Place {
    Form(s.resumed, s.params, s.certRequest, s.chain, s.cfg.pskHint)
  }

  /** The items are what the server has said and heard, in order, and nothing else was hashed. */
  ghost predicate Told(s: Server, items: seq<Item>) {
    s.io.transcript == HashedAll(items) && Fills(FormOf(s), P.ServerStage(s), items)
  }

  /** What the ServerHello said and the server has still to act on. */
  predicate Keeps(s: Server) {
    && (Rank(s) >= 5 ==> s.params.ticket == s.ticketExpected && s.params.echoed == s.resumed)
    && (Rank(s) >= 5 && s.params.channelId ==> s.params.kex == EcdheExchange)
    && (s.state.SendServerKeyExchange? ==>
          s.hasParams == (s.params.kex == EcdheExchange || (s.params.auth == PskAuth && s.cfg.pskHint)))
    && (s.certRequest ==> s.cfg.verifyPeer && s.params.auth == CertificateAuth)
    && (!s.certRequest ==> s.chain == 0)
    && (Rank(s) <= 3 ==> !s.certRequest)
  }

  ghost predicate Lawful(s: Server, items: seq<Item>) {
    Told(s, items) && Keeps(s)
  }

  /** The handler moved on by one place, filled by an item. */
  lemma {:induction false} Tells(s: Server, items: seq<Item>, item: Item, after: Server)
    requires Told(s, items) && P.ServerStage(after) == P.ServerStage(s) + 1
    requires Alike(FormOf(s), FormOf(after), P.ServerStage(s)) && !FormOf(after)(P.ServerStage(s)).Empty?
    requires Matches(FormOf(after)(P.ServerStage(s)).sample, item, items)
    requires after.io.transcript == s.io.transcript + Hashed(item)
    ensures Told(after, items + [item])
  {
    FillsOn(FormOf(s), FormOf(after), P.ServerStage(s), items, item);
  }

  /** The handler moved on by one place, which stays empty. */
  lemma {:induction false} Passes(s: Server, items: seq<Item>, after: Server)
    requires Told(s, items) && P.ServerStage(after) == P.ServerStage(s) + 1
    requires FormOf(after) == FormOf(s) && !FormOf(after)(P.ServerStage(s)).Must?
    requires after.io.transcript == s.io.transcript
    ensures Told(after, items)
  {
    FillsPast(FormOf(s), FormOf(after), P.ServerStage(s), items);
  }

  /** A handler that neither moves to another place nor changes what the places before it are. */
  lemma {:induction false} StaysTold(s: Server, items: seq<Item>, after: Server)
    requires Told(s, items) && P.ServerStage(after) == P.ServerStage(s)
    requires Alike(FormOf(s), FormOf(after), P.ServerStage(s)) && after.io.transcript == s.io.transcript
    ensures Told(after, items)
  {
    AlikeFills(FormOf(s), FormOf(after), P.ServerStage(s), items);
  }

  // ----- One handler call -----

  /** A handler call that moved on leaves the story lawful. */
  ghost predicate GoesOnLawfully(s: Server, items: seq<Item>, head: Option<Item>, o: Outcome<Server>) {
    o.Next? ==> Lawful(Flushed(o), items + Passed(s.io, head, Flushed(o).io))
  }

  /** A check is added only by the call it is about. */
  predicate ChecksGrow(s: Server, e: Event, o: Outcome<Server>) {
    o.Next? ==>
      || (s.state.VerifyClientCertificate? && o.hs.checks == s.checks + {ChainVerified} && e.env.verify == VerifyOk)
      || (s.state.ReadClientCertificateVerify? && o.hs.checks == s.checks + {PossessionProved}
          && e.head == Some(Handshake(CertificateVerify)) && e.env.signatureOk)
      || (s.state.ReadClientFinished? && o.hs.checks == s.checks + {PeerFinished}
          && e.head == Some(Handshake(Finished(false, s.io.transcript))) && e.env.ok)
      || o.hs.checks == s.checks
  }

  /** The handler has not said or heard, settled or checked anything. */
  predicate Idle(s: Server, o: Outcome<Server>) {
    o.Next? ==>
      && o.hs.io == s.io && !o.flush && o.hs.resumed == s.resumed && o.hs.params == s.params
      && o.hs.certRequest == s.certRequest && o.hs.chain == s.chain && o.hs.checks <= s.checks + {ChainVerified}
  }

  /** The server asks a callback: about the ClientHello, or to use its own key. */
  predicate Asks(s: Server) {
    match s.state
    case ReadClientHello => true
    case SelectCertificate => true
    case SelectParameters => true
    case SendServerKeyExchange => s.hasParams && s.params.auth == CertificateAuth
    case ReadClientKeyExchange => s.params.kex == RsaExchange
    case _ => false
  }

  predicate VerifiesChain(s: Server) {
    s.state.VerifyClientCertificate? && s.chain > 0
  }

  /** A callback is called again only when it asks for that, and nothing goes on without its leave; where a
      session is looked up, none found is an answer too. */
  predicate Heeds(s: Server, env: Env, o: Outcome<Server>) {
    && (o.Paused? ==> (VerifiesChain(s) && env.verify == VerifyRetry) || (Asks(s) && env.lookup == VerifyRetry))
    && (o.Next? && Asks(s) ==> env.lookup == VerifyOk || (s.state.SelectParameters? && env.lookup == VerifyInvalid))
    && (o.Next? && VerifiesChain(s) ==> env.verify == VerifyOk)
    && (o.Failed? ==> !(VerifiesChain(s) && env.verify == VerifyRetry))
  }

  predicate Honest(s: Server, head: Option<Item>, env: Env, o: Outcome<Server>) {
    ChecksGrow(s, Event(head, env), o) && (!env.ok ==> Idle(s, o)) && Heeds(s, env, o)
  }

  /** The story of a handler that heard one message. */
  lemma {:induction false} HearsLawfully(s: Server, items: seq<Item>, m: Msg, after: Server)
    requires after.io == s.io.Hear(m) && Lawful(after, items + [Handshake(m)])
    ensures GoesOnLawfully(s, items, Some(Handshake(m)), Goes(after))
  {
    assert Passed(s.io, Some(Handshake(m)), after.io) == [Handshake(m)];
  }

  /** The story of a handler that neither heard nor said anything. */
  lemma {:induction false} IdlesLawfully(s: Server, items: seq<Item>, head: Option<Item>, after: Server)
    requires after.io == s.io && Lawful(after, items)
    ensures GoesOnLawfully(s, items, head, Goes(after))
  {
    assert Passed(s.io, head, after.io) == [];
    assert items + [] == items;
  }

  /** The story of a handler that said one message. */
  lemma {:induction false} SaysLawfully(s: Server, items: seq<Item>, head: Option<Item>, m: Msg, after: Server)
    requires after.io == s.io.Say(m) && Lawful(after, items + [Handshake(m)])
    ensures GoesOnLawfully(s, items, head, Goes(after))
  {
    PassedOne(s.io, head, after.io, Handshake(m));
  }

  /** The story of a handler that sent several items, and perhaps flushed them. */
  lemma {:induction false} FlightIsLawful(s: Server, items: seq<Item>, head: Option<Item>, o: Outcome<Server>, n: nat)
    requires Lawful(s, items) && o.Next? && o.hs.io.got == s.io.got && Keeps(Flushed(o))
    requires o.hs.io.sent == Flushed(o).io.sent && o.hs.io.got == Flushed(o).io.got
    requires o.hs.io.transcript == Flushed(o).io.transcript
    requires P.ServerStage(Flushed(o)) == P.ServerStage(s) + n && FormOf(Flushed(o)) == FormOf(s)
    requires Adds(FormOf(s), P.ServerStage(s) + n, items, |s.io.sent|, o.hs.io)
    ensures GoesOnLawfully(s, items, head, o)
  {
    assert Passed(s.io, head, Flushed(o).io) == o.hs.io.sent[|s.io.sent|..];
  }

  /** A message read where the form has a place for it. */
  lemma {:induction false} ReadIsLawful(s: Server, items: seq<Item>, m: Msg, after: Server)
    requires Lawful(s, items) && Keeps(after) && after.io == s.io.Hear(m)
    requires P.ServerStage(after) == P.ServerStage(s) + 1
    requires Alike(FormOf(s), FormOf(after), P.ServerStage(s)) && !FormOf(after)(P.ServerStage(s)).Empty?
    requires Matches(FormOf(after)(P.ServerStage(s)).sample, Handshake(m), items)
    ensures GoesOnLawfully(s, items, Some(Handshake(m)), Goes(after))
  {
    Tells(s, items, Handshake(m), after);
    HearsLawfully(s, items, m, after);
  }

  /** A message said where the form has a place for it. */
  lemma {:induction false} SendIsLawful(s: Server, items: seq<Item>, head: Option<Item>, m: Msg, after: Server)
    requires Lawful(s, items) && Keeps(after) && after.io == s.io.Say(m)
    requires P.ServerStage(after) == P.ServerStage(s) + 1
    requires Alike(FormOf(s), FormOf(after), P.ServerStage(s)) && !FormOf(after)(P.ServerStage(s)).Empty?
    requires Matches(FormOf(after)(P.ServerStage(s)).sample, Handshake(m), items)
    ensures GoesOnLawfully(s, items, head, Goes(after))
  {
    Tells(s, items, Handshake(m), after);
    SaysLawfully(s, items, head, m, after);
  }

  /** A place that stays empty, whatever there is to read. */
  lemma {:induction false} SkipIsLawful(s: Server, items: seq<Item>, head: Option<Item>, after: Server)
    requires Lawful(s, items) && Keeps(after) && after.io == s.io
    requires P.ServerStage(after) == P.ServerStage(s) + 1
    requires FormOf(after) == FormOf(s) && !FormOf(after)(P.ServerStage(s)).Must?
    ensures GoesOnLawfully(s, items, head, Goes(after))
  {
    Passes(s, items, after);
    IdlesLawfully(s, items, head, after);
  }

  /** A handler that stays at its place. */
  lemma {:induction false} StayIsLawful(s: Server, items: seq<Item>, head: Option<Item>, after: Server)
    requires Lawful(s, items) && Keeps(after) && after.io == s.io && P.ServerStage(after) == P.ServerStage(s)
    requires Alike(FormOf(s), FormOf(after), P.ServerStage(s))
    ensures GoesOnLawfully(s, items, head, Goes(after))
  {
    StaysTold(s, items, after);
    IdlesLawfully(s, items, head, after);
  }

  // ----- The handlers -----

  lemma {:induction false} LookIsLawful(s: Server, items: seq<Item>, m: Msg, env: Env)
    requires Good(s) && Lawful(s, items) && s.state.ReadClientHello?
    ensures GoesOnLawfully(s, items, Some(Handshake(m)), AfterReadClientHello(s, m, env))
    ensures Honest(s, Some(Handshake(m)), env, AfterReadClientHello(s, m, env))
  {
    var o := AfterReadClientHello(s, m, env);
    if o.Next? {
      StayIsLawful(s, items, Some(Handshake(m)), o.hs);
    }
  }

  lemma {:induction false} SelectIsLawful(s: Server, items: seq<Item>, head: Option<Item>, env: Env)
    requires Good(s) && Lawful(s, items) && s.state.SelectCertificate?
    ensures GoesOnLawfully(s, items, head, AfterSelectCertificate(s, env))
    ensures Honest(s, head, env, AfterSelectCertificate(s, env))
  {
    var o := AfterSelectCertificate(s, env);
    if o.Next? {
      StayIsLawful(s, items, head, o.hs);
    }
  }

  lemma {:induction false} HelloIsLawful(s: Server, items: seq<Item>, m: Msg, env: Env)
    requires Good(s) && Lawful(s, items) && s.state.SelectParameters? && m.ClientHello?
    ensures GoesOnLawfully(s, items, Some(Handshake(m)), AfterSelectParameters(s, m, env))
    ensures Honest(s, Some(Handshake(m)), env, AfterSelectParameters(s, m, env))
  {
    var o := AfterSelectParameters(s, m, env);
    if o.Next? {
      ReadIsLawful(s, items, m, o.hs);
    }
  }

  lemma {:induction false} OwnHelloIsLawful(s: Server, items: seq<Item>, head: Option<Item>, env: Env)
    requires Good(s) && Lawful(s, items) && s.state.SendServerHello?
    ensures GoesOnLawfully(s, items, head, AfterSendServerHello(s, env))
    ensures Honest(s, head, env, AfterSendServerHello(s, env))
  {
    var o := AfterSendServerHello(s, env);
    if o.Next? {
      SendIsLawful(s, items, head, ServerHello(o.hs.params), o.hs);
    }
  }

  lemma {:induction false} CertificateIsLawful(s: Server, items: seq<Item>, m: Msg, env: Env)
    requires Good(s) && Lawful(s, items) && s.state.ReadClientCertificate? && WantsMessage(s)
    ensures GoesOnLawfully(s, items, Some(Handshake(m)), AfterReadClientCertificate(s, m, env))
    ensures Honest(s, Some(Handshake(m)), env, AfterReadClientCertificate(s, m, env))
  {
    var o := AfterReadClientCertificate(s, m, env);
    if o.Next? {
      ReadIsLawful(s, items, m, o.hs);
    }
  }

  lemma {:induction false} KeyExchangeIsLawful(s: Server, items: seq<Item>, m: Msg, env: Env)
    requires Good(s) && Lawful(s, items) && s.state.ReadClientKeyExchange?
    ensures GoesOnLawfully(s, items, Some(Handshake(m)), AfterReadClientKeyExchange(s, m, env))
    ensures Honest(s, Some(Handshake(m)), env, AfterReadClientKeyExchange(s, m, env))
  {
    var o := AfterReadClientKeyExchange(s, m, env);
    if o.Next? {
      ReadIsLawful(s, items, m, o.hs);
    }
  }

  lemma {:induction false} VerifyIsLawful(s: Server, items: seq<Item>, m: Msg, env: Env)
    requires Good(s) && Lawful(s, items) && s.state.ReadClientCertificateVerify? && WantsMessage(s)
    ensures GoesOnLawfully(s, items, Some(Handshake(m)), AfterReadClientCertificateVerify(s, m, env))
    ensures Honest(s, Some(Handshake(m)), env, AfterReadClientCertificateVerify(s, m, env))
  {
    var o := AfterReadClientCertificateVerify(s, m, env);
    if o.Next? {
      ReadIsLawful(s, items, m, o.hs);
    }
  }

  lemma {:induction false} NextProtoIsLawful(s: Server, items: seq<Item>, m: Msg, env: Env)
    requires Good(s) && Lawful(s, items) && s.state.ReadNextProto? && WantsMessage(s)
    ensures GoesOnLawfully(s, items, Some(Handshake(m)), AfterReadNextProto(s, m, env))
    ensures Honest(s, Some(Handshake(m)), env, AfterReadNextProto(s, m, env))
  {
    var o := AfterReadNextProto(s, m, env);
    if o.Next? {
      ReadIsLawful(s, items, m, o.hs);
    }
  }

  lemma {:induction false} ChannelIdIsLawful(s: Server, items: seq<Item>, m: Msg, env: Env)
    requires Good(s) && Lawful(s, items) && s.state.ReadChannelId? && WantsMessage(s)
    ensures GoesOnLawfully(s, items, Some(Handshake(m)), AfterReadChannelId(s, m, env))
    ensures Honest(s, Some(Handshake(m)), env, AfterReadChannelId(s, m, env))
  {
    var o := AfterReadChannelId(s, m, env);
    if o.Next? {
      ReadIsLawful(s, items, m, o.hs);
    }
  }

  lemma {:induction false} FinishedMoves(s: Server, m: Msg, env: Env)
    requires Good(s) && Keeps(s) && s.state.ReadClientFinished?
    ensures var o, n := AfterReadClientFinished(s, m, env), P.ServerStage(s);
      o.Next? ==>
        && o == Goes(o.hs) && P.ServerStage(o.hs) == n + 1 && FormOf(o.hs) == FormOf(s) && Keeps(o.hs)
        && o.hs.io == s.io.Hear(m) && m == Finished(false, s.io.transcript) && FormOf(s)(n) == Must(FinishedBy(false))
    ensures Honest(s, Some(Handshake(m)), env, AfterReadClientFinished(s, m, env))
  {
  }

  lemma {:induction false} FinishedIsLawful(s: Server, items: seq<Item>, m: Msg, env: Env)
    requires Good(s) && Lawful(s, items) && s.state.ReadClientFinished?
    ensures GoesOnLawfully(s, items, Some(Handshake(m)), AfterReadClientFinished(s, m, env))
    ensures Honest(s, Some(Handshake(m)), env, AfterReadClientFinished(s, m, env))
  {
    var o := AfterReadClientFinished(s, m, env);
    FinishedMoves(s, m, env);
    if o.Next? {
      ReadIsLawful(s, items, m, o.hs);
    }
  }

  lemma {:induction false} MessageIsLawful(s: Server, items: seq<Item>, m: Msg, env: Env)
    requires Good(s) && Lawful(s, items) && WantsMessage(s) && (s.state.SelectParameters? ==> m.ClientHello?)
    ensures GoesOnLawfully(s, items, Some(Handshake(m)), OnMessage(s, m, env))
    ensures Honest(s, Some(Handshake(m)), env, OnMessage(s, m, env))
  {
    match s.state
    case ReadClientHello => LookIsLawful(s, items, m, env);
    case SelectCertificate => SelectIsLawful(s, items, Some(Handshake(m)), env);
    case SelectParameters => HelloIsLawful(s, items, m, env);
    case ReadClientCertificate => CertificateIsLawful(s, items, m, env);
    case ReadClientKeyExchange => KeyExchangeIsLawful(s, items, m, env);
    case ReadClientCertificateVerify => VerifyIsLawful(s, items, m, env);
    case ReadNextProto => NextProtoIsLawful(s, items, m, env);
    case ReadChannelId => ChannelIdIsLawful(s, items, m, env);
    case ReadClientFinished => FinishedIsLawful(s, items, m, env);
  }

  lemma {:induction false} CcsIsLawful(s: Server, items: seq<Item>, env: Env)
    requires Good(s) && Lawful(s, items) && s.state.ProcessChangeCipherSpec?
    ensures GoesOnLawfully(s, items, Some(ChangeCipherSpec), AfterProcessChangeCipherSpec(s, env))
    ensures Honest(s, Some(ChangeCipherSpec), env, AfterProcessChangeCipherSpec(s, env))
  {
    var o := AfterProcessChangeCipherSpec(s, env);
    if o.Next? {
      Tells(s, items, ChangeCipherSpec, o.hs);
      assert Passed(s.io, Some(ChangeCipherSpec), o.hs.io) == [ChangeCipherSpec];
    }
  }

  lemma {:induction false} SkipMoves(s: Server)
    requires Good(s) && Keeps(s) && !WantsMessage(s)
    requires s.state.ReadClientCertificate? || s.state.ReadClientCertificateVerify?
        || s.state.ReadNextProto? || s.state.ReadChannelId?
    ensures var after := AfterSkip(s).hs;
      && AfterSkip(s) == Goes(after) && Keeps(after) && after.io == s.io && P.ServerStage(after) == P.ServerStage(s) + 1
      && FormOf(after) == FormOf(s) && !FormOf(after)(P.ServerStage(s)).Must?
    ensures forall head, env :: Honest(s, head, env, AfterSkip(s))
  {
  }

  lemma {:induction false} EmptyPlaceIsLawful(s: Server, items: seq<Item>, head: Option<Item>, env: Env)
    requires Good(s) && Lawful(s, items) && !WantsMessage(s)
    requires s.state.ReadClientCertificate? || s.state.ReadClientCertificateVerify?
        || s.state.ReadNextProto? || s.state.ReadChannelId?
    ensures GoesOnLawfully(s, items, head, AfterSkip(s))
    ensures Honest(s, head, env, AfterSkip(s))
  {
    SkipMoves(s);
    SkipIsLawful(s, items, head, AfterSkip(s).hs);
  }

  /** The messages sent at the places n and n + 1 of the form, if at all. */
  lemma {:induction false} TwoFill(form: nat -> Place, n: nat, items: seq<Item>, io: Io, one: bool, m: Msg, two: bool, k: Msg)
    requires Fills(form, n, items) && io.transcript == HashedAll(items)
    requires form(n) == MustIf(one, m) && form(n + 1) == MustIf(two, k)
    requires m != HelloVerifyRequest && k != HelloVerifyRequest
    ensures Adds(form, n + 2, items, |io.sent|, io.SayIf(one, m).SayIf(two, k))
  {
    AddsNothing(form, n, items, io);
    AddsIf(form, n, items, |io.sent|, io, one, m);
    AddsIf(form, n + 1, items, |io.sent|, io.SayIf(one, m), two, k);
  }

  lemma {:induction false} OwnCertificateIsLawful(s: Server, items: seq<Item>, head: Option<Item>, env: Env)
    requires Good(s) && Lawful(s, items) && s.state.SendServerCertificate?
    ensures GoesOnLawfully(s, items, head, AfterSendServerCertificate(s, env))
    ensures Honest(s, head, env, AfterSendServerCertificate(s, env))
  {
    var o := AfterSendServerCertificate(s, env);
    if o.Next? {
      var certified := s.params.auth == CertificateAuth;
      TwoFill(FormOf(s), P.ServerStage(s), items, s.io, certified, Certificate(1), certified && s.params.status, CertificateStatus);
      FlightIsLawful(s, items, head, o, 2);
    }
  }

  lemma {:induction false} KeyExchangeMoves(s: Server, head: Option<Item>, env: Env)
    requires Good(s) && Keeps(s) && s.state.SendServerKeyExchange?
    ensures var o := AfterSendServerKeyExchange(s, env);
      o.Next? ==>
        && o == Goes(o.hs) && P.ServerStage(o.hs) == P.ServerStage(s) + 1 && FormOf(o.hs) == FormOf(s) && Keeps(o.hs)
        && o.hs.io == s.io.SayIf(s.hasParams, ServerKeyExchange)
        && FormOf(s)(P.ServerStage(s)) == MustIf(s.hasParams, ServerKeyExchange)
    ensures Honest(s, head, env, AfterSendServerKeyExchange(s, env))
  {
  }

  lemma {:induction false} OwnKeyExchangeIsLawful(s: Server, items: seq<Item>, head: Option<Item>, env: Env)
    requires Good(s) && Lawful(s, items) && s.state.SendServerKeyExchange?
    ensures GoesOnLawfully(s, items, head, AfterSendServerKeyExchange(s, env))
    ensures Honest(s, head, env, AfterSendServerKeyExchange(s, env))
  {
    var o := AfterSendServerKeyExchange(s, env);
    KeyExchangeMoves(s, head, env);
    if o.Next? {
      if s.hasParams {
        SendIsLawful(s, items, head, ServerKeyExchange, o.hs);
      } else {
        SkipIsLawful(s, items, head, o.hs);
      }
    }
  }

  lemma {:induction false} HelloDoneMoves(s: Server, head: Option<Item>, env: Env)
    requires Good(s) && Keeps(s) && s.state.SendServerHelloDone?
    ensures var o := AfterSendServerHelloDone(s, env);
      o.Next? ==>
        && P.ServerStage(Flushed(o)) == P.ServerStage(s) + 2 && FormOf(Flushed(o)) == FormOf(s) && Keeps(Flushed(o))
        && o.hs.io == s.io.SayIf(s.certRequest, CertificateRequest).SayIf(true, ServerHelloDone)
        && Flushed(o).io == o.hs.io.Flush()
        && FormOf(s)(P.ServerStage(s)) == MustIf(s.certRequest, CertificateRequest)
        && FormOf(s)(P.ServerStage(s) + 1) == MustIf(true, ServerHelloDone)
    ensures Honest(s, head, env, AfterSendServerHelloDone(s, env))
  {
  }

  lemma {:induction false} TwoAreLawful(s: Server, items: seq<Item>, head: Option<Item>, o: Outcome<Server>,
                                        one: bool, m: Msg, two: bool, k: Msg)
    requires Lawful(s, items) && o.Next? && Keeps(Flushed(o)) && m != HelloVerifyRequest && k != HelloVerifyRequest
    requires P.ServerStage(Flushed(o)) == P.ServerStage(s) + 2 && FormOf(Flushed(o)) == FormOf(s)
    requires FormOf(s)(P.ServerStage(s)) == MustIf(one, m) && FormOf(s)(P.ServerStage(s) + 1) == MustIf(two, k)
    requires o.hs.io == s.io.SayIf(one, m).SayIf(two, k)
    requires Flushed(o).io == o.hs.io || Flushed(o).io == o.hs.io.Flush()
    ensures GoesOnLawfully(s, items, head, o)
  {
    TwoFill(FormOf(s), P.ServerStage(s), items, s.io, one, m, two, k);
    FlightIsLawful(s, items, head, o, 2);
  }

  lemma {:induction false} HelloDoneIsLawful(s: Server, items: seq<Item>, head: Option<Item>, env: Env)
    requires Good(s) && Lawful(s, items) && s.state.SendServerHelloDone?
    ensures GoesOnLawfully(s, items, head, AfterSendServerHelloDone(s, env))
    ensures Honest(s, head, env, AfterSendServerHelloDone(s, env))
  {
    var o := AfterSendServerHelloDone(s, env);
    HelloDoneMoves(s, head, env);
    if o.Next? {
      TwoAreLawful(s, items, head, o, s.certRequest, CertificateRequest, true, ServerHelloDone);
    }
  }

  /** The ticket, the ChangeCipherSpec and the Finished. */
  lemma {:induction false} LastFlightFills(form: nat -> Place, ticket: bool, n: nat, items: seq<Item>, io: Io, empty: bool)
    requires Fills(form, n, items) && io.transcript == HashedAll(items)
    requires form(n) == (if ticket then Must(AnyTicket) else Empty)
    requires form(n + 1) == Must(Exactly(ChangeCipherSpec)) && form(n + 2) == Must(FinishedBy(true))
    ensures var last := io.SayIf(ticket, NewSessionTicket(empty)).Add(ChangeCipherSpec);
      Adds(form, n + 3, items, |io.sent|, last.Say(Finished(true, last.transcript)))
  {
    var from := |io.sent|;
    AddsNothing(form, n, items, io);
    var one := io.SayIf(ticket, NewSessionTicket(empty));
    if ticket {
      AddsItem(form, n, items, from, io, Handshake(NewSessionTicket(empty)), one);
    } else {
      FillsPast(form, form, n, items + io.sent[from..]);
    }
    AddsItem(form, n + 1, items, from, one, ChangeCipherSpec, one.Add(ChangeCipherSpec));
    AddsFinished(form, n + 2, items, from, one.Add(ChangeCipherSpec), true);
  }

  lemma {:induction false} FlightMoves(s: Server, head: Option<Item>, env: Env)
    requires Good(s) && Keeps(s) && s.state.SendServerFinished?
    ensures var o := AfterSendServerFinished(s, env);
      o.Next? ==>
        && P.ServerStage(Flushed(o)) == P.ServerStage(s) + 3 && FormOf(Flushed(o)) == FormOf(s) && Keeps(Flushed(o))
        && Flushed(o).io == o.hs.io.Flush() && s.ticketExpected == s.params.ticket
        && (var last := s.io.SayIf(s.ticketExpected, NewSessionTicket(env.emptyTicket)).Add(ChangeCipherSpec);
            o.hs.io == last.Say(Finished(true, last.transcript)))
    ensures Honest(s, head, env, AfterSendServerFinished(s, env))
  {
  }

  lemma {:induction false} FlightForm(s: Server)
    requires Good(s) && Keeps(s) && s.state.SendServerFinished?
    ensures var form, n := FormOf(s), P.ServerStage(s);
      && form(n) == (if s.ticketExpected then Must(AnyTicket) else Empty)
      && form(n + 1) == Must(Exactly(ChangeCipherSpec)) && form(n + 2) == Must(FinishedBy(true))
  {
  }

  lemma {:induction false} OwnFlightIsLawful(s: Server, items: seq<Item>, head: Option<Item>, env: Env)
    requires Good(s) && Lawful(s, items) && s.state.SendServerFinished?
    ensures GoesOnLawfully(s, items, head, AfterSendServerFinished(s, env))
    ensures Honest(s, head, env, AfterSendServerFinished(s, env))
  {
    var o := AfterSendServerFinished(s, env);
    FlightMoves(s, head, env);
    if o.Next? {
      FlightForm(s);
      LastFlightFills(FormOf(s), s.ticketExpected, P.ServerStage(s), items, s.io, env.emptyTicket);
      FlightIsLawful(s, items, head, o, 3);
    }
  }

  lemma {:induction false} IdleStays(s: Server, env: Env)
    requires Good(s) && Keeps(s)
    requires s.state.StartAccept? || s.state.VerifyClientCertificate? || s.state.ReadChangeCipherSpec?
        || s.state.FinishServerHandshake?
    ensures var o := OnNothing(s, env);
      o.Next? ==> o == Goes(o.hs) && P.ServerStage(o.hs) == P.ServerStage(s) && FormOf(o.hs) == FormOf(s)
                  && o.hs.io == s.io && Keeps(o.hs)
    ensures forall head :: Honest(s, head, env, OnNothing(s, env))
  {
  }

  lemma {:induction false} IdleIsLawful(s: Server, items: seq<Item>, head: Option<Item>, env: Env)
    requires Good(s) && Lawful(s, items)
    requires s.state.StartAccept? || s.state.VerifyClientCertificate? || s.state.ReadChangeCipherSpec?
        || s.state.FinishServerHandshake?
    ensures GoesOnLawfully(s, items, head, OnNothing(s, env))
    ensures Honest(s, head, env, OnNothing(s, env))
  {
    var o := OnNothing(s, env);
    IdleStays(s, env);
    if o.Next? {
      StayIsLawful(s, items, head, o.hs);
    }
  }

  lemma {:induction false} NothingIsLawful(s: Server, items: seq<Item>, head: Option<Item>, env: Env)
    requires Good(s) && Lawful(s, items) && !WantsMessage(s) && !s.state.ProcessChangeCipherSpec? && s.state != Done
    ensures GoesOnLawfully(s, items, head, OnNothing(s, env))
    ensures Honest(s, head, env, OnNothing(s, env))
  {
    match s.state
    case SendServerHello => OwnHelloIsLawful(s, items, head, env);
    case SendServerCertificate => OwnCertificateIsLawful(s, items, head, env);
    case SendServerKeyExchange => OwnKeyExchangeIsLawful(s, items, head, env);
    case SendServerHelloDone => HelloDoneIsLawful(s, items, head, env);
    case SendServerFinished => OwnFlightIsLawful(s, items, head, env);
    case ReadClientCertificate => EmptyPlaceIsLawful(s, items, head, env);
    case ReadClientCertificateVerify => EmptyPlaceIsLawful(s, items, head, env);
    case ReadNextProto => EmptyPlaceIsLawful(s, items, head, env);
    case ReadChannelId => EmptyPlaceIsLawful(s, items, head, env);
    case _ => IdleIsLawful(s, items, head, env);
  }

  lemma {:induction false} CallIsLawful(s: Server, items: seq<Item>, head: Option<Item>, env: Env)
    requires Good(s) && Lawful(s, items) && s.state != Done
    requires s.state.SelectParameters? && head.Some? && head.value.Handshake? ==> head.value.m.ClientHello?
    ensures GoesOnLawfully(s, items, head, Handle(s, head, env))
    ensures Honest(s, head, env, Handle(s, head, env))
  {
    if WantsMessage(s) {
      if head.Some? && head.value.Handshake? {
        MessageIsLawful(s, items, head.value.m, env);
      }
    } else if s.state.ProcessChangeCipherSpec? {
      if head == Some(ChangeCipherSpec) {
        CcsIsLawful(s, items, env);
      }
    } else {
      NothingIsLawful(s, items, head, env);
    }
  }

  // ----- Whole runs -----

  /** Everything the server consumed and sent in a run, in order. */
  function Story(cfg: Config, run: Run<Event>): seq<Item> {
    match run
    case Start => []
    case Then(past, e) =>
      match Play(cfg, past)
      case None => []
      case Some(s) =>
        match Call(s, e)
        case None => []
        case Some(after) => Story(cfg, past) + Passed(s.io, e.head, after.io)
  }

  predicate AtHello(s: Server) {
    s.state.SelectCertificate? || s.state.SelectParameters?
  }

  predicate IsHello(head: Option<Item>) {
    head.Some? && head.value.Handshake? && head.value.m.ClientHello?
  }

  /** While the server selects, the ClientHello is what it has looked at. */
  lemma {:induction false} SelectsOnHello(cfg: Config, run: Run<Event>)
    requires Play(cfg, run).Some? && Steady(cfg, run) && AtHello(Play(cfg, run).value)
    ensures IsHello(Awaiting(cfg, run))
  {
    if run.Then? {
      var before := Play(cfg, run.past).value;
      if AtHello(before) {
        SelectsOnHello(cfg, run.past);
      }
      EveryRunIsSafe(cfg, run.past);
      HelloStays(before, run.last);
    }
  }

  /** Only looking at the ClientHello, or selecting the certificate, leads on to selecting. */
  lemma {:induction false} SelectsAfter(s: Server, head: Option<Item>, env: Env)
    requires Good(s) && s.state != Done && Handle(s, head, env).Next? && AtHello(Handle(s, head, env).hs)
    ensures s.state.ReadClientHello? || s.state.SelectCertificate?
  {
    assert Rank(s) < 3;
  }

  lemma {:induction false} LookKeepsHello(s: Server, head: Option<Item>, env: Env)
    requires (s.state.ReadClientHello? || s.state.SelectCertificate?) && Handle(s, head, env).Next?
    ensures Handle(s, head, env).hs.io == s.io && (s.state.ReadClientHello? ==> IsHello(head))
  {
  }

  lemma {:induction false} HelloStays(s: Server, e: Event)
    requires Good(s) && Call(s, e).Some? && AtHello(Call(s, e).value) && (AtHello(s) ==> IsHello(e.head))
    ensures Call(s, e).value.io.got == s.io.got && IsHello(e.head)
  {
    if s.state != Done && Handle(s, e.head, e.env).Next? {
      SelectsAfter(s, e.head, e.env);
      LookKeepsHello(s, e.head, e.env);
    }
  }

  lemma {:induction false} RunIsLawful(cfg: Config, run: Run<Event>)
    requires Play(cfg, run).Some? && Steady(cfg, run)
    ensures Lawful(Play(cfg, run).value, Story(cfg, run))
  {
    if run.Then? {
      var past := run.past;
      RunIsLawful(cfg, past);
      EveryRunIsSafe(cfg, past);
      if AtHello(Play(cfg, past).value) {
        SelectsOnHello(cfg, past);
      }
      OneCallIsLawful(Play(cfg, past).value, Story(cfg, past), run.last);
    } else {
      assert HashedAll([]) == [];
    }
  }

  lemma {:induction false} DoneIsWhole(s: Server, items: seq<Item>)
    requires Good(s) && Lawful(s, items)
    ensures s.state == Done ==> Fills(FormOf(s), if s.resumed then 9 else 17, items) && s.params.echoed == s.resumed
    ensures s.certRequest ==> !s.resumed && s.cfg.verifyPeer && s.params.auth == CertificateAuth
    ensures s.state == Done && s.certRequest && s.cfg.failWithoutCertificate ==> s.chain > 0
  {
  }

  /** Whatever the client sends: what has passed is all that was hashed, and fills the places of a handshake
      up to where the server stands; so a server that is done has been through one whole handshake, full or
      resumed, and said in its ServerHello which. It takes a client's certificate only where it may ask for
      one, and then one that is not empty if it insists. */
  lemma {:induction false} EveryRunIsLawful(cfg: Config, run: Run<Event>)
    requires Play(cfg, run).Some? && Steady(cfg, run)
    ensures var s, items := Play(cfg, run).value, Story(cfg, run);
      && Lawful(s, items) && s.io.transcript == HashedAll(items)
      && (s.state == Done ==> Fills(FormOf(s), if s.resumed then 9 else 17, items))
      && (s.state == Done ==> s.params.echoed == s.resumed)
      && (s.certRequest ==> !s.resumed && cfg.verifyPeer && s.params.auth == CertificateAuth)
      && (s.state == Done && s.certRequest && cfg.failWithoutCertificate ==> s.chain > 0)
  {
    EveryRunIsSafe(cfg, run);
    RunIsLawful(cfg, run);
    DoneIsWhole(Play(cfg, run).value, Story(cfg, run));
  }

  lemma {:induction false} OneCallIsLawful(s: Server, items: seq<Item>, e: Event)
    requires Good(s) && Lawful(s, items) && Call(s, e).Some? && (AtHello(s) ==> IsHello(e.head))
    ensures Lawful(Call(s, e).value, items + Passed(s.io, e.head, Call(s, e).value.io))
  {
    if s.state != Done && Handle(s, e.head, e.env).Next? {
      CallIsLawful(s, items, e.head, e.env);
    } else {
      assert items + Passed(s.io, e.head, s.io) == items;
    }
  }

  // ----- What the checks were made on -----

  /** The call in which a check was made; `t` is what has been hashed before it. */
  predicate Shows(what: Check, s: Server, t: seq<Msg>, e: Event) {
    match what
    case ChainVerified => s.state.VerifyClientCertificate? && e.env.verify == VerifyOk
    case PossessionProved =>
      s.state.ReadClientCertificateVerify? && e.head == Some(Handshake(CertificateVerify)) && e.env.signatureOk
    case PeerFinished =>
      s.state.ReadClientFinished? && s.readChanged && e.head == Some(Handshake(Finished(false, t))) && e.env.ok
    case KeyExchangeSigned => false
  }

  /** Some call of the run made the check. */
  predicate Made(cfg: Config, run: Run<Event>, what: Check) {
    && run.Then?
    && (|| Made(cfg, run.past, what)
        || (Play(cfg, run.past).Some?
            && Shows(what, Play(cfg, run.past).value, HashedAll(Story(cfg, run.past)), run.last)))
  }

  lemma {:induction false} ChecksWereMade(cfg: Config, run: Run<Event>, what: Check)
    requires Play(cfg, run).Some? && Steady(cfg, run) && what in Play(cfg, run).value.checks
    ensures Made(cfg, run, what)
  {
    var past := run.past;
    var s := Play(cfg, past).value;
    if what in s.checks {
      ChecksWereMade(cfg, past, what);
    } else {
      EveryRunIsLawful(cfg, past);
      EveryRunIsSafe(cfg, past);
      if AtHello(s) {
        SelectsOnHello(cfg, past);
      }
      if s.state != Done {
        CallIsLawful(s, Story(cfg, past), run.last.head, run.last.env);
      }
      NewCheckShows(s, run.last, what);
    }
  }

  lemma {:induction false} NewCheckShows(s: Server, e: Event, what: Check)
    requires s.state.ReadClientFinished? ==> s.readChanged
    requires s.state != Done ==> ChecksGrow(s, e, Handle(s, e.head, e.env))
    requires Call(s, e).Some? && what !in s.checks && what in Call(s, e).value.checks
    ensures Shows(what, s, s.io.transcript, e)
  {
  }

  /** A server that is done saw the client's Finished over everything that passed, under the changed read
      state; and if the client sent a certificate chain, it saw that chain verified and a signature that
      proves the client has the key. */
  lemma {:induction false} CompletionMeans(cfg: Config, run: Run<Event>)
    requires Play(cfg, run).Some? && Steady(cfg, run) && Play(cfg, run).value.state == Done
    ensures Made(cfg, run, PeerFinished)
    ensures Play(cfg, run).value.chain > 0 ==> Made(cfg, run, ChainVerified) && Made(cfg, run, PossessionProved)
  {
    EveryRunIsSafe(cfg, run);
    forall what | what in Play(cfg, run).value.checks
      ensures Made(cfg, run, what)
    {
      ChecksWereMade(cfg, run, what);
    }
  }

  /** In any run: a call in which something went wrong says and hears nothing if it moves on at all, and
      settles nothing; and callbacks are heeded. */
  lemma {:induction false} CallsAreHonest(cfg: Config, run: Run<Event>, e: Event)
    requires Play(cfg, run).Some? && Steady(cfg, Then(run, e)) && Play(cfg, run).value.state != Done
    ensures var s := Play(cfg, run).value;
      && (!e.env.ok ==> Idle(s, Handle(s, e.head, e.env))) && Heeds(s, e.env, Handle(s, e.head, e.env))
  {
    EveryRunIsSafe(cfg, run);
    EveryRunIsLawful(cfg, run);
    if AtHello(Play(cfg, run).value) {
      SelectsOnHello(cfg, run);
    }
    CallIsLawful(Play(cfg, run).value, Story(cfg, run), e.head, e.env);
  }
}
