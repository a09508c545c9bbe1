/** The server's handshake in place: the handlers that assign the fields of the handshake, the loop that
    calls them, and the loop that resolves what they wait for. */
module ServerMachine {
  import opened Wrappers
  import opened Handshake
  import opened ServerHandshake

  class ServerHs {
    const cfg: Config
    const ssl: Connection
    var state: State
    var resumed: bool
    var params: Params
    var certRequest: bool
    var ticketExpected: bool
    var chain: nat
    var hasParams: bool
    var readChanged: bool
    var writeChanged: bool
    ghost var checks: set<Check>

    constructor (cfg: Config)
      ensures this.cfg == cfg && fresh(ssl) && Value() == NewServer(cfg) && ssl.inbox == None
    {
      this.cfg, state := cfg, StartAccept;
      ssl := new Connection();
      resumed, params, certRequest, ticketExpected, chain := false, NO_PARAMS, false, false, 0;
      hasParams, readChanged, writeChanged, checks := false, false, false, {};
    }

    ghost function Value(): Server
      reads this, ssl
    {
      Server(state, cfg, resumed, params, certRequest, ticketExpected, chain, hasParams,
             readChanged, writeChanged, checks, ssl.io)
    }

    /** A handler that returned `ret` did what it has to do. */
    ghost predicate Did(o: Outcome<Server>, before: Server, head: Option<Item>, ret: Wait)
      reads this, ssl
    {
      match o
      case Failed => ret == WaitError
      case Blocked => ret == WaitRead && Value() == before && ssl.inbox == head
      case Paused => ret == WaitCallback && Value() == before && ssl.inbox == head
      case Next(hs, flush, early) =>
        && ret == (if flush then WaitFlush else if early then WaitEarly else WaitOk)
        && Value() == hs && ssl.inbox == if hs.io.got > before.io.got then None else head
    }

    method DoStartAccept() returns (ret: Wait)
      requires state == StartAccept
      modifies this, ssl
      ensures Did(AfterStartAccept(old(Value())), old(Value()), old(ssl.inbox), ret)
    {
      state := ReadClientHello;
      return WaitOk;
    }

    method DoReadClientHello(env: Env) returns (ret: Wait)
      requires state == ReadClientHello
      modifies this, ssl
      ensures Did(Reading(old(ssl.inbox), AfterReadClientHello(old(Value()), MessageOf(old(ssl.inbox)), env)),
                  old(Value()), old(ssl.inbox), ret)
    {
      var msg, otherwise := ssl.GetMessage();
      if msg.None? {
        return otherwise;
      }
      if !msg.value.ClientHello? {
        return WaitError;
      }
      if env.lookup == VerifyRetry {
        return WaitCallback;
      }
      if env.lookup == VerifyInvalid || !env.ok {
        return WaitError;
      }
      params := params.(status := env.offer.status, npn := env.offer.npn, channelId := env.offer.channelId);
      state := SelectCertificate;
      return WaitOk;
    }

    method DoSelectCertificate(env: Env) returns (ret: Wait)
      requires state == SelectCertificate
      modifies this, ssl
      ensures Did(Reading(old(ssl.inbox), AfterSelectCertificate(old(Value()), env)),
                  old(Value()), old(ssl.inbox), ret)
    {
      var msg, otherwise := ssl.GetMessage();
      if msg.None? {
        return otherwise;
      }
      if env.lookup == VerifyRetry {
        return WaitCallback;
      }
      if env.lookup == VerifyInvalid || !env.ok {
        return WaitError;
      }
      params := params.(kex := env.offer.kex, auth := env.offer.auth, aead := env.offer.aead);
      state := SelectParameters;
      return WaitOk;
    }

    method DoSelectParameters(env: Env) returns (ret: Wait)
      requires state == SelectParameters
      modifies this, ssl
      ensures Did(Reading(old(ssl.inbox), AfterSelectParameters(old(Value()), MessageOf(old(ssl.inbox)), env)),
                  old(Value()), old(ssl.inbox), ret)
    {
      var msg, otherwise := ssl.GetMessage();
      if msg.None? {
        return otherwise;
      }
      if env.lookup == VerifyRetry {
        return WaitCallback;
      }
      if !env.ok {
        return WaitError;
      }
      resumed := env.offer.resume;
      ticketExpected := if resumed then env.offer.renew else env.offer.tickets;
      certRequest := false;
      if !resumed {
        certRequest := MayRequestCertificate();
      }
      ssl.HearMessage(msg.value);
      state := SendServerHello;
      return WaitOk;
    }

    method MayRequestCertificate() returns (may: bool)
      ensures may == (cfg.verifyPeer && !(cfg.unlessChannelId && params.channelId) && params.auth == CertificateAuth)
    {
      may := cfg.verifyPeer;
      if cfg.unlessChannelId && params.channelId {
        may := false;
      }
      if params.auth != CertificateAuth {
        may := false;
      }
    }

    method DoSendServerHello(env: Env) returns (ret: Wait)
      requires state == SendServerHello && FlightFits(Value())
      modifies this, ssl
      ensures Did(AfterSendServerHello(old(Value()), env), old(Value()), old(ssl.inbox), ret)
    {
      var channelId := params.channelId;
      if channelId && params.kex != EcdheExchange {
        channelId := false;
      }
      if resumed && !env.offer.hashesRecorded {
        channelId := false;
      }
      params := params.(echoed := resumed, ticket := ticketExpected, channelId := channelId);
      var ok := ssl.AddMessage(ServerHello(params));
      if !ok || !env.ok {
        return WaitError;
      }
      state := if resumed then SendServerFinished else SendServerCertificate;
      return WaitOk;
    }

    method DoSendServerCertificate(env: Env) returns (ret: Wait)
      requires state == SendServerCertificate && FlightFits(Value())
      modifies this, ssl
      ensures Did(AfterSendServerCertificate(old(Value()), env), old(Value()), old(ssl.inbox), ret)
    {
      if params.auth == CertificateAuth {
        if !cfg.hasCertificate {
          return WaitError;
        }
        var ok := ssl.AddMessage(Certificate(1));
        if !ok {
          return WaitError;
        }
        if params.status {
          ok := ssl.AddMessage(CertificateStatus);
          if !ok {
            return WaitError;
          }
        }
      }
      if !env.ok {
        return WaitError;
      }
      hasParams := params.kex == EcdheExchange || (params.auth == PskAuth && cfg.pskHint);
      state := SendServerKeyExchange;
      return WaitOk;
    }

    method DoSendServerKeyExchange(env: Env) returns (ret: Wait)
      requires state == SendServerKeyExchange && FlightFits(Value())
      modifies this, ssl
      ensures Did(AfterSendServerKeyExchange(old(Value()), env), old(Value()), old(ssl.inbox), ret)
    {
      if !hasParams {
        state := SendServerHelloDone;
        return WaitOk;
      }
      if params.auth == CertificateAuth {
        if env.lookup == VerifyRetry {
          return WaitCallback;
        }
        if env.lookup == VerifyInvalid {
          return WaitError;
        }
      }
      var ok := ssl.AddMessage(ServerKeyExchange);
      if !ok || !env.ok {
        return WaitError;
      }
      hasParams := false;
      state := SendServerHelloDone;
      return WaitOk;
    }

    method DoSendServerHelloDone(env: Env) returns (ret: Wait)
      requires state == SendServerHelloDone && FlightFits(Value())
      modifies this, ssl
      ensures Did(AfterSendServerHelloDone(old(Value()), env), old(Value()), old(ssl.inbox), ret)
    {
      var ok;
      if certRequest {
        ok := ssl.AddMessage(CertificateRequest);
        if !ok {
          return WaitError;
        }
      }
      ok := ssl.AddMessage(ServerHelloDone);
      if !ok || !env.ok {
        return WaitError;
      }
      state := ReadClientCertificate;
      return WaitFlush;
    }

    method DoReadClientCertificate(env: Env) returns (ret: Wait)
      requires state == ReadClientCertificate
      modifies this, ssl
      ensures Did(if WantsMessage(old(Value())) then
          Reading(old(ssl.inbox), AfterReadClientCertificate(old(Value()), MessageOf(old(ssl.inbox)), env))
                  else AfterSkip(old(Value())),
                  old(Value()), old(ssl.inbox), ret)
    {
      if !certRequest {
        state := VerifyClientCertificate;
        return WaitOk;
      }
      var msg, otherwise := ssl.GetMessage();
      if msg.None? {
        return otherwise;
      }
      if !msg.value.Certificate? || !env.ok {
        return WaitError;
      }
      chain := msg.value.count;
      if chain == 0 && cfg.failWithoutCertificate {
        return WaitError;
      }
      ssl.HearMessage(msg.value);
      state := VerifyClientCertificate;
      return WaitOk;
    }

    method DoVerifyClientCertificate(env: Env) returns (ret: Wait)
      requires state == VerifyClientCertificate
      modifies this, ssl
      ensures Did(AfterVerifyClientCertificate(old(Value()), env), old(Value()), old(ssl.inbox), ret)
    {
      if chain > 0 {
        match env.verify {
          case VerifyOk =>
            checks := checks + {ChainVerified};
          case VerifyInvalid =>
            return WaitError;
          case VerifyRetry =>
            return WaitCallback;
        }
      }
      state := ReadClientKeyExchange;
      return WaitOk;
    }

    method DoReadClientKeyExchange(env: Env) returns (ret: Wait)
      requires state == ReadClientKeyExchange
      modifies this, ssl
      ensures Did(Reading(old(ssl.inbox), AfterReadClientKeyExchange(old(Value()), MessageOf(old(ssl.inbox)), env)),
                  old(Value()), old(ssl.inbox), ret)
    {
      var msg, otherwise := ssl.GetMessage();
      if msg.None? {
        return otherwise;
      }
      if !msg.value.ClientKeyExchange? {
        return WaitError;
      }
      if params.kex == RsaExchange {
        if env.lookup == VerifyRetry {
          return WaitCallback;
        }
        if env.lookup == VerifyInvalid {
          return WaitError;
        }
      }
      if !env.ok {
        return WaitError;
      }
      ssl.HearMessage(msg.value);
      state := ReadClientCertificateVerify;
      return WaitOk;
    }

    method DoReadClientCertificateVerify(env: Env) returns (ret: Wait)
      requires state == ReadClientCertificateVerify
      modifies this, ssl
      ensures Did(if WantsMessage(old(Value())) then
          Reading(old(ssl.inbox), AfterReadClientCertificateVerify(old(Value()), MessageOf(old(ssl.inbox)), env))
                  else AfterSkip(old(Value())),
                  old(Value()), old(ssl.inbox), ret)
    {
      if chain == 0 {
        state := ReadChangeCipherSpec;
        return WaitOk;
      }
      var msg, otherwise := ssl.GetMessage();
      if msg.None? {
        return otherwise;
      }
      if !msg.value.CertificateVerify? || !env.ok || !env.signatureOk {
        return WaitError;
      }
      checks := checks + {PossessionProved};
      ssl.HearMessage(msg.value);
      state := ReadChangeCipherSpec;
      return WaitOk;
    }

    method DoReadChangeCipherSpec() returns (ret: Wait)
      requires state == ReadChangeCipherSpec
      modifies this, ssl
      ensures Did(AfterReadChangeCipherSpec(old(Value())), old(Value()), old(ssl.inbox), ret)
    {
      state := ProcessChangeCipherSpec;
      return WaitOk;
    }

    method DoProcessChangeCipherSpec(env: Env) returns (ret: Wait)
      requires state == ProcessChangeCipherSpec
      modifies this, ssl
      ensures Did(Handle(old(Value()), old(ssl.inbox), env), old(Value()), old(ssl.inbox), ret)
    {
      var ok, otherwise := ssl.ReadChangeCipherSpec();
      if !ok {
        return otherwise;
      }
      if !env.ok {
        return WaitError;
      }
      readChanged := true;
      state := ReadNextProto;
      return WaitOk;
    }

    method DoReadNextProto(env: Env) returns (ret: Wait)
      requires state == ReadNextProto
      modifies this, ssl
      ensures Did(if WantsMessage(old(Value())) then
          Reading(old(ssl.inbox), AfterReadNextProto(old(Value()), MessageOf(old(ssl.inbox)), env))
                  else AfterSkip(old(Value())),
                  old(Value()), old(ssl.inbox), ret)
    {
      if !params.npn {
        state := ReadChannelId;
        return WaitOk;
      }
      var msg, otherwise := ssl.GetMessage();
      if msg.None? {
        return otherwise;
      }
      if !msg.value.NextProto? || !env.ok {
        return WaitError;
      }
      ssl.HearMessage(msg.value);
      state := ReadChannelId;
      return WaitOk;
    }

    method DoReadChannelId(env: Env) returns (ret: Wait)
      requires state == ReadChannelId
      modifies this, ssl
      ensures Did(if WantsMessage(old(Value())) then
          Reading(old(ssl.inbox), AfterReadChannelId(old(Value()), MessageOf(old(ssl.inbox)), env))
                  else AfterSkip(old(Value())),
                  old(Value()), old(ssl.inbox), ret)
    {
      if !params.channelId {
        state := ReadClientFinished;
        return WaitOk;
      }
      var msg, otherwise := ssl.GetMessage();
      if msg.None? {
        return otherwise;
      }
      if !msg.value.ChannelId? || !env.ok {
        return WaitError;
      }
      ssl.HearMessage(msg.value);
      state := ReadClientFinished;
      return WaitOk;
    }

    method DoReadClientFinished(env: Env) returns (ret: Wait)
      requires state == ReadClientFinished
      modifies this, ssl
      ensures Did(Reading(old(ssl.inbox), AfterReadClientFinished(old(Value()), MessageOf(old(ssl.inbox)), env)),
                  old(Value()), old(ssl.inbox), ret)
    {
      var wait := ssl.GetFinished(false, env.ok);
      if wait != WaitOk {
        return wait;
      }
      checks := checks + {PeerFinished};
      state := if resumed then FinishServerHandshake else SendServerFinished;
      return WaitOk;
    }

    method DoSendServerFinished(env: Env) returns (ret: Wait)
      requires state == SendServerFinished && FlightFits(Value())
      modifies this, ssl
      ensures Did(AfterSendServerFinished(old(Value()), env), old(Value()), old(ssl.inbox), ret)
    {
      var ok;
      if ticketExpected {
        ok := ssl.AddMessage(NewSessionTicket(env.emptyTicket));
        if !ok {
          return WaitError;
        }
      }
      ok := ssl.AddItem(ChangeCipherSpec);
      if !ok || !env.ok {
        return WaitError;
      }
      writeChanged := true;
      ok := ssl.SendFinished(true);
      if !ok {
        return WaitError;
      }
      state := if resumed then ReadChangeCipherSpec else FinishServerHandshake;
      return WaitFlush;
    }

    method DoFinishServerHandshake() returns (ret: Wait)
      requires state == FinishServerHandshake
      modifies this, ssl
      ensures Did(AfterFinishServerHandshake(old(Value())), old(Value()), old(ssl.inbox), ret)
    {
      state := Done;
      return WaitOk;
    }

    /** The handlers, by state. */
    method CallHandler(env: Env) returns (ret: Wait)
      requires state != Done && Good(Value())
      modifies this, ssl
      ensures Did(Handle(old(Value()), old(ssl.inbox), env), old(Value()), old(ssl.inbox), ret)
    {
      match state
      case StartAccept => ret := DoStartAccept();
      case ReadClientHello => ret := DoReadClientHello(env);
      case SelectCertificate => ret := DoSelectCertificate(env);
      case SelectParameters => ret := DoSelectParameters(env);
      case SendServerHello => ret := DoSendServerHello(env);
      case SendServerCertificate => ret := DoSendServerCertificate(env);
      case SendServerKeyExchange => ret := DoSendServerKeyExchange(env);
      case SendServerHelloDone => ret := DoSendServerHelloDone(env);
      case ReadClientCertificate => ret := DoReadClientCertificate(env);
      case VerifyClientCertificate => ret := DoVerifyClientCertificate(env);
      case ReadClientKeyExchange => ret := DoReadClientKeyExchange(env);
      case ReadClientCertificateVerify => ret := DoReadClientCertificateVerify(env);
      case ReadChangeCipherSpec => ret := DoReadChangeCipherSpec();
      case ProcessChangeCipherSpec => ret := DoProcessChangeCipherSpec(env);
      case ReadNextProto => ret := DoReadNextProto(env);
      case ReadChannelId => ret := DoReadChannelId(env);
      case ReadClientFinished => ret := DoReadClientFinished(env);
      case SendServerFinished => ret := DoSendServerFinished(env);
      case FinishServerHandshake => ret := DoFinishServerHandshake();
    }
  }

  // ----- The driver -----

  /** The log of handler calls leads to where the handshake stands, each call was given what the one before
      looked at and left, and so is the next. */
  ghost predicate Follows(cfg: Config, log: Run<Event>, s: Server, next: Option<Item>) {
    Play(cfg, log) == Some(s) && Steady(cfg, log) && (Awaiting(cfg, log).Some? ==> next == Awaiting(cfg, log))
  }

  lemma {:induction false} FollowsIsGood(cfg: Config, log: Run<Event>, s: Server, next: Option<Item>)
    requires Follows(cfg, log, s, next)
    ensures Good(s)
  {
    EveryRunIsSafe(cfg, log);
  }

  lemma {:induction false} FollowsOn(cfg: Config, log: Run<Event>, s: Server, e: Event)
    requires Follows(cfg, log, s, e.head) && s.state != Done && Handle(s, e.head, e.env).Next?
    ensures var o := Handle(s, e.head, e.env);
      && Follows(cfg, Then(log, e), Flushed(o), if o.hs.io.got > s.io.got then None else e.head)
      && Rank(s) < Rank(o.hs) && !o.early && s.io.got <= o.hs.io.got
  {
    FollowsIsGood(cfg, log, s, e.head);
  }

  /** A message is only lacking when there is none. */
  lemma {:induction false} BlockedOnNothing(s: Server, head: Option<Item>, env: Env)
    requires s.state != Done && Handle(s, head, env).Blocked?
    ensures head.None?
  {
  }

  /** A handler call: where the handshake stood, and what the handler was given. */
  datatype Called = Called(s: Server, e: Event) {
    function Ended(): Outcome<Server>
      requires s.state != Done
    {
      Handle(s, e.head, e.env)
    }
  }

  class Machine {
    const hs: ServerHs
    var wait: Wait
    ghost var log: Run<Event>
    /** The last handler call. */
    ghost var last: Option<Called>
    /** What the network answered, each time it was asked to write or to read. */
    ghost var answers: seq<int>
    /** Stands for Follows, so that the proofs of this class do not replay the run. */
    ghost const reached: (Run<Event>, Server, Option<Item>) -> bool

    /** The handshake stands where its handler calls so far lead, but for a flight still to be flushed. */
    ghost predicate Valid()
      reads this, hs, hs.ssl
    {
      && (forall past, s, next {:trigger Follows(hs.cfg, past, s, next)} ::
            reached(past, s, next) <==> Follows(hs.cfg, past, s, next))
      && wait != WaitError && reached(log, Standing(), hs.ssl.inbox)
    }

    ghost function Standing(): Server
      reads this, hs, hs.ssl
    {
      if wait == WaitFlush then hs.Value().(io := hs.ssl.io.Flush()) else hs.Value()
    }

    /** The last handler call, made where the log leads, failed or asked for a callback again. */
    ghost predicate Stopped(failed: bool)
      reads this
    {
      && last.Some? && last.value.s.state != Done && reached(log, last.value.s, last.value.e.head)
      && (if failed then last.value.Ended().Failed? else last.value.Ended().Paused?)
    }

    constructor (cfg: Config)
      ensures Valid() && hs.cfg == cfg && hs.Value() == NewServer(cfg) && hs.ssl.inbox == None
      ensures wait == WaitOk && answers == [] && last == None
      ensures fresh(hs) && fresh(hs.ssl)
    {
      hs := new ServerHs(cfg);
      wait, log, last, answers := WaitOk, Start, None, [];
      reached := (past, s, next) => Follows(cfg, past, s, next);
      new;
      assert Follows(cfg, Start, NewServer(cfg), None);
    }

    /** Runs the handler of the current state, with whatever its callbacks answer. */
    method CallHandler() returns (ret: Wait)
      requires Valid() && wait == WaitOk && hs.state != Done
      modifies this`wait, this`log, this`last, hs, hs.ssl
      ensures ret == wait && ret != WaitEarly && (ret != WaitError ==> Valid())
      ensures ret == WaitOk || ret == WaitFlush ==> Rank(old(hs.Value())) < Rank(hs.Value())
      ensures ret == WaitRead || ret == WaitCallback ==>
          hs.Value() == old(hs.Value()) && hs.ssl.inbox == old(hs.ssl.inbox)
      ensures ret == WaitRead ==> hs.ssl.inbox.None?
      ensures last.Some? && last.value.s == old(hs.Value()) && last.value.e.head == old(hs.ssl.inbox)
      ensures ret == WaitError || ret == WaitCallback ==> Stopped(ret == WaitError)
    {
      ghost var before, head := hs.Value(), hs.ssl.inbox;
      var env: Env := *;
      FollowsIsGood(hs.cfg, log, before, head);
      ret := hs.CallHandler(env);
      wait := ret;
      last := Some(Called(before, Event(head, env)));
      ghost var o := Handle(before, head, env);
      if o.Next? {
        FollowsOn(hs.cfg, log, before, Event(head, env));
        log := Then(log, Event(head, env));
        assert Follows(hs.cfg, log, Flushed(o), hs.ssl.inbox);
      } else if o.Blocked? {
        BlockedOnNothing(before, head, env);
      }
    }

    /** Runs handlers until one has to wait, or all is done. */
    method Handshake() returns (ret: Wait)
      requires Valid() && wait != WaitFlush
      modifies this`wait, this`log, this`last, hs, hs.ssl
      ensures ret == wait && ret != WaitEarly && (ret != WaitError ==> Valid())
      ensures ret == WaitOk ==> hs.state == Done && hs.readChanged && PeerFinished in hs.checks
      ensures ret == WaitOk && hs.chain > 0 ==> ChainVerified in hs.checks && PossessionProved in hs.checks
      ensures ret != WaitError ==> Rank(old(hs.Value())) <= Rank(hs.Value())
      ensures ret == WaitFlush || (ret == WaitRead && old(hs.ssl.inbox).Some?) ==>
          Rank(old(hs.Value())) < Rank(hs.Value())
      ensures ret == WaitRead ==> hs.ssl.inbox.None?
      ensures ret == WaitError || ret == WaitCallback ==> Stopped(ret == WaitError)
    {
      wait := WaitOk;
      while hs.state != Done
        invariant Valid() && wait == WaitOk && Rank(old(hs.Value())) <= Rank(hs.Value())
        invariant Rank(old(hs.Value())) < Rank(hs.Value()) || hs.ssl.inbox == old(hs.ssl.inbox)
        decreases 20 - Rank(hs.Value())
      {
        ret := CallHandler();
        if ret != WaitOk {
          return ret;
        }
      }
      FollowsIsGood(hs.cfg, log, hs.Value(), hs.ssl.inbox);
      return wait;
    }

    /** The network is asked to write the flight, or for more to read. */
    method AskNetwork() returns (answer: int)
      modifies this`answers
      ensures answers == old(answers) + [answer]
    {
      answer := *;
      answers := answers + [answer];
    }

    /** Writes the flight, or gets the next item from the network, whichever is waited for. Not positive
        exactly when the network does not let it. */
    method Resolve() returns (ret: int)
      requires Valid()
      modifies this`wait, this`answers, hs.ssl
      ensures Valid() && ret <= 1 && Rank(hs.Value()) == Rank(old(hs.Value()))
      ensures if old(wait) == WaitFlush || (old(wait) == WaitRead && old(hs.ssl.inbox).None?) then
          && |answers| == |old(answers)| + 1 && old(answers) <= answers
          && ret == if answers[|answers| - 1] > 0 then 1 else answers[|answers| - 1]
        else ret == 1 && answers == old(answers)
      ensures old(wait) == WaitFlush && ret > 0 ==> wait == WaitOk && hs.ssl.io == old(hs.ssl.io).Flush()
      ensures old(wait) != WaitFlush || ret <= 0 ==> wait == old(wait) && hs.ssl.io == old(hs.ssl.io)
      ensures ret > 0 && old(wait) == WaitRead ==> hs.ssl.inbox.Some?
      ensures old(hs.ssl.inbox).Some? ==> hs.ssl.inbox == old(hs.ssl.inbox)
    {
      if wait == WaitFlush {
        var flushed := AskNetwork();
        if flushed <= 0 {
          return flushed;
        }
        hs.ssl.Flush();
        wait := WaitOk;
      } else if wait == WaitRead && hs.ssl.inbox.None? {
        var bioRet := AskNetwork();
        if bioRet <= 0 {
          return bioRet;
        }
        var item: Item := *;
        assert Follows(hs.cfg, log, hs.Value(), None);
        hs.ssl.Arrive(item);
        assert Follows(hs.cfg, log, hs.Value(), Some(item));
      }
      return 1;
    }

    /** Resolves what the handshake waits for, and runs it again, until it is complete, something fails, or
        the caller has to act: it returns without success only if a handler failed or asked for a callback
        again, or the network did not let it go on. */
    method RunHandshake() returns (ret: int)
      requires Valid() || wait == WaitError
      modifies this, hs, hs.ssl
      ensures (wait == WaitError || Valid()) && ret <= 1
      ensures old(wait) == WaitError ==> ret == -1 && wait == WaitError && hs.Value() == old(hs.Value())
      ensures ret == 1 ==> hs.state == Done && hs.readChanged && PeerFinished in hs.checks
      ensures ret == 1 && hs.chain > 0 ==> ChainVerified in hs.checks && PossessionProved in hs.checks
      ensures ret <= 0 && old(wait) != WaitError ==>
        match wait
        case WaitError => ret == -1 && Stopped(true)
        case WaitCallback => ret == -1 && Stopped(false)
        case _ => (wait == WaitFlush || wait == WaitRead) && |old(answers)| < |answers| && answers[|answers| - 1] == ret
    {
      if wait == WaitError {
        return -1;
      }
      while true
        invariant Valid() && |old(answers)| <= |answers|
        decreases 20 - Rank(hs.Value()), if wait == WaitRead then 0 else 1
      {
        var resolved := Resolve();
        if resolved <= 0 {
          return resolved;
        }
        var now := Handshake();
        if now == WaitError || now == WaitCallback {
          return -1;
        }
        if now == WaitOk {
          return 1;
        }
      }
    }
  }
}
