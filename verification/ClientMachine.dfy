/** The client's handshake in place: the handlers that assign the fields of the handshake, the loop that
    calls them, and the loop that resolves what they wait for. */
module ClientMachine {
  import opened Wrappers
  import opened Handshake
  import opened ClientHandshake

  class ClientHs {
    const cfg: Config
    const ssl: Connection
    var state: State
    var offered: bool
    var resumed: bool
    var params: Params
    var certRequest: bool
    var ticketExpected: bool
    var readChanged: bool
    var writeChanged: bool
    var canEarlyWrite: bool
    ghost var checks: set<Check>

    constructor (cfg: Config)
      ensures this.cfg == cfg && fresh(ssl) && Value() == NewClient(cfg) && ssl.inbox == None
    {
      this.cfg, state := cfg, StartConnect;
      ssl := new Connection();
      offered, resumed, params, certRequest, ticketExpected := false, false, NO_PARAMS, false, false;
      readChanged, writeChanged, canEarlyWrite, checks := false, false, false, {};
    }

    ghost function Value(): Client
      reads this, ssl
    {
      Client(state, cfg, offered, resumed, params, certRequest, ticketExpected,
             readChanged, writeChanged, canEarlyWrite, checks, ssl.io)
    }

    /** A handler that returned `ret` did what it has to do. */
    ghost predicate Did(o: Outcome<Client>, before: Client, head: Option<Item>, ret: Wait)
      reads this, ssl
    {
      match o
      case Failed => ret == WaitError
      case Blocked => ret == WaitRead && Value() == before && ssl.inbox == head
      case Paused => ret == WaitCallback && Value() == before && ssl.inbox == head
      case Next(hs, flush, early) =>
        && ret == (if flush then WaitFlush else if early then WaitEarly else WaitOk)
        && Value() == hs && ssl.inbox == if hs.io.got > before.io.got then None else head
    }

    method DoStartConnect(env: Env) returns (ret: Wait)
      requires state == StartConnect && FlightFits(Value())
      modifies this, ssl
      ensures Did(AfterStartConnect(old(Value()), env), old(Value()), old(ssl.inbox), ret)
    {
      if !env.ok {
        return WaitError;
      }
      offered := env.sessionUsable;
      var ok := ssl.AddMessage(ClientHello(env.sessionUsable));
      if !ok {
        return WaitError;
      }
      state := EnterEarlyData;
      return WaitFlush;
    }

    method DoEnterEarlyData() returns (ret: Wait)
      requires state == EnterEarlyData
      modifies this, ssl
      ensures Did(AfterEnterEarlyData(old(Value())), old(Value()), old(ssl.inbox), ret)
    {
      if cfg.dtls {
        state := ReadHelloVerifyRequest;
        return WaitOk;
      }
      state := ReadServerHello;
      return WaitOk;
    }

    method DoReadHelloVerifyRequest(env: Env) returns (ret: Wait)
      requires state == ReadHelloVerifyRequest && FlightFits(Value())
      modifies this, ssl
      ensures Did(Reading(old(ssl.inbox), AfterReadHelloVerifyRequest(old(Value()), MessageOf(old(ssl.inbox)), env)),
                  old(Value()), old(ssl.inbox), ret)
    {
      var msg, otherwise := ssl.GetMessage();
      if msg.None? {
        return otherwise;
      }
      if !msg.value.HelloVerifyRequest? {
        state := ReadServerHello;
        return WaitOk;
      }
      if !env.ok {
        return WaitError;
      }
      ssl.NextMessage();
      ssl.InitTranscript();
      var ok := ssl.AddMessage(ClientHello(offered));
      if !ok {
        return WaitError;
      }
      state := ReadServerHello;
      return WaitFlush;
    }

    method DoReadServerHello(env: Env) returns (ret: Wait)
      requires state == ReadServerHello
      modifies this, ssl
      ensures Did(Reading(old(ssl.inbox), AfterReadServerHello(old(Value()), MessageOf(old(ssl.inbox)), env)),
                  old(Value()), old(ssl.inbox), ret)
    {
      var msg, otherwise := ssl.GetMessage();
      if msg.None? {
        return otherwise;
      }
      if !msg.value.ServerHello? || !env.ok {
        return WaitError;
      }
      var p := msg.value.params;
      var repeated := offered && p.echoed;
      ssl.HearMessage(msg.value);
      params, resumed, ticketExpected := p, repeated, p.ticket;
      state := if repeated then ReadSessionTicket else ReadServerCertificate;
      return WaitOk;
    }

    method DoReadServerCertificate(env: Env) returns (ret: Wait)
      requires state == ReadServerCertificate
      modifies this, ssl
      ensures Did(if WantsMessage(old(Value())) then
          Reading(old(ssl.inbox), AfterReadServerCertificate(old(Value()), MessageOf(old(ssl.inbox)), env))
                  else AfterSkip(old(Value())),
                  old(Value()), old(ssl.inbox), ret)
    {
      if params.auth != CertificateAuth {
        state := ReadCertificateStatus;
        return WaitOk;
      }
      var msg, otherwise := ssl.GetMessage();
      if msg.None? {
        return otherwise;
      }
      if !msg.value.Certificate? || msg.value.count == 0 || !env.ok {
        return WaitError;
      }
      ssl.HearMessage(msg.value);
      state := ReadCertificateStatus;
      return WaitOk;
    }

    method DoReadCertificateStatus(env: Env) returns (ret: Wait)
      requires state == ReadCertificateStatus
      modifies this, ssl
      ensures Did(if WantsMessage(old(Value())) then
          Reading(old(ssl.inbox), AfterReadCertificateStatus(old(Value()), MessageOf(old(ssl.inbox)), env))
                  else AfterSkip(old(Value())),
                  old(Value()), old(ssl.inbox), ret)
    {
      if !params.status {
        state := VerifyServerCertificate;
        return WaitOk;
      }
      var msg, otherwise := ssl.GetMessage();
      if msg.None? {
        return otherwise;
      }
      if !msg.value.CertificateStatus? {
        state := VerifyServerCertificate;
        return WaitOk;
      }
      if !env.ok {
        return WaitError;
      }
      ssl.HearMessage(msg.value);
      state := VerifyServerCertificate;
      return WaitOk;
    }

    method DoVerifyServerCertificate(env: Env) returns (ret: Wait)
      requires state == VerifyServerCertificate
      modifies this, ssl
      ensures Did(AfterVerifyServerCertificate(old(Value()), env), old(Value()), old(ssl.inbox), ret)
    {
      if params.auth != CertificateAuth {
        state := ReadServerKeyExchange;
        return WaitOk;
      }
      match env.verify {
        case VerifyOk =>
          checks := checks + {ChainVerified};
        case VerifyInvalid =>
          return WaitError;
        case VerifyRetry =>
          state := VerifyServerCertificate;
          return WaitCallback;
      }
      state := ReadServerKeyExchange;
      return WaitOk;
    }

    method DoReadServerKeyExchange(env: Env) returns (ret: Wait)
      requires state == ReadServerKeyExchange
      modifies this, ssl
      ensures Did(Reading(old(ssl.inbox), AfterReadServerKeyExchange(old(Value()), MessageOf(old(ssl.inbox)), env)),
                  old(Value()), old(ssl.inbox), ret)
    {
      var msg, otherwise := ssl.GetMessage();
      if msg.None? {
        return otherwise;
      }
      if !msg.value.ServerKeyExchange? {
        if params.kex == EcdheExchange {
          return WaitError;
        }
        state := ReadCertificateRequest;
        return WaitOk;
      }
      if params.kex == RsaExchange || !env.ok {
        return WaitError;
      }
      if params.auth == CertificateAuth {
        if !env.signatureOk {
          return WaitError;
        }
        checks := checks + {KeyExchangeSigned};
      }
      ssl.HearMessage(msg.value);
      state := ReadCertificateRequest;
      return WaitOk;
    }

    method DoReadCertificateRequest(env: Env) returns (ret: Wait)
      requires state == ReadCertificateRequest
      modifies this, ssl
      ensures Did(if WantsMessage(old(Value())) then
          Reading(old(ssl.inbox), AfterReadCertificateRequest(old(Value()), MessageOf(old(ssl.inbox)), env))
                  else AfterSkip(old(Value())),
                  old(Value()), old(ssl.inbox), ret)
    {
      if params.auth != CertificateAuth {
        state := ReadServerHelloDone;
        return WaitOk;
      }
      var msg, otherwise := ssl.GetMessage();
      if msg.None? {
        return otherwise;
      }
      if msg.value.ServerHelloDone? {
        state := ReadServerHelloDone;
        return WaitOk;
      }
      if !msg.value.CertificateRequest? || !env.ok {
        return WaitError;
      }
      certRequest := true;
      ssl.HearMessage(msg.value);
      state := ReadServerHelloDone;
      return WaitOk;
    }

    method DoReadServerHelloDone(env: Env) returns (ret: Wait)
      requires state == ReadServerHelloDone
      modifies this, ssl
      ensures Did(Reading(old(ssl.inbox), AfterReadServerHelloDone(old(Value()), MessageOf(old(ssl.inbox)), env)),
                  old(Value()), old(ssl.inbox), ret)
    {
      var msg, otherwise := ssl.GetMessage();
      if msg.None? {
        return otherwise;
      }
      if !msg.value.ServerHelloDone? || !env.ok {
        return WaitError;
      }
      ssl.HearMessage(msg.value);
      state := SendClientCertificate;
      return WaitOk;
    }

    method DoSendClientCertificate(env: Env) returns (ret: Wait)
      requires state == SendClientCertificate && FlightFits(Value())
      modifies this, ssl
      ensures Did(AfterSendClientCertificate(old(Value()), env), old(Value()), old(ssl.inbox), ret)
    {
      if !certRequest {
        state := SendClientKeyExchange;
        return WaitOk;
      }
      if env.lookup == VerifyInvalid {
        return WaitError;
      }
      if env.lookup == VerifyRetry {
        state := SendClientCertificate;
        return WaitCallback;
      }
      if !env.ok {
        return WaitError;
      }
      var ok := ssl.AddMessage(Certificate(if env.hasCertificate then 1 else 0));
      if !ok {
        return WaitError;
      }
      state := SendClientKeyExchange;
      return WaitOk;
    }

    method DoSendClientKeyExchange(env: Env) returns (ret: Wait)
      requires state == SendClientKeyExchange && FlightFits(Value())
      modifies this, ssl
      ensures Did(AfterSendClientKeyExchange(old(Value()), env), old(Value()), old(ssl.inbox), ret)
    {
      var ok := ssl.AddMessage(ClientKeyExchange);
      if !ok || !env.ok {
        return WaitError;
      }
      state := SendClientCertificateVerify;
      return WaitOk;
    }

    method DoSendClientCertificateVerify(env: Env) returns (ret: Wait)
      requires state == SendClientCertificateVerify && FlightFits(Value())
      modifies this, ssl
      ensures Did(AfterSendClientCertificateVerify(old(Value()), env), old(Value()), old(ssl.inbox), ret)
    {
      if !certRequest || !env.hasCertificate {
        state := SendClientFinished;
        return WaitOk;
      }
      match env.lookup {
        case VerifyOk =>
        case VerifyInvalid =>
          return WaitError;
        case VerifyRetry =>
          state := SendClientCertificateVerify;
          return WaitCallback;
      }
      if !env.ok {
        return WaitError;
      }
      var ok := ssl.AddMessage(CertificateVerify);
      if !ok {
        return WaitError;
      }
      state := SendClientFinished;
      return WaitOk;
    }

    /** The messages between ChangeCipherSpec and Finished, as far as they were negotiated. */
    method AddExtensionMessages() returns (ok: bool)
      requires ssl.io.Pending() + 2 <= MAX_FLIGHT
      modifies ssl
      ensures ok && ssl.inbox == old(ssl.inbox)
      ensures ssl.io == old(ssl.io).SayIf(params.npn, NextProto).SayIf(params.channelId, ChannelId)
    {
      if params.npn {
        ok := ssl.AddMessage(NextProto);
        if !ok {
          return false;
        }
      }
      if params.channelId {
        ok := ssl.AddMessage(ChannelId);
        if !ok {
          return false;
        }
      }
      return true;
    }

    /** ChangeCipherSpec, the messages that follow it, and the Finished: never more than the flight holds. */
    method DoSendClientFinished(env: Env) returns (ret: Wait)
      requires state == SendClientFinished && FlightFits(Value())
      modifies this, ssl
      ensures Did(AfterSendClientFinished(old(Value()), env), old(Value()), old(ssl.inbox), ret)
    {
      if params.channelId {
        if env.lookup == VerifyInvalid {
          return WaitError;
        }
        if env.lookup == VerifyRetry {
          state := SendClientFinished;
          return WaitCallback;
        }
      }
      var ok := ssl.AddItem(ChangeCipherSpec);
      if !ok || !env.ok {
        return WaitError;
      }
      writeChanged := true;
      ok := AddExtensionMessages();
      if !ok {
        return WaitError;
      }
      ok := ssl.SendFinished(false);
      if !ok {
        return WaitError;
      }
      state := FinishFlight;
      return WaitFlush;
    }

    method CanFalseStartNow() returns (can: bool)
      ensures can == CanFalseStart(Value())
    {
      if cfg.dtls || !cfg.tls12 || params.kex != EcdheExchange || !params.aead {
        return false;
      }
      if !cfg.alpn && !params.npn {
        return false;
      }
      return true;
    }

    method DoFinishFlight(env: Env) returns (ret: Wait)
      requires state == FinishFlight && !canEarlyWrite
      modifies this, ssl
      ensures Did(AfterFinishFlight(old(Value()), env), old(Value()), old(ssl.inbox), ret)
    {
      if resumed {
        state := FinishClientHandshake;
        return WaitOk;
      }
      if !env.ok {
        return WaitError;
      }
      var can := CanFalseStartNow();
      state := ReadSessionTicket;
      if cfg.falseStart && can {
        canEarlyWrite := true;
        return WaitEarly;
      }
      return WaitOk;
    }

    method DoReadSessionTicket(env: Env) returns (ret: Wait)
      requires state == ReadSessionTicket
      modifies this, ssl
      ensures Did(if WantsMessage(old(Value())) then
          Reading(old(ssl.inbox), AfterReadSessionTicket(old(Value()), MessageOf(old(ssl.inbox)), env))
                  else AfterSkip(old(Value())),
                  old(Value()), old(ssl.inbox), ret)
    {
      if !ticketExpected {
        state := ProcessChangeCipherSpec;
        return WaitOk;
      }
      var msg, otherwise := ssl.GetMessage();
      if msg.None? {
        return otherwise;
      }
      if !msg.value.NewSessionTicket? || !env.ok {
        return WaitError;
      }
      ticketExpected := !msg.value.empty;
      ssl.HearMessage(msg.value);
      state := ProcessChangeCipherSpec;
      return WaitOk;
    }

    method DoProcessChangeCipherSpec(env: Env) returns (ret: Wait)
      requires state == ProcessChangeCipherSpec
      modifies this, ssl
      ensures Did(Handle(old(Value()), old(ssl.inbox), env), old(Value()), old(ssl.inbox), ret)
    {
      var ok, otherwise := ssl.ReadChangeCipherSpec();
      if !ok {
        return otherwise;
      }
      if !env.ok {
        return WaitError;
      }
      readChanged := true;
      state := ReadServerFinished;
      return WaitOk;
    }

    method DoReadServerFinished(env: Env) returns (ret: Wait)
      requires state == ReadServerFinished
      modifies this, ssl
      ensures Did(Reading(old(ssl.inbox), AfterReadServerFinished(old(Value()), MessageOf(old(ssl.inbox)), env)),
                  old(Value()), old(ssl.inbox), ret)
    {
      var wait := ssl.GetFinished(true, env.ok);
      if wait != WaitOk {
        return wait;
      }
      checks := checks + {PeerFinished};
      state := if resumed then SendClientFinished else FinishClientHandshake;
      return WaitOk;
    }

    method DoFinishClientHandshake(env: Env) returns (ret: Wait)
      requires state == FinishClientHandshake
      modifies this, ssl
      ensures Did(AfterFinishClientHandshake(old(Value()), env), old(Value()), old(ssl.inbox), ret)
    {
      if !env.ok {
        return WaitError;
      }
      state := Done;
      return WaitOk;
    }

    /** The handlers, by state. */
    method CallHandler(env: Env) returns (ret: Wait)
      requires state != Done && Good(Value())
      modifies this, ssl
      ensures Did(Handle(old(Value()), old(ssl.inbox), env), old(Value()), old(ssl.inbox), ret)
    {
      match state
      case StartConnect => ret := DoStartConnect(env);
      case EnterEarlyData => ret := DoEnterEarlyData();
      case ReadHelloVerifyRequest => ret := DoReadHelloVerifyRequest(env);
      case ReadServerHello => ret := DoReadServerHello(env);
      case ReadServerCertificate => ret := DoReadServerCertificate(env);
      case ReadCertificateStatus => ret := DoReadCertificateStatus(env);
      case VerifyServerCertificate => ret := DoVerifyServerCertificate(env);
      case ReadServerKeyExchange => ret := DoReadServerKeyExchange(env);
      case ReadCertificateRequest => ret := DoReadCertificateRequest(env);
      case ReadServerHelloDone => ret := DoReadServerHelloDone(env);
      case SendClientCertificate => ret := DoSendClientCertificate(env);
      case SendClientKeyExchange => ret := DoSendClientKeyExchange(env);
      case SendClientCertificateVerify => ret := DoSendClientCertificateVerify(env);
      case SendClientFinished => ret := DoSendClientFinished(env);
      case FinishFlight => ret := DoFinishFlight(env);
      case ReadSessionTicket => ret := DoReadSessionTicket(env);
      case ProcessChangeCipherSpec => ret := DoProcessChangeCipherSpec(env);
      case ReadServerFinished => ret := DoReadServerFinished(env);
      case FinishClientHandshake => ret := DoFinishClientHandshake(env);
    }
  }

  // ----- The driver -----

  /** The log of handler calls leads to where the handshake stands. */
  ghost predicate Follows(cfg: Config, log: Run<Event>, c: Client) {
    Play(cfg, log) == Some(c)
  }

  lemma {:induction false} FollowsIsGood(cfg: Config, log: Run<Event>, c: Client)
    requires Follows(cfg, log, c)
    ensures Good(c)
  {
    EveryRunIsSafe(cfg, log);
  }

  lemma {:induction false} FollowsOn(cfg: Config, log: Run<Event>, c: Client, e: Event)
    requires Follows(cfg, log, c) && c.state != Done && Handle(c, e.head, e.env).Next?
    ensures var o := Handle(c, e.head, e.env);
      && Follows(cfg, Then(log, e), Flushed(o)) && Rank(c) < Rank(o.hs)
      && (o.early ==> !o.flush && o.hs.canEarlyWrite)
  {
    FollowsIsGood(cfg, log, c);
  }

  /** A message is only lacking when there is none. */
  lemma {:induction false} BlockedOnNothing(c: Client, head: Option<Item>, env: Env)
    requires c.state != Done && Handle(c, head, env).Blocked?
    ensures head.None?
  {
  }

  /** A handler call: where the handshake stood, and what the handler was given. */
  datatype Called = Called(c: Client, e: Event) {
    function Ended(): Outcome<Client>
      requires c.state != Done
    {
      Handle(c, e.head, e.env)
    }
  }

  class Machine {
    const hs: ClientHs
    var wait: Wait
    ghost var log: Run<Event>
    /** The last handler call. */
    ghost var last: Option<Called>
    /** What the network answered, each time it was asked to write or to read. */
    ghost var answers: seq<int>
    /** Stands for Follows, so that the proofs of this class do not replay the run. */
    ghost const reached: (Run<Event>, Client) -> bool

    /** The handshake stands where its handler calls so far lead, but for a flight still to be flushed. */
    ghost predicate Valid()
      reads this, hs, hs.ssl
    {
      && (forall past, c {:trigger Follows(hs.cfg, past, c)} :: reached(past, c) <==> Follows(hs.cfg, past, c))
      && wait != WaitError && reached(log, Standing())
    }

    ghost function Standing(): Client
      reads this, hs, hs.ssl
    {
      if wait == WaitFlush then hs.Value().(io := hs.ssl.io.Flush()) else hs.Value()
    }

    /** The last handler call, made where the log leads, failed or asked for a callback again. */
    ghost predicate Stopped(failed: bool)
      reads this
    {
      && last.Some? && last.value.c.state != Done && reached(log, last.value.c)
      && (if failed then last.value.Ended().Failed? else last.value.Ended().Paused?)
    }

    constructor (cfg: Config)
      ensures Valid() && hs.cfg == cfg && hs.Value() == NewClient(cfg) && hs.ssl.inbox == None
      ensures wait == WaitOk && answers == [] && last == None
      ensures fresh(hs) && fresh(hs.ssl)
    {
      hs := new ClientHs(cfg);
      wait, log, last, answers := WaitOk, Start, None, [];
      reached := (past, c) => Follows(cfg, past, c);
      new;
      assert Follows(cfg, Start, NewClient(cfg));
    }

    /** Runs the handler of the current state, with whatever its callbacks answer. */
    method CallHandler() returns (ret: Wait)
      requires Valid() && wait == WaitOk && hs.state != Done
      modifies this`wait, this`log, this`last, hs, hs.ssl
      ensures ret == wait && (ret != WaitError ==> Valid())
      ensures ret == WaitOk || ret == WaitFlush || ret == WaitEarly ==> Rank(old(hs.Value())) < Rank(hs.Value())
      ensures ret == WaitRead || ret == WaitCallback ==>
          hs.Value() == old(hs.Value()) && hs.ssl.inbox == old(hs.ssl.inbox)
      ensures ret == WaitRead ==> hs.ssl.inbox.None?
      ensures ret == WaitEarly ==> hs.canEarlyWrite
      ensures last.Some? && last.value.c == old(hs.Value()) && last.value.e.head == old(hs.ssl.inbox)
      ensures ret == WaitError || ret == WaitCallback ==> Stopped(ret == WaitError)
    {
      ghost var before, head := hs.Value(), hs.ssl.inbox;
      var env: Env := *;
      FollowsIsGood(hs.cfg, log, before);
      ret := hs.CallHandler(env);
      wait := ret;
      last := Some(Called(before, Event(head, env)));
      ghost var o := Handle(before, head, env);
      if o.Next? {
        FollowsOn(hs.cfg, log, before, Event(head, env));
        log := Then(log, Event(head, env));
        assert Follows(hs.cfg, log, Flushed(o));
      } else if o.Blocked? {
        BlockedOnNothing(before, head, env);
      }
    }

    /** Runs handlers until one has to wait, or all is done. */
    method Handshake() returns (ret: Wait)
      requires Valid() && wait != WaitFlush
      modifies this`wait, this`log, this`last, hs, hs.ssl
      ensures ret == wait && (ret != WaitError ==> Valid())
      ensures ret == WaitOk ==> hs.state == Done
      ensures ret != WaitError ==> Rank(old(hs.Value())) <= Rank(hs.Value())
      ensures ret == WaitFlush || (ret == WaitRead && old(hs.ssl.inbox).Some?) ==>
          Rank(old(hs.Value())) < Rank(hs.Value())
      ensures ret == WaitRead ==> hs.ssl.inbox.None?
      ensures ret == WaitEarly ==> hs.canEarlyWrite
      ensures ret == WaitError || ret == WaitCallback ==> Stopped(ret == WaitError)
    {
      wait := WaitOk;
      while hs.state != Done
        invariant Valid() && wait == WaitOk && Rank(old(hs.Value())) <= Rank(hs.Value())
        invariant Rank(old(hs.Value())) < Rank(hs.Value()) || hs.ssl.inbox == old(hs.ssl.inbox)
        decreases 20 - Rank(hs.Value())
      {
        ret := CallHandler();
        if ret != WaitOk {
          return ret;
        }
      }
      return wait;
    }

    /** The network is asked to write the flight, or for more to read. */
    method AskNetwork() returns (answer: int)
      modifies this`answers
      ensures answers == old(answers) + [answer]
    {
      answer := *;
      answers := answers + [answer];
    }

    /** Writes the flight, or gets the next item from the network, whichever is waited for. Not positive
        exactly when the network does not let it. */
    method Resolve() returns (ret: int)
      requires Valid()
      modifies this`wait, this`answers, hs.ssl
      ensures Valid() && ret <= 1 && Rank(hs.Value()) == Rank(old(hs.Value()))
      ensures if old(wait) == WaitFlush || (old(wait) == WaitRead && old(hs.ssl.inbox).None?) then
          && |answers| == |old(answers)| + 1 && old(answers) <= answers
          && ret == if answers[|answers| - 1] > 0 then 1 else answers[|answers| - 1]
        else ret == 1 && answers == old(answers)
      ensures old(wait) == WaitFlush && ret > 0 ==> wait == WaitOk && hs.ssl.io == old(hs.ssl.io).Flush()
      ensures old(wait) != WaitFlush || ret <= 0 ==> wait == old(wait) && hs.ssl.io == old(hs.ssl.io)
      ensures ret > 0 && old(wait) == WaitRead ==> hs.ssl.inbox.Some?
      ensures old(hs.ssl.inbox).Some? ==> hs.ssl.inbox == old(hs.ssl.inbox)
    {
      if wait == WaitFlush {
        var flushed := AskNetwork();
        if flushed <= 0 {
          return flushed;
        }
        hs.ssl.Flush();
        wait := WaitOk;
      } else if wait == WaitRead && hs.ssl.inbox.None? {
        var bioRet := AskNetwork();
        if bioRet <= 0 {
          return bioRet;
        }
        var item: Item := *;
        hs.ssl.Arrive(item);
      }
      return 1;
    }

    /** Resolves what the handshake waits for, and runs it again, until it is complete, something fails, or
        the caller has to act: it returns without success only if a handler failed or asked for a callback
        again, or the network did not let it go on. */
    method RunHandshake() returns (ret: int, earlyReturn: bool)
      requires Valid() || wait == WaitError
      modifies this, hs, hs.ssl
      ensures (wait == WaitError || Valid()) && ret <= 1 && (earlyReturn ==> ret == 1)
      ensures old(wait) == WaitError ==> ret == -1 && wait == WaitError && hs.Value() == old(hs.Value())
      ensures ret == 1 && !earlyReturn ==> hs.state == Done && hs.readChanged && PeerFinished in hs.checks
      ensures ret == 1 && earlyReturn ==> hs.canEarlyWrite && (hs.params.auth == CertificateAuth ==>
        ChainVerified in hs.checks && KeyExchangeSigned in hs.checks)
      ensures ret <= 0 && old(wait) != WaitError ==>
        match wait
        case WaitError => ret == -1 && Stopped(true)
        case WaitCallback => ret == -1 && Stopped(false)
        case _ => (wait == WaitFlush || wait == WaitRead) && |old(answers)| < |answers| && answers[|answers| - 1] == ret
    {
      if wait == WaitError {
        return -1, false;
      }
      while true
        invariant Valid() && |old(answers)| <= |answers|
        decreases 20 - Rank(hs.Value()), if wait == WaitRead then 0 else 1
      {
        var resolved := Resolve();
        if resolved <= 0 {
          return resolved, false;
        }
        var now := Handshake();
        if now == WaitError || now == WaitCallback {
          return -1, false;
        }
        if now == WaitOk || now == WaitEarly {
          FollowsIsGood(hs.cfg, log, hs.Value());
          return 1, now == WaitEarly;
        }
      }
    }
  }
}
