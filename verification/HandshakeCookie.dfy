/** The two machines when the server first asks for a cookie, as a DTLS server may (section 4.2.1 of RFC 6347).
    What asks is not part of the server's handshake: it answers a first ClientHello with a HelloVerifyRequest
    and keeps nothing; the handshake begins with the second ClientHello. */
module HandshakeCookie {
  import opened Wrappers
  import opened Handshake
  import opened HandshakeFlow
  import opened HandshakeProduct
  import opened HandshakeRuns
  import C = ClientHandshake
  import S = ServerHandshake

  /** `asked` says that the cookie was asked for. */
  datatype Meeting = Meeting(asked: bool, p: Pair)

  /** The server's side after that: one message taken and one sent, and nothing hashed. */
  const ASKED: Io := Io([Handshake(HelloVerifyRequest)], 1, [], true, [], 1)

  function Ask(m: Meeting): Option<Meeting> {
    match HeadOf(m.p.s.io, m.p.c.io)
    case None => Some(m)
    case Some(Handshake(ClientHello(_))) => Some(Meeting(true, m.p.(s := m.p.s.(io := ASKED))))
    case Some(_) => None
  }

  function MeetingTurn(a: Agreement, m: Meeting, client: bool): Option<Meeting> {
    if !client && !m.asked then Ask(m)
    else
      match Turn(a, m.p, client)
      case None => None
      case Some(p) => Some(m.(p := p))
  }

  function MeetingRun(a: Agreement, schedule: Run<bool>): Option<Meeting> {
    match schedule
    case Start => Some(Meeting(false, Begin(a)))
    case Then(past, client) =>
      match MeetingRun(a, past)
      case None => None
      case Some(m) => MeetingTurn(a, m, client)
  }

  /** Nobody can go on. */
  predicate MeetingStuck(a: Agreement, m: Meeting) {
    && (m.p.c.state == C.Done || ClientTurn(a, m.p).Blocked?)
    && (if m.asked then m.p.s.state == S.Done || ServerTurn(a, m.p).Blocked? else HeadOf(m.p.s.io, m.p.c.io).None?)
  }

  // ----- How a meeting goes -----

  function Hello(a: Agreement): Item {
    Handshake(ClientHello(a.offersSession))
  }

  /** The client has said hello and waits for the answer. */
  predicate Greeted(a: Agreement, c: C.Client) {
    && (c.state.EnterEarlyData? || c.state.ReadHelloVerifyRequest?) && C.Good(c)
    && c.cfg == a.client && c.offered == a.offersSession && !c.certRequest
    && c.io.sent == [Hello(a)] && c.io.visible == 1 && c.io.got == 0
  }

  /** The client has not said anything. */
  predicate Silent(a: Agreement, c: C.Client) {
    && c.state.StartConnect? && C.Good(c) && c.cfg == a.client && !c.certRequest
    && c.io.sent == [] && c.io.visible == 0 && c.io.got == 0
  }

  /** The server has not looked at a hello. */
  predicate Listens(a: Agreement, s: S.Server, io: Io) {
    (s.state.StartAccept? || s.state.ReadClientHello?) && S.Good(s) && ServerAgrees(a, s) && s.io == io
  }

  predicate Before(a: Agreement, m: Meeting) {
    !m.asked && Listens(a, m.p.s, NEW_IO) && m.p.s.state.StartAccept? && (Silent(a, m.p.c) || Greeted(a, m.p.c))
  }

  predicate Between(a: Agreement, m: Meeting) {
    m.asked && Greeted(a, m.p.c) && Listens(a, m.p.s, ASKED)
  }

  ghost predicate Through(a: Agreement, m: Meeting) {
    m.asked && Sound(a, m.p)
  }

  ghost predicate Meets(a: Agreement, m: Meeting) {
    Before(a, m) || Between(a, m) || Through(a, m)
  }

  /** What is left to do, the asking included. */
  function MeetingToGo(m: Meeting): nat {
    ToGo(m.p) + if m.asked then 0 else 1
  }

  lemma {:induction false} FirstHello(a: Agreement, c: C.Client)
    requires Silent(a, c)
    ensures var o := C.AfterStartConnect(c, ClientEnv(a));
      o.Next? && Greeted(a, C.Flushed(o)) && C.Rank(c) < C.Rank(C.Flushed(o))
  {
    assert [] + [Hello(a)] == [Hello(a)];
  }

  lemma {:induction false} ClientGreets(a: Agreement, p: Pair)
    requires Silent(a, p.c)
    ensures var after := Turn(a, p, true);
      && after.Some? && Greeted(a, after.value.c) && after.value.s == p.s && ToGo(after.value) < ToGo(p)
  {
    FirstHello(a, p.c);
  }

  lemma {:induction false} GreetedTurn(a: Agreement, p: Pair)
    requires a.client.dtls && Greeted(a, p.c) && p.c.state.EnterEarlyData?
    ensures var after := Turn(a, p, true);
      && after.Some? && Greeted(a, after.value.c) && after.value.s == p.s && ToGo(after.value) < ToGo(p)
  {
  }

  /** The client says hello again, and has hashed that alone. */
  lemma {:induction false} SecondHello(a: Agreement, c: C.Client)
    requires a.Consistent() && Greeted(a, c) && c.state.ReadHelloVerifyRequest?
    ensures var o := C.AfterReadHelloVerifyRequest(c, HelloVerifyRequest, ClientEnv(a));
      && o.Next? && ClientAgrees(a, C.Flushed(o)) && C.Good(C.Flushed(o)) && C.Rank(c) < C.Rank(C.Flushed(o))
      && ClientStage(C.Flushed(o)) == 1
      && C.Flushed(o).io.sent == [Hello(a), Hello(a)] && C.Flushed(o).io.got == 1
      && C.Flushed(o).io.transcript == [ClientHello(a.offersSession)]
  {
  }

  lemma {:induction false} TakesCookie(a: Agreement, m: Meeting)
    requires Between(a, m) && m.p.c.state.ReadHelloVerifyRequest?
    ensures ClientTurn(a, m.p) == C.AfterReadHelloVerifyRequest(m.p.c, HelloVerifyRequest, ClientEnv(a))
  {
    assert HeadOf(m.p.c.io, m.p.s.io) == Some(Handshake(HelloVerifyRequest));
  }

  /** The client takes the HelloVerifyRequest, and the two are in step with one hello hashed. */
  lemma {:induction false} CookieIsTaken(a: Agreement, m: Meeting)
    requires a.Consistent() && Between(a, m) && m.p.c.state.ReadHelloVerifyRequest?
    ensures var after := MeetingTurn(a, m, true);
      after.Some? && Through(a, after.value) && MeetingToGo(after.value) < MeetingToGo(m)
  {
    TakesCookie(a, m);
    SecondHello(a, m.p.c);
    HelloUnderWay(a, C.Flushed(ClientTurn(a, m.p)).io, ASKED);
  }

  lemma {:induction false} HelloUnderWay(a: Agreement, x: Io, y: Io)
    requires x.sent == [Hello(a), Hello(a)] && x.transcript == [ClientHello(a.offersSession)] && x.got == 1
    requires y == ASKED
    ensures Linked(a, x, 1, y, 0, true)
  {
    OneUnderWay(a, 0, true, [], Hello(a));
    assert x.sent[1..] == [Hello(a)];
    assert HashedAll([Hello(a)]) == [ClientHello(a.offersSession)] + HashedAll([]);
  }

  lemma {:induction false} ServerWaitsForHello(a: Agreement, m: Meeting)
    requires a.Consistent() && Between(a, m)
    ensures var after := MeetingTurn(a, m, false);
      && after.Some? && Between(a, after.value)
      && (after.value == m || MeetingToGo(after.value) < MeetingToGo(m))
  {
  }

  lemma {:induction false} CookieIsAsked(a: Agreement, m: Meeting)
    requires a.Consistent() && a.client.dtls && Before(a, m)
    ensures var after := MeetingTurn(a, m, false);
      && after.Some? && Meets(a, after.value)
      && (after.value == m || MeetingToGo(after.value) < MeetingToGo(m))
      && (MeetingStuck(a, m) ==> after.value != m)
  {
  }

  lemma {:induction false} MeetingTurnIsSound(a: Agreement, m: Meeting, client: bool)
    requires a.Consistent() && a.client.dtls && Meets(a, m)
    ensures var after := MeetingTurn(a, m, client);
      && after.Some? && Meets(a, after.value)
      && (after.value == m || MeetingToGo(after.value) < MeetingToGo(m))
  {
    if Through(a, m) {
      TurnIsSound(a, m.p, client);
    } else if !client {
      if m.asked {
        ServerWaitsForHello(a, m);
      } else {
        CookieIsAsked(a, m);
      }
    } else if m.p.c.state.StartConnect? {
      ClientGreets(a, m.p);
    } else if m.p.c.state.EnterEarlyData? {
      GreetedTurn(a, m.p);
    } else if m.asked {
      CookieIsTaken(a, m);
    }
  }

  lemma {:induction false} BeginsBefore(a: Agreement)
    requires a.Consistent()
    ensures Before(a, Meeting(false, Begin(a)))
  {
    BeginIsSound(a);
  }

  /** Before the two are in step, somebody can go on. */
  lemma {:induction false} NotStuckBefore(a: Agreement, m: Meeting)
    requires a.Consistent() && a.client.dtls && MeetingStuck(a, m) && Meets(a, m)
    ensures Through(a, m)
  {
  }

  /** Every schedule of two machines that agree, with a server that asks for a cookie: nobody fails, every turn
      that changes anything leaves less to do, and when nobody can go on the cookie was asked for, both
      machines are done, each with the other's Finished matched, and the transcripts are the same. */
  lemma {:induction false} EveryMeetingIsSound(a: Agreement, schedule: Run<bool>)
    requires a.Consistent() && a.client.dtls
    ensures MeetingRun(a, schedule).Some?
    ensures var m := MeetingRun(a, schedule).value;
      && Meets(a, m)
      && (forall client :: MeetingTurn(a, m, client).Some?
            && (MeetingTurn(a, m, client).value == m || MeetingToGo(MeetingTurn(a, m, client).value) < MeetingToGo(m)))
      && (MeetingStuck(a, m) ==>
            && m.asked && BothDone(m.p) && m.p.c.io.transcript == m.p.s.io.transcript
            && PeerFinished in m.p.c.checks && PeerFinished in m.p.s.checks)
  {
    if schedule.Start? {
      BeginsBefore(a);
    } else {
      EveryMeetingIsSound(a, schedule.past);
      MeetingTurnIsSound(a, MeetingRun(a, schedule.past).value, schedule.last);
    }
    var m := MeetingRun(a, schedule).value;
    MeetingTurnIsSound(a, m, true);
    MeetingTurnIsSound(a, m, false);
    if MeetingStuck(a, m) {
      NotStuckBefore(a, m);
      StuckIsDone(a, m.p);
      DoneIsLevel(a, m.p);
    }
  }
}
