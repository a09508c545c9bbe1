/** All runs of the two machines together, under any schedule. */
module HandshakeRuns {
  import opened Wrappers
  import opened Handshake
  import opened HandshakeFlow
  import opened HandshakeProduct
  import C = ClientHandshake
  import S = ServerHandshake

  datatype Pair = Pair(c: C.Client, s: S.Server)

  /** What a side can read: the next item the other side has flushed. */
  function HeadOf(reader: Io, writer: Io): Option<Item> {
    if reader.got < writer.visible <= |writer.sent| then Some(writer.sent[reader.got]) else None
  }

  function ClientTurn(a: Agreement, p: Pair): Outcome<C.Client>
    requires p.c.state != C.Done
  {
    C.Handle(p.c, HeadOf(p.c.io, p.s.io), ClientEnv(a))
  }

  function ServerTurn(a: Agreement, p: Pair): Outcome<S.Server>
    requires p.s.state != S.Done
  {
    S.Handle(p.s, HeadOf(p.s.io, p.c.io), ServerEnv(a))
  }

  /** One turn of the client or the server; a side that is done, or has to wait, leaves things as they
      are. None when it fails or asks for a callback again. */
  function Turn(a: Agreement, p: Pair, client: bool): Option<Pair> {
    if client then
      if p.c.state == C.Done then Some(p) else
      match ClientTurn(a, p)
      case Blocked => Some(p)
      case Next(_, _, _) => Some(p.(c := C.Flushed(ClientTurn(a, p))))
      case _ => None
    else
      if p.s.state == S.Done then Some(p) else
      match ServerTurn(a, p)
      case Blocked => Some(p)
      case Next(_, _, _) => Some(p.(s := S.Flushed(ServerTurn(a, p))))
      case _ => None
  }

  function Begin(a: Agreement): Pair {
    Pair(C.NewClient(a.client), S.NewServer(a.server))
  }

  /** Where a schedule leads: who takes each turn is up to it. */
  function Run(a: Agreement, schedule: Run<bool>): Option<Pair> {
    match schedule
    case Start => Some(Begin(a))
    case Then(past, client) =>
      match Run(a, past)
      case None => None
      case Some(p) => Turn(a, p, client)
  }

  predicate BothDone(p: Pair) {
    p.c.state == C.Done && p.s.state == S.Done
  }

  /** Nobody can go on. */
  predicate Stuck(a: Agreement, p: Pair) {
    && (p.c.state == C.Done || ClientTurn(a, p).Blocked?)
    && (p.s.state == S.Done || ServerTurn(a, p).Blocked?)
  }

  ghost predicate Sound(a: Agreement, p: Pair) {
    Joint(a, p.c, p.s) && C.Good(p.c) && S.Good(p.s)
  }

  lemma {:induction false} BeginIsSound(a: Agreement)
    requires a.Consistent()
    ensures Sound(a, Begin(a))
  {
    assert Behind(a, NEW_IO, 0, NEW_IO, 0, true);
  }

  lemma {:induction false} Swap(a: Agreement, x: Io, nx: nat, y: Io, ny: nat, xIsClient: bool)
    requires Linked(a, x, nx, y, ny, xIsClient)
    ensures Linked(a, y, ny, x, nx, !xIsClient)
  {
  }

  /** A turn of the client never fails: it waits for something, or goes on in step with the server. */
  lemma {:induction false} ClientTurnIsSound(a: Agreement, p: Pair)
    requires Sound(a, p) && p.c.state != C.Done
    ensures ClientTurn(a, p).Blocked? <==>
      (C.WantsMessage(p.c) || p.c.state.ProcessChangeCipherSpec?) && HeadOf(p.c.io, p.s.io).None?
    ensures !ClientTurn(a, p).Blocked? ==> ClientGoesOn(a, ClientTurn(a, p), p.s.io, ServerStage(p.s))
  {
    var head, y, ny := HeadOf(p.c.io, p.s.io), p.s.io, ServerStage(p.s);
    if C.WantsMessage(p.c) {
      if head.Some? {
        ClientHeadIsMessage(a, p.c, y, ny);
        ClientOnMessage(a, p.c, y, ny, head.value.m);
      }
    } else if p.c.state.ProcessChangeCipherSpec? {
      if head.Some? {
        ClientReadsCcs(a, p.c, y, ny);
      }
    } else {
      ClientOnNothing(a, p.c, y, ny);
    }
  }

  lemma {:induction false} ServerTurnIsSound(a: Agreement, p: Pair)
    requires Sound(a, p) && p.s.state != S.Done
    ensures ServerTurn(a, p).Blocked? <==>
      (S.WantsMessage(p.s) || p.s.state.ProcessChangeCipherSpec?) && HeadOf(p.s.io, p.c.io).None?
    ensures !ServerTurn(a, p).Blocked? ==> ServerGoesOn(a, ServerTurn(a, p), p.c.io, ClientStage(p.c))
  {
    var head, y, ny := HeadOf(p.s.io, p.c.io), p.c.io, ClientStage(p.c);
    Swap(a, p.c.io, ny, p.s.io, ServerStage(p.s), true);
    if S.WantsMessage(p.s) {
      if head.Some? {
        ServerHeadIsMessage(a, p.s, y, ny);
        ServerOnMessage(a, p.s, y, ny, head.value.m);
      }
    } else if p.s.state.ProcessChangeCipherSpec? {
      if head.Some? {
        ServerReadsCcs(a, p.s, y, ny);
      }
    } else {
      ServerOnNothing(a, p.s, y, ny);
    }
  }

  /** The distance to the end of both handshakes. */
  function ToGo(p: Pair): nat {
    38 - C.Rank(p.c) - S.Rank(p.s)
  }

  lemma {:induction false} ClientImproves(a: Agreement, p: Pair)
    requires C.Good(p.c) && p.c.state != C.Done && ClientTurn(a, p).Next?
    ensures var c := C.Flushed(ClientTurn(a, p)); C.Rank(p.c) < C.Rank(c) && C.Good(c)
  {
  }

  lemma {:induction false} ServerImproves(a: Agreement, p: Pair)
    requires S.Good(p.s) && p.s.state != S.Done && ServerTurn(a, p).Next?
    ensures var s := S.Flushed(ServerTurn(a, p)); S.Rank(p.s) < S.Rank(s) && S.Good(s)
  {
  }

  lemma {:induction false} ClientMoves(a: Agreement, p: Pair)
    requires Sound(a, p) && p.c.state != C.Done && !ClientTurn(a, p).Blocked?
    ensures ClientTurn(a, p).Next?
    ensures var after := p.(c := C.Flushed(ClientTurn(a, p)));
      Turn(a, p, true) == Some(after) && Sound(a, after) && ToGo(after) < ToGo(p)
  {
    ClientTurnIsSound(a, p);
    ClientImproves(a, p);
  }

  lemma {:induction false} ServerMoves(a: Agreement, p: Pair)
    requires Sound(a, p) && p.s.state != S.Done && !ServerTurn(a, p).Blocked?
    ensures ServerTurn(a, p).Next?
    ensures var after := p.(s := S.Flushed(ServerTurn(a, p)));
      Turn(a, p, false) == Some(after) && Sound(a, after) && ToGo(after) < ToGo(p)
  {
    ServerTurnIsSound(a, p);
    ServerImproves(a, p);
    var s := S.Flushed(ServerTurn(a, p));
    Swap(a, s.io, ServerStage(s), p.c.io, ClientStage(p.c), false);
  }

  predicate CanGoOn(a: Agreement, p: Pair, client: bool) {
    if client then p.c.state != C.Done && !ClientTurn(a, p).Blocked?
    else p.s.state != S.Done && !ServerTurn(a, p).Blocked?
  }

  lemma {:induction false} TurnIsSound(a: Agreement, p: Pair, client: bool)
    requires Sound(a, p)
    ensures Turn(a, p, client).Some? && Sound(a, Turn(a, p, client).value)
    ensures Turn(a, p, client).value == p || ToGo(Turn(a, p, client).value) < ToGo(p)
    ensures CanGoOn(a, p, client) ==> ToGo(Turn(a, p, client).value) < ToGo(p)
  {
    if CanGoOn(a, p, client) {
      if client {
        ClientMoves(a, p);
      } else {
        ServerMoves(a, p);
      }
    }
  }

  // ----- Nobody waits for ever -----

  /** The stage at which the flow ends. */
  function EndStage(a: Agreement): nat {
    if a.Full() then 17 else 9
  }

  lemma {:induction false} EndOfFlow(a: Agreement, k: nat)
    requires SlotAt(a, k).Due?
    ensures k < EndStage(a)
  {
  }

  lemma {:induction false} DoneIsEndStage(a: Agreement, p: Pair, k: nat)
    requires ClientAgrees(a, p.c) && ServerAgrees(a, p.s)
    ensures p.c.state == C.Done ==> ClientStage(p.c) == EndStage(a)
    ensures p.s.state == S.Done ==> ServerStage(p.s) == EndStage(a)
    ensures SlotAt(a, k).Due? ==> k < EndStage(a)
  {
    if SlotAt(a, k).Due? {
      EndOfFlow(a, k);
    }
  }

  /** From a stage at which the server has the word, it is the next to have something due. */
  lemma {:induction false} NextFromServer(a: Agreement, n: nat) returns (k: nat)
    requires if a.Full() then 1 <= n <= 6 || 14 <= n <= 16 else 1 <= n <= 4
    ensures n <= k && SlotAt(a, k).Due? && !SlotAt(a, k).byClient
    ensures forall j :: n <= j < k ==> SlotAt(a, j).Absent?
    decreases 17 - n
  {
    k := n;
    if SlotAt(a, n).Absent? {
      k := NextFromServer(a, n + 1);
    }
  }

  /** Where the client waits, the server is the next to have something due. */
  lemma {:induction false} ClientWaits(a: Agreement, c: C.Client) returns (k: nat)
    requires ClientAgrees(a, c) && (C.WantsMessage(c) || c.state.ProcessChangeCipherSpec?)
    ensures ClientStage(c) <= k && SlotAt(a, k).Due? && !SlotAt(a, k).byClient
    ensures forall j :: ClientStage(c) <= j < k ==> SlotAt(a, j).Absent?
  {
    k := NextFromServer(a, ClientStage(c));
  }

  /** A side that waits, or is done, has flushed everything. */
  lemma {:induction false} StuckIsVisible(a: Agreement, p: Pair)
    requires Sound(a, p) && Stuck(a, p)
    ensures p.c.io.visible == |p.c.io.sent| && p.s.io.visible == |p.s.io.sent|
  {
    if p.c.state != C.Done {
      ClientTurnIsSound(a, p);
    }
    if p.s.state != S.Done {
      ServerTurnIsSound(a, p);
    }
  }

  /** A client that waits has not been passed by the server. */
  lemma {:induction false} ClientIsNotBehind(a: Agreement, p: Pair) returns (k: nat)
    requires Sound(a, p) && Stuck(a, p) && p.c.state != C.Done
    ensures ServerStage(p.s) <= k && ClientStage(p.c) <= k
    ensures SlotAt(a, k).Due? && !SlotAt(a, k).byClient
    ensures forall j :: ClientStage(p.c) <= j < k ==> SlotAt(a, j).Absent?
  {
    ClientTurnIsSound(a, p);
    k := ClientWaits(a, p.c);
    if k < ServerStage(p.s) {
      NothingYet(a, p.c.io, ClientStage(p.c), p.s.io, ServerStage(p.s), true, k);
      StuckIsVisible(a, p);
    }
  }

  /** A server that waits has not been passed by the client. */
  lemma {:induction false} ServerIsNotBehind(a: Agreement, p: Pair)
    requires Sound(a, p) && Stuck(a, p) && p.s.state != S.Done
    ensures ClientStage(p.c) <= ServerStage(p.s)
    ensures SlotAt(a, ServerStage(p.s)).Due? && SlotAt(a, ServerStage(p.s)).byClient
  {
    ServerTurnIsSound(a, p);
    ServerWaits(a, p.s);
    if ServerStage(p.s) < ClientStage(p.c) {
      Swap(a, p.c.io, ClientStage(p.c), p.s.io, ServerStage(p.s), true);
      NothingYet(a, p.s.io, ServerStage(p.s), p.c.io, ClientStage(p.c), false, ServerStage(p.s));
      StuckIsVisible(a, p);
    }
  }

  /** When nobody can go on, both are done. */
  lemma {:induction false} StuckIsDone(a: Agreement, p: Pair)
    requires Sound(a, p) && Stuck(a, p)
    ensures BothDone(p)
  {
    var k := ServerStage(p.s);
    if p.s.state != S.Done {
      ServerIsNotBehind(a, p);
    }
    if p.c.state != C.Done {
      k := ClientIsNotBehind(a, p);
    }
    DoneIsEndStage(a, p, k);
  }

  /** Every schedule of two machines that agree: nobody ever fails, whatever is left to do gets less with
      every turn that changes anything, and when nobody can go on both are done, each with the other's
      Finished matched against its own transcript, and the transcripts are the same. */
  lemma {:induction false} EveryScheduleIsSound(a: Agreement, schedule: Run<bool>)
    requires a.Consistent()
    ensures Run(a, schedule).Some?
    ensures var p := Run(a, schedule).value;
      && Sound(a, p)
      && (Stuck(a, p) ==> BothDone(p))
      && (BothDone(p) ==>
            p.c.io.transcript == p.s.io.transcript && PeerFinished in p.c.checks && PeerFinished in p.s.checks)
  {
    if schedule.Start? {
      BeginIsSound(a);
    } else {
      EveryScheduleIsSound(a, schedule.past);
      TurnIsSound(a, Run(a, schedule.past).value, schedule.last);
    }
    var p := Run(a, schedule).value;
    if Stuck(a, p) {
      StuckIsDone(a, p);
    }
    if BothDone(p) {
      DoneIsLevel(a, p);
    }
  }

  lemma {:induction false} DoneIsLevel(a: Agreement, p: Pair)
    requires Sound(a, p) && BothDone(p)
    ensures p.c.io.transcript == p.s.io.transcript
  {
    LevelEitherWay(a, p.c.io, p.s.io, ClientStage(p.c), true);
  }

  predicate LongerBy(short: Run<bool>, long: Run<bool>, n: nat) {
    if n == 0 then long == short else long.Then? && LongerBy(short, long.past, n - 1)
  }

  lemma {:induction false} OneTurn(a: Agreement, schedule: Run<bool>, p: Pair) returns (next: Run<bool>, after: Pair)
    requires a.Consistent() && Run(a, schedule) == Some(p) && !BothDone(p)
    ensures Run(a, next) == Some(after) && ToGo(after) < ToGo(p)
    ensures next.Then? && next.past == schedule
  {
    EveryScheduleIsSound(a, schedule);
    var client := CanGoOn(a, p, true);
    TurnIsSound(a, p, client);
    next, after := Then(schedule, client), Turn(a, p, client).value;
  }

  lemma {:induction false} LongerByOneMore(short: Run<bool>, mid: Run<bool>, long: Run<bool>, n: nat)
    requires mid.Then? && mid.past == short && LongerBy(mid, long, n)
    ensures LongerBy(short, long, n + 1)
  {
    if n > 0 {
      LongerByOneMore(short, mid, long.past, n - 1);
    }
  }

  /** Every pair that can be reached, unless it is done, can be followed by one that is nearer the end. */
  ghost predicate Progresses(at: (Run<bool>, Pair) -> bool) {
    forall s, p {:trigger at(s, p)} :: at(s, p) && !BothDone(p) ==> exists next, after :: Nearer(at, s, p, next, after)
  }

  ghost predicate Nearer(at: (Run<bool>, Pair) -> bool, s: Run<bool>, p: Pair, next: Run<bool>, after: Pair) {
    at(next, after) && ToGo(after) < ToGo(p) && next.Then? && next.past == s
  }

  lemma {:induction false} ReachesEnd(at: (Run<bool>, Pair) -> bool, s: Run<bool>, p: Pair, left: nat)
    returns (more: Run<bool>, end: Pair, turns: nat)
    requires Progresses(at) && at(s, p) && ToGo(p) <= left
    ensures at(more, end) && BothDone(end) && LongerBy(s, more, turns) && turns <= left
    decreases left
  {
    if BothDone(p) {
      more, end, turns := s, p, 0;
    } else {
      var next, after :| Nearer(at, s, p, next, after);
      more, end, turns := ReachesEnd(at, next, after, left - 1);
      LongerByOneMore(s, next, more, turns);
      turns := turns + 1;
    }
  }

  /** From wherever a schedule has led, giving the turn to whoever can go on completes both handshakes,
      within as many turns as there are handler calls left. */
  lemma {:induction false} Completes(a: Agreement, schedule: Run<bool>, p: Pair)
    returns (more: Run<bool>, end: Pair, turns: nat)
    requires a.Consistent() && Run(a, schedule) == Some(p)
    ensures Run(a, more) == Some(end) && BothDone(end)
    ensures LongerBy(schedule, more, turns) && turns <= ToGo(p)
  {
    var at := (s: Run<bool>, q: Pair) => Run(a, s) == Some(q);
    forall s, q | at(s, q) && !BothDone(q)
      ensures exists next, after :: Nearer(at, s, q, next, after)
    {
      var next, after := OneTurn(a, s, q);
      assert Nearer(at, s, q, next, after);
    }
    more, end, turns := ReachesEnd(at, schedule, p, ToGo(p));
  }
}
