/** The order of a handshake's messages, and how two sides that follow it stand to each other. */
module HandshakeFlow {
  import opened Wrappers
  import opened Handshake
  import C = ClientHandshake
  import S = ServerHandshake

  // ----- What both sides agree on -----

  /** The configurations, the server's choices on the ClientHello, and what the client has. */
  datatype Agreement = Agreement(
    client: C.Config, server: S.Config, offer: S.Offer, offersSession: bool, clientCertificate: bool, emptyTicket: bool)
  {
    predicate Full() {
      !offer.resume
    }

    predicate ByCertificate() {
      offer.auth == CertificateAuth
    }

    predicate SendsKeyExchange() {
      offer.kex == EcdheExchange || (offer.auth == PskAuth && server.pskHint)
    }

    predicate RequestsCertificate() {
      Full() && server.verifyPeer && !(server.unlessChannelId && offer.channelId) && ByCertificate()
    }

    predicate SendsTicket() {
      if offer.resume then offer.renew else offer.tickets
    }

    predicate UsesChannelId() {
      offer.channelId && offer.kex == EcdheExchange && (offer.resume ==> offer.hashesRecorded)
    }

    function Settled(): Params {
      Params(offer.resume, offer.kex, offer.auth, offer.aead, offer.status, SendsTicket(), offer.npn, UsesChannelId())
    }

    /** The cipher suite exists, a session is only resumed when one was offered, and each side has the
        certificate the other insists on. */
    predicate Consistent() {
      && (ByCertificate() ==> offer.kex != PskExchange) && (!ByCertificate() ==> offer.kex != RsaExchange)
      && (offer.resume ==> offersSession)
      && (Full() && ByCertificate() ==> server.hasCertificate)
      && (RequestsCertificate() && server.failWithoutCertificate ==> clientCertificate)
    }
  }

  // ----- The flow -----

  /** What may be sent at stage k, by the client or the server; a Finished stands for any of its side. */
  datatype Slot = Absent | Due(byClient: bool, item: Item)

  function DueIf(due: bool, byClient: bool, m: Msg): Slot {
    if due then Due(byClient, Handshake(m)) else Absent
  }

  function Chain(a: Agreement): nat {
    if a.clientCertificate then 1 else 0
  }

  function FullSlot(a: Agreement, k: nat): Slot {
    match k
    case 0 => DueIf(true, true, ClientHello(a.offersSession))
    case 1 => DueIf(true, false, ServerHello(a.Settled()))
    case 2 => DueIf(a.ByCertificate(), false, Certificate(1))
    case 3 => DueIf(a.ByCertificate() && a.offer.status, false, CertificateStatus)
    case 4 => DueIf(a.SendsKeyExchange(), false, ServerKeyExchange)
    case 5 => DueIf(a.RequestsCertificate(), false, CertificateRequest)
    case 6 => DueIf(true, false, ServerHelloDone)
    case 7 => DueIf(a.RequestsCertificate(), true, Certificate(Chain(a)))
    case 8 => DueIf(true, true, ClientKeyExchange)
    case 9 => DueIf(a.RequestsCertificate() && a.clientCertificate, true, CertificateVerify)
    case 10 => Due(true, ChangeCipherSpec)
    case 11 => DueIf(a.offer.npn, true, NextProto)
    case 12 => DueIf(a.UsesChannelId(), true, ChannelId)
    case 13 => DueIf(true, true, Finished(false, []))
    case 14 => DueIf(a.SendsTicket(), false, NewSessionTicket(a.emptyTicket))
    case 15 => Due(false, ChangeCipherSpec)
    case 16 => DueIf(true, false, Finished(true, []))
    case _ => Absent
  }

  function ResumedSlot(a: Agreement, k: nat): Slot {
    match k
    case 0 => DueIf(true, true, ClientHello(a.offersSession))
    case 1 => DueIf(true, false, ServerHello(a.Settled()))
    case 2 => DueIf(a.SendsTicket(), false, NewSessionTicket(a.emptyTicket))
    case 3 => Due(false, ChangeCipherSpec)
    case 4 => DueIf(true, false, Finished(true, []))
    case 5 => Due(true, ChangeCipherSpec)
    case 6 => DueIf(a.offer.npn, true, NextProto)
    case 7 => DueIf(a.UsesChannelId(), true, ChannelId)
    case 8 => DueIf(true, true, Finished(false, []))
    case _ => Absent
  }

  function SlotAt(a: Agreement, k: nat): Slot {
    if a.Full() then FullSlot(a, k) else ResumedSlot(a, k)
  }

  // ----- What is under way -----

  function Hashed(item: Item): seq<Msg> {
    match item
    case Handshake(m) => [m]
    case ChangeCipherSpec => []
  }

  function HashedAll(items: seq<Item>): seq<Msg> {
    if items == [] then [] else Hashed(items[0]) + HashedAll(items[1..])
  }

  /** The item is the one that is due; a Finished covers exactly the transcript t. */
  predicate Fits(due: Item, item: Item, t: seq<Msg>) {
    if due.Handshake? && due.m.Finished? then item == Handshake(Finished(due.m.fromServer, t)) else item == due
  }

  /** The items are those due at the stages from lo to hi, all of one side, after a transcript t. */
  predicate UnderWay(a: Agreement, lo: nat, hi: nat, byClient: bool, t: seq<Msg>, items: seq<Item>)
    decreases hi - lo
  {
    if lo >= hi then items == []
    else
      match SlotAt(a, lo)
      case Absent => UnderWay(a, lo + 1, hi, byClient, t, items)
      case Due(who, due) =>
        && who == byClient && items != [] && Fits(due, items[0], t)
        && UnderWay(a, lo + 1, hi, byClient, t + Hashed(items[0]), items[1..])
  }

  /** The reader is at stage lo and the writer ahead of it at hi; in between is what the writer sent and
      the reader has not consumed. The reader has nothing out that the writer has not consumed. */
  predicate Behind(a: Agreement, reader: Io, lo: nat, writer: Io, hi: nat, writerIsClient: bool) {
    && lo <= hi && writer.got == |reader.sent| && reader.got <= |writer.sent|
    && UnderWay(a, lo, hi, writerIsClient, reader.transcript, writer.sent[reader.got..])
    && writer.transcript == reader.transcript + HashedAll(writer.sent[reader.got..])
  }

  /** Two sides at stages nx and ny; x is the client or the server. */
  predicate Linked(a: Agreement, x: Io, nx: nat, y: Io, ny: nat, xIsClient: bool) {
    Behind(a, x, nx, y, ny, !xIsClient) || Behind(a, y, ny, x, nx, xIsClient)
  }

  lemma {:induction false} LevelEitherWay(a: Agreement, x: Io, y: Io, n: nat, xIsClient: bool)
    requires Linked(a, x, n, y, n, xIsClient)
    ensures Behind(a, x, n, y, n, !xIsClient) && Behind(a, y, n, x, n, xIsClient)
  {
  }

  /** Whoever has to write is not behind. */
  lemma {:induction false} WriterIsAhead(a: Agreement, x: Io, nx: nat, y: Io, ny: nat, xIsClient: bool)
    requires Linked(a, x, nx, y, ny, xIsClient)
    requires SlotAt(a, nx).Due? && SlotAt(a, nx).byClient == xIsClient
    ensures Behind(a, y, ny, x, nx, xIsClient)
  {
    if nx == ny {
      LevelEitherWay(a, x, y, nx, xIsClient);
    }
  }

  lemma {:induction false} OneUnderWay(a: Agreement, n: nat, byClient: bool, t: seq<Msg>, item: Item)
    requires SlotAt(a, n).Due? && SlotAt(a, n).byClient == byClient && Fits(SlotAt(a, n).item, item, t + HashedAll([]))
    ensures UnderWay(a, n, n + 1, byClient, t, [item])
  {
    assert t + HashedAll([]) == t && [item][1..] == [];
    assert UnderWay(a, n + 1, n + 1, byClient, t + Hashed(item), []);
  }

  lemma {:induction false} HashedOneMore(items: seq<Item>, item: Item)
    ensures HashedAll(items + [item]) == HashedAll(items) + Hashed(item)
  {
    if items == [] {
      assert items + [item] == [item] && [item][1..] == [];
    } else {
      HashedOneMore(items[1..], item);
      assert (items + [item])[1..] == items[1..] + [item];
    }
  }

  lemma {:induction false} UnderWayFirst(a: Agreement, lo: nat, hi: nat, byClient: bool, t: seq<Msg>, first: Item,
                                         rest: seq<Item>)
    requires lo < hi && SlotAt(a, lo).Due? && SlotAt(a, lo).byClient == byClient && Fits(SlotAt(a, lo).item, first, t)
    requires UnderWay(a, lo + 1, hi, byClient, t + Hashed(first), rest)
    ensures UnderWay(a, lo, hi, byClient, t, [first] + rest)
  {
    assert ([first] + rest)[1..] == rest;
  }

  lemma {:induction false} UnderWayOneMore(a: Agreement, lo: nat, hi: nat, byClient: bool, t: seq<Msg>,
                                           items: seq<Item>, item: Item)
    requires lo <= hi && UnderWay(a, lo, hi, byClient, t, items)
    requires SlotAt(a, hi).Due? && SlotAt(a, hi).byClient == byClient
        && Fits(SlotAt(a, hi).item, item, t + HashedAll(items))
    ensures UnderWay(a, lo, hi + 1, byClient, t, items + [item])
    decreases hi - lo, 1
  {
    if lo == hi {
      OneUnderWay(a, lo, byClient, t, item);
      assert items + [item] == [item];
    } else if SlotAt(a, lo).Absent? {
      UnderWayOneMore(a, lo + 1, hi, byClient, t, items, item);
    } else {
      assert items == [items[0]] + items[1..];
      UnderWayMoreAfter(a, lo, hi, byClient, t, items[0], items[1..], item);
      assert items + [item] == [items[0]] + (items[1..] + [item]);
    }
  }

  lemma {:induction false} UnderWayMoreAfter(a: Agreement, lo: nat, hi: nat, byClient: bool, t: seq<Msg>,
                                             first: Item, rest: seq<Item>, item: Item)
    requires lo < hi && SlotAt(a, lo).Due? && SlotAt(a, lo).byClient == byClient && Fits(SlotAt(a, lo).item, first, t)
    requires UnderWay(a, lo + 1, hi, byClient, t + Hashed(first), rest)
    requires SlotAt(a, hi).Due? && SlotAt(a, hi).byClient == byClient
    requires Fits(SlotAt(a, hi).item, item, t + (Hashed(first) + HashedAll(rest)))
    ensures UnderWay(a, lo, hi + 1, byClient, t, [first] + (rest + [item]))
    decreases hi - lo, 0
  {
    assert (t + Hashed(first)) + HashedAll(rest) == t + (Hashed(first) + HashedAll(rest));
    UnderWayOneMore(a, lo + 1, hi, byClient, t + Hashed(first), rest, item);
    UnderWayFirst(a, lo, hi + 1, byClient, t, first, rest + [item]);
  }

  lemma {:induction false} UnderWayAbsent(a: Agreement, lo: nat, hi: nat, byClient: bool, t: seq<Msg>, items: seq<Item>)
    requires lo <= hi && UnderWay(a, lo, hi, byClient, t, items) && SlotAt(a, hi).Absent?
    ensures UnderWay(a, lo, hi + 1, byClient, t, items)
    decreases hi - lo
  {
    if lo == hi {
      assert UnderWay(a, lo + 1, hi + 1, byClient, t, items);
    } else {
      match SlotAt(a, lo)
      case Absent => UnderWayAbsent(a, lo + 1, hi, byClient, t, items);
      case Due(_, _) => UnderWayAbsent(a, lo + 1, hi, byClient, t + Hashed(items[0]), items[1..]);
    }
  }

  /** Sending what is due moves the writer on. */
  lemma {:induction false} Sends(a: Agreement, x: Io, nx: nat, y: Io, ny: nat, xIsClient: bool, item: Item, after: Io)
    requires Linked(a, x, nx, y, ny, xIsClient)
    requires SlotAt(a, nx).Due? && SlotAt(a, nx).byClient == xIsClient && Fits(SlotAt(a, nx).item, item, x.transcript)
    requires after.sent == x.sent + [item] && after.transcript == x.transcript + Hashed(item) && after.got == x.got
    ensures Linked(a, after, nx + 1, y, ny, xIsClient)
  {
    WriterIsAhead(a, x, nx, y, ny, xIsClient);
    UnderWayOneMore(a, ny, nx, xIsClient, y.transcript, x.sent[y.got..], item);
    HashedOneMore(x.sent[y.got..], item);
    assert after.sent[y.got..] == x.sent[y.got..] + [item];
  }

  /** Passing a stage at which nothing is due. */
  lemma {:induction false} Passes(a: Agreement, x: Io, nx: nat, y: Io, ny: nat, xIsClient: bool)
    requires Linked(a, x, nx, y, ny, xIsClient) && SlotAt(a, nx).Absent?
    ensures Linked(a, x, nx + 1, y, ny, xIsClient)
  {
    if nx == ny {
      LevelEitherWay(a, x, y, nx, xIsClient);
    }
    if Behind(a, y, ny, x, nx, xIsClient) {
      UnderWayAbsent(a, ny, nx, xIsClient, y.transcript, x.sent[y.got..]);
    }
  }

  /** What there is to read is the first item that is due from here on. */
  lemma {:induction false} HeadIsDue(a: Agreement, x: Io, nx: nat, y: Io, ny: nat, xIsClient: bool) returns (k: nat)
    requires Linked(a, x, nx, y, ny, xIsClient) && x.got < |y.sent|
    ensures nx <= k < ny && SlotAt(a, k).Due? && SlotAt(a, k).byClient != xIsClient
    ensures Fits(SlotAt(a, k).item, y.sent[x.got], x.transcript)
    ensures forall j :: nx <= j < k ==> SlotAt(a, j).Absent?
  {
    assert Behind(a, x, nx, y, ny, !xIsClient);
    k := FirstDue(a, nx, ny, !xIsClient, x.transcript, y.sent[x.got..]);
  }

  lemma {:induction false} FirstDue(a: Agreement, lo: nat, hi: nat, byClient: bool, t: seq<Msg>, items: seq<Item>)
    returns (k: nat)
    requires UnderWay(a, lo, hi, byClient, t, items) && items != []
    ensures lo <= k < hi && SlotAt(a, k).Due? && SlotAt(a, k).byClient == byClient
        && Fits(SlotAt(a, k).item, items[0], t)
    ensures forall j :: lo <= j < k ==> SlotAt(a, j).Absent?
    decreases hi - lo
  {
    k := lo;
    if SlotAt(a, lo).Absent? {
      k := FirstDue(a, lo + 1, hi, byClient, t, items);
    }
  }

  /** Reading what is due moves the reader on. */
  lemma {:induction false} Reads(a: Agreement, x: Io, nx: nat, y: Io, ny: nat, xIsClient: bool, after: Io)
    requires Linked(a, x, nx, y, ny, xIsClient) && x.got < |y.sent| && SlotAt(a, nx).Due?
    requires after.sent == x.sent && after.got == x.got + 1 && after.transcript == x.transcript + Hashed(y.sent[x.got])
    ensures SlotAt(a, nx).byClient != xIsClient && Fits(SlotAt(a, nx).item, y.sent[x.got], x.transcript)
    ensures Linked(a, after, nx + 1, y, ny, xIsClient)
  {
    var k := HeadIsDue(a, x, nx, y, ny, xIsClient);
    assert k == nx;
    var items := y.sent[x.got..];
    assert y.sent[after.got..] == items[1..];
    assert HashedAll(items) == Hashed(items[0]) + HashedAll(items[1..]);
    assert y.transcript == (x.transcript + Hashed(items[0])) + HashedAll(items[1..]);
    assert Behind(a, after, nx + 1, y, ny, !xIsClient);
  }

  /** Nothing to read where the other side is due to write only later. */
  lemma {:induction false} NothingYet(a: Agreement, x: Io, nx: nat, y: Io, ny: nat, xIsClient: bool, k: nat)
    requires Linked(a, x, nx, y, ny, xIsClient) && nx <= k < ny && SlotAt(a, k).Due?
    requires forall j :: nx <= j < k ==> SlotAt(a, j).Absent?
    ensures SlotAt(a, k).byClient != xIsClient && x.got < |y.sent|
  {
    assert Behind(a, x, nx, y, ny, !xIsClient);
    SomeUnderWay(a, nx, ny, !xIsClient, x.transcript, y.sent[x.got..], k);
  }

  lemma {:induction false} SomeUnderWay(a: Agreement, lo: nat, hi: nat, byClient: bool, t: seq<Msg>, items: seq<Item>,
                                        k: nat)
    requires UnderWay(a, lo, hi, byClient, t, items) && lo <= k < hi && SlotAt(a, k).Due?
    requires forall j :: lo <= j < k ==> SlotAt(a, j).Absent?
    ensures items != [] && SlotAt(a, k).byClient == byClient
    decreases hi - lo
  {
    if lo < k {
      SomeUnderWay(a, lo + 1, hi, byClient, t, items, k);
    }
  }
}
