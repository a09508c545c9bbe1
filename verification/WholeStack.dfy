/** The whole DTLS transport: what a writer seals, a network delivers, forges, repeats or loses, a record layer
    lets through and a reassembly ring hands up. */
module WholeStack {
  import opened Wrappers
  import opened Bytes
  import opened Fragments
  import opened Reassembly
  import opened Sending
  import opened Transport
  import opened DtlsConnection
  import EndToEnd
  import F = FreshRecords
  import L = RecordLayer
  import S = RecordSealing

  /** A writer's run, and the records it sealed in it. */
  datatype Writer = Writer(run: Run<S.WriteEvent>, st: S.WriteState, records: seq<S.Record>)
  {
    function Numbers(): F.Numbers {
      S.SealedNumbers(run)
    }

    /** Up to the first counter overflow and the first wrap of the epoch. */
    ghost predicate Sound() {
      S.Logged(run, st, records) && S.NoOverflow(run) && st.era < L.TWO_16 && F.Fit(Numbers())
    }
  }

  /** What reaches the reading side: record i of the writer, something the AEAD does not accept, or a step of
      the reading side itself. */
  datatype Wire =
    | Carry(i: nat, maxLen: nat)
    | Forge(epoch: nat, number: nat, contentType: Byte, content: seq<Byte>, maxLen: nat)
    | Local(e: LinkEvent)

  predicate Possible(w: Writer, run: Run<Wire>) {
    run.Then? ==>
      && Possible(w, run.past) && (run.last.Carry? ==> run.last.i < |w.records| == |w.Numbers()|)
      && (run.last.Local? ==> !run.last.e.Record?)
  }

  /** A record that is too long once opened is refused like a forged one. */
  predicate Fits(r: S.Record) {
    |r.plaintext| <= L.MAX_PLAIN_LENGTH
  }

  function LinkEventOf(w: Writer, x: Wire): LinkEvent
    requires F.Fit(w.Numbers()) && (x.Carry? ==> x.i < |w.records| == |w.Numbers()|)
  {
    match x
    case Carry(i, maxLen) =>
      var r := w.records[i];
      Record(w.Numbers()[i].0, w.Numbers()[i].1, Fits(r), r.contentType, r.plaintext, maxLen)
    case Forge(epoch, number, contentType, content, maxLen) => Record(epoch, number, false, contentType, content, maxLen)
    case Local(e) => e
  }

  /** The run of the connection. */
  function Linked(w: Writer, run: Run<Wire>): Run<LinkEvent>
    requires F.Fit(w.Numbers()) && Possible(w, run)
  {
    match run
    case Start => Start
    case Then(past, x) => Then(Linked(w, past), LinkEventOf(w, x))
  }

  /** A record arrives as its eight sequence bytes say. */
  lemma {:induction false} CarriedAsSealed(w: Writer, i: nat, maxLen: nat)
    requires w.Sound() && i < |w.records|
    ensures |w.records| == |w.Numbers()|
    ensures var e, r := LinkEventOf(w, Carry(i, maxLen)), w.records[i];
      e.epoch == L.Epoch(r.sequence) && e.number == L.Number(r.sequence)
  {
    assert S.NumberedBy(w.records[i], w.Numbers()[i]);
  }

  /** The version the record bears is one the reader takes: any with the byte 0xfe first under the null cipher,
      and that of the cipher afterwards. */
  ghost predicate VersionFits(reader: L.RecordReader, version: Uint16)
    reads reader
  {
    if reader.nullCipher then version / 0x100 == 0xfe else version == reader.recordVersion
  }

  /** The bytes of a sealed record, whatever follows them in the datagram, are to the connection the arrival of
      that record. */
  lemma {:induction false} BytesAreCarried(c: DtlsState, w: Writer, i: nat, rest: seq<Byte>)
    requires w.Sound() && i < |w.records| && |w.records[i].ciphertext| <= L.MAX_ENCRYPTED_LENGTH
    requires c.reader.shutdown == L.StillOpen && VersionFits(c.reader, w.records[i].version)
    ensures |w.records| == |w.Numbers()|
    ensures c.Event(w.records[i].Bytes() + rest, Some(w.records[i].plaintext)) ==
        Some(LinkEventOf(w, Carry(i, c.receiver.maxLen)))
  {
    var r := w.records[i];
    assert S.NumberedBy(r, w.Numbers()[i]);
    var input := r.Bytes() + rest;
    S.SealedRecordParses(r, rest);
    assert input[1..3] == U16Bytes(r.version);
    assert input[1] as int * 0x100 + input[2] as int == r.version by {
      assert input[1..3][0] == input[1] && input[1..3][1] == input[2];
      U16RoundTrip(r.version, [0, 0]);
    }
    c.reader.VersionDecides(input, Some(r.plaintext));
  }

  // ----- The record layer's part -----

  /** The same as deliveries of numbers; a cipher change that is refused is none. */
  ghost function Deliveries(w: Writer, run: Run<Wire>): (ds: Run<F.Delivery>)
    requires F.Fit(w.Numbers()) && Possible(w, run)
    ensures F.Possible(w.Numbers(), ds)
  {
    match run
    case Start => Start
    case Then(past, Carry(i, _)) =>
      var n := w.Numbers()[i];
      Then(Deliveries(w, past), if Fits(w.records[i]) then F.Carry(i) else F.Forge(n.0, n.1))
    case Then(past, Forge(epoch, number, _, _, _)) => Then(Deliveries(w, past), F.Forge(epoch, number))
    case Then(past, Local(e)) =>
      if e.ChangeCipher? && !LinkRun(Linked(w, past)).ring.HasUnprocessedData() then Then(Deliveries(w, past), F.Switch)
      else Deliveries(w, past)
  }

  lemma {:induction false} DeliveriesAgree(w: Writer, run: Run<Wire>)
    requires F.Fit(w.Numbers()) && Possible(w, run)
    ensures F.Reader(w.Numbers(), Deliveries(w, run)) == LinkRun(Linked(w, run)).read
  {
    if run.Then? {
      DeliveriesAgree(w, run.past);
    }
  }

  /** The record arrives in its epoch, was not accepted before, and is not left 64 or more behind. */
  ghost predicate Fresh(w: Writer, past: Run<Wire>, i: nat)
    requires F.Fit(w.Numbers()) && Possible(w, past)
  {
    var numbers, taken := w.Numbers(), F.Taken(w.Numbers(), Deliveries(w, past));
    && i < |numbers| && numbers[i].0 == LinkRun(Linked(w, past)).read.era
    && i !in taken && !F.Stale(numbers, taken, i)
  }

  /** Exactly which records of the writer the connection accepts. */
  lemma {:induction false} AcceptedIsFresh(w: Writer, past: Run<Wire>, i: nat, maxLen: nat)
    requires w.Sound() && Possible(w, past) && LinkRun(Linked(w, past)).read.era < L.TWO_16
    requires i < |w.records| == |w.Numbers()| && Fits(w.records[i])
    ensures AcceptedBy(LinkRun(Linked(w, past)), LinkEventOf(w, Carry(i, maxLen))) <==> Fresh(w, past, i)
  {
    S.NumbersAreUnique(w.run);
    DeliveriesAgree(w, past);
    F.ArrivalIsExact(w.Numbers(), Deliveries(w, past), i);
  }

  // ----- In order, at most once, byte for byte -----

  /** The handshake records the writer sealed carry fragments of the sender's messages. */
  ghost predicate SealsMessages(w: Writer, ms: seq<Message>) {
    forall i :: 0 <= i < |w.records| && w.records[i].contentType == L.RT_HANDSHAKE ==>
      HonestBytes(ms, w.records[i].plaintext)
  }

  lemma {:induction false} RingIsHonest(w: Writer, ms: seq<Message>, run: Run<Wire>)
    requires F.Fit(w.Numbers()) && Possible(w, run) && SealsMessages(w, ms)
    ensures HonestRun(ms, RingPart(Linked(w, run)))
  {
    if run.Then? {
      RingIsHonest(w, ms, run.past);
    }
  }

  /** Whatever the network does, forged records included, messages are handed up in order, each at most once,
      and as the sender would have serialized them in one piece. */
  lemma {:induction false} HandedUpInOrder(w: Writer, ms: seq<Message>, run: Run<Wire>)
    requires F.Fit(w.Numbers()) && Possible(w, run) && SealsMessages(w, ms) && Sendable(ms) && |ms| < TWO_16
    requires AllowedLink(Linked(w, run))
    ensures Faithful(ms, LinkRun(Linked(w, run)).ring, DeliveredBy(Linked(w, run)))
  {
    RingIsHonest(w, ms, run);
    ErasAgree(Linked(w, run));
    InOrderDelivery(ms, RingPart(Linked(w, run)));
  }

  // ----- Everything arrives -----

  /** The fragment can be used when its record arrives: it is not too long, not too far ahead, and in the
      first encrypted epoch for the current message. */
  predicate Usable(r: Ring, f: Fragment, maxLen: nat) {
    && f.header.msgLen <= maxLen && f.header.seqNo < r.readSeq + Reassembly.MAX_FLIGHT
    && (r.era % TWO_16 == 1 ==> f.header.seqNo == r.readSeq)
  }

  /** At some moment of the run record i arrives fresh, and the fragment in it can be used. */
  ghost predicate Welcome(w: Writer, run: Run<Wire>, i: nat, f: Fragment)
    requires F.Fit(w.Numbers()) && Possible(w, run)
  {
    run.Then? &&
    (Welcome(w, run.past, i, f) ||
     (run.last.Carry? && run.last.i == i && Fresh(w, run.past, i)
      && Usable(LinkRun(Linked(w, run.past)).ring, f, run.last.maxLen)))
  }

  lemma {:induction false} ErasGrow(run: Run<LinkEvent>)
    requires run.Then?
    ensures LinkRun(run.past).read.era <= LinkRun(run).read.era
  {
  }

  lemma {:induction false} OneFragmentTaken(ms: seq<Message>, r: Ring, maxLen: nat, f: Fragment)
    requires r.Valid() && AllMatch(ms, r) && Honest(ms, f) && |f.body| == f.header.fragLen && Usable(r, f, maxLen)
    ensures f in Transport.Taken(r, maxLen, FragmentBytes(f))
  {
    HonestFragmentFate(ms, r, maxLen, f);
    ParseWritten(f, []);
    assert FragmentBytes(f) + [] == FragmentBytes(f);
  }

  /** A welcome record is let through by the record layer, and the ring processes its fragment. */
  lemma {:induction false} WelcomeIsTaken(w: Writer, ms: seq<Message>, run: Run<Wire>, i: nat, f: Fragment)
    requires w.Sound() && Possible(w, run) && SealsMessages(w, ms) && Sendable(ms) && |ms| < TWO_16
    requires AllowedLink(Linked(w, run)) && LinkRun(Linked(w, run)).read.era < L.TWO_16
    requires i < |w.records| && Fits(w.records[i]) && w.records[i].contentType == L.RT_HANDSHAKE
    requires w.records[i].plaintext == FragmentBytes(f) && |f.body| == f.header.fragLen && Honest(ms, f)
    requires Welcome(w, run, i, f)
    ensures f in AllTaken(RingPart(Linked(w, run)))
  {
    ErasGrow(Linked(w, run));
    if Welcome(w, run.past, i, f) {
      WelcomeIsTaken(w, ms, run.past, i, f);
    } else {
      var past, maxLen := Linked(w, run.past), run.last.maxLen;
      AcceptedIsFresh(w, run.past, i, maxLen);
      HandedUpInOrder(w, ms, run.past);
      OneFragmentTaken(ms, LinkRun(past).ring, maxLen, f);
      ErasAgree(past);
    }
  }

  /** Hands up and drops n messages. */
  function LinkDrain(run: Run<LinkEvent>, n: nat): Run<LinkEvent> {
    if n == 0 then run else Then(Then(LinkDrain(run, n - 1), LinkEvent.GetMessage), LinkEvent.NextMessage)
  }

  lemma {:induction false} DrainAgrees(run: Run<LinkEvent>, n: nat)
    ensures RingPart(LinkDrain(run, n)) == Drain(RingPart(run), n)
  {
    if n > 0 {
      DrainAgrees(run, n - 1);
    }
  }

  lemma {:induction false} DrainAllowed(run: Run<LinkEvent>, n: nat)
    requires AllowedLink(run) && Reassembly.AllowedRun(Drain(RingPart(run), n))
    ensures AllowedLink(LinkDrain(run, n))
  {
    if n > 0 {
      DrainAllowed(run, n - 1);
      DrainAgrees(run, n - 1);
      var got := Then(LinkDrain(run, n - 1), LinkEvent.GetMessage);
      ErasAgree(got);
    }
  }

  /** One complete sending of a flight: piece j went out in record at[j] of the writer. */
  ghost predicate SentAs(w: Writer, out: seq<Outgoing>, ps: seq<Piece>, at: seq<nat>) {
    && |at| == |ps| && (forall j :: 0 <= j < |at| ==> at[j] < |w.records| && Fits(w.records[at[j]]))
    && Walk(out, Cursor(0, 0), ps) == Some(Cursor(|out|, 0))
    && forall j :: 0 <= j < |at| ==> Carries(out, ps[j], w.records[at[j]])
  }

  /** Every handshake record of the sending is welcome at some moment. */
  ghost predicate AllWelcome(w: Writer, out: seq<Outgoing>, ps: seq<Piece>, at: seq<nat>, run: Run<Wire>)
    requires F.Fit(w.Numbers()) && Possible(w, run) && SentAs(w, out, ps, at)
  {
    forall j :: 0 <= j < |ps| && ps[j].BodyPiece? ==>
      Welcome(w, run, at[j], PieceFragment(out[ps[j].index], ps[j].off, ps[j].len))
  }

  lemma {:induction false} AllArrive(w: Writer, ms: seq<Message>, lo: nat, out: seq<Outgoing>, ps: seq<Piece>, at: seq<nat>,
                                     run: Run<Wire>, rs: seq<S.Record>)
    requires w.Sound() && Possible(w, run) && SealsMessages(w, ms) && Sendable(ms) && |ms| < TWO_16
    requires AllowedLink(Linked(w, run)) && LinkRun(Linked(w, run)).read.era < L.TWO_16
    requires EndToEnd.FlightOf(ms, lo, out) && SentAs(w, out, ps, at) && AllWelcome(w, out, ps, at, run)
    requires |rs| == |at| && forall j :: 0 <= j < |at| ==> rs[j] == w.records[at[j]]
    ensures EndToEnd.SentAndArrived(out, ps, rs, AllTaken(RingPart(Linked(w, run))))
  {
    forall j | 0 <= j < |rs|
      ensures EndToEnd.Arrived(AllTaken(RingPart(Linked(w, run))), rs[j])
    {
      assert Carries(out, ps[j], w.records[at[j]]);
      if ps[j].BodyPiece? {
        var f := PieceFragment(out[ps[j].index], ps[j].off, ps[j].len);
        PieceIsHonest(ms, lo, out, ps[j]);
        WelcomeIsTaken(w, ms, run, at[j], f);
      }
    }
  }

  lemma {:induction false} PieceIsHonest(ms: seq<Message>, lo: nat, out: seq<Outgoing>, p: Piece)
    requires EndToEnd.FlightOf(ms, lo, out) && p.BodyPiece? && p.index < |out| && !out[p.index].isCcs
    requires out[p.index].WellFormed() && p.off + p.len <= |out[p.index].Body()|
    ensures Honest(ms, PieceFragment(out[p.index], p.off, p.len))
  {
    assert EndToEnd.IsMessage(ms, lo + EndToEnd.MessagesBefore(out, p.index), out[p.index]);
  }

  /** The whole way: when each handshake record of one complete sending of a flight arrives fresh and usable at
      some moment, in whatever order and whatever else arrives or is forged, the reading side can hand up
      every message of the flight, in order and byte for byte as the sender would have serialized it. */
  lemma {:induction false} FlightGetsThrough(w: Writer, ms: seq<Message>, lo: nat, out: seq<Outgoing>, ps: seq<Piece>,
                                             at: seq<nat>, run: Run<Wire>, n: nat, drained: Run<LinkEvent>)
    requires w.Sound() && Possible(w, run) && SealsMessages(w, ms) && Sendable(ms) && |ms| < TWO_16
    requires AllowedLink(Linked(w, run)) && LinkRun(Linked(w, run)).read.era < L.TWO_16
    requires EndToEnd.FlightOf(ms, lo, out) && SentAs(w, out, ps, at) && AllWelcome(w, out, ps, at, run)
    requires lo <= LinkRun(Linked(w, run)).ring.readSeq
    requires LinkRun(Linked(w, run)).ring.readSeq + n == lo + EndToEnd.MessagesBefore(out, |out|)
    requires drained == LinkDrain(Linked(w, run), n)
    ensures AllowedLink(drained) && LinkRun(drained).ring.readSeq == lo + EndToEnd.MessagesBefore(out, |out|)
    ensures |DeliveredBy(drained)| == lo + EndToEnd.MessagesBefore(out, |out|) && InOrder(ms, DeliveredBy(drained))
  {
    var linked := Linked(w, run);
    var rs := seq(|at|, j requires 0 <= j < |at| && at[j] < |w.records| => w.records[at[j]]);
    AllArrive(w, ms, lo, out, ps, at, run, rs);
    RingIsHonest(w, ms, run);
    ErasAgree(linked);
    EndToEnd.FlightIsDelivered(ms, lo, out, ps, rs, RingPart(linked), n, Drain(RingPart(linked), n));
    DrainAllowed(linked, n);
    DrainAgrees(linked, n);
    ErasAgree(drained);
  }
}
