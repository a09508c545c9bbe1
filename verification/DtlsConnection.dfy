/** The reading side of a DTLS connection as a whole: the record layer and the reassembly ring change read
    epochs together, and what the ring buffers came in records of the epoch it is in. */
module DtlsConnection {
  import opened Wrappers
  import opened Bytes
  import opened Words
  import opened Fragments
  import opened Reassembly
  import RecordLayer
  import RecordSealing
  import ReceiverRing
  import Sending

  // ----- Runs of record opens, gets, nexts and cipher changes -----

  datatype Link = Link(read: RecordLayer.ReadState, ring: Ring)

  /** A record as it arrives: its epoch and number, whether the AEAD accepts it, and what it holds. */
  datatype LinkEvent =
    | Record(epoch: nat, number: nat, authentic: bool, contentType: Byte, content: seq<Byte>, maxLen: nat)
    | TakeChangeCipherSpec
    | GetMessage
    | NextMessage
    | ChangeCipher

  ghost predicate AcceptedBy(l: Link, e: LinkEvent) {
    e.Record? && RecordLayer.Accepts(l.read, RecordLayer.Arrive(e.epoch, e.number, e.authentic))
  }

  /** What an event is to the ring; a record that is not accepted is nothing to it. */
  ghost function RingEventOf(l: Link, e: LinkEvent): Option<RingEvent> {
    match e
    case Record(_, _, _, contentType, content, maxLen) =>
      if !AcceptedBy(l, e) then None
      else if contentType == RecordLayer.RT_HANDSHAKE then Some(HandshakeRecord(content, maxLen))
      else if contentType == RecordLayer.RT_CHANGE_CIPHER_SPEC && l.ring.era == 0 && content == [1] then
        Some(ChangeCipherSpecRecord)
      else None
    case TakeChangeCipherSpec => Some(RingEvent.TakeChangeCipherSpec)
    case GetMessage => Some(RingEvent.GetMessage)
    case NextMessage => Some(RingEvent.NextMessage)
    case ChangeCipher => Some(RingEvent.ChangeReadCipher)
  }

  ghost function LinkStep(l: Link, e: LinkEvent): (after: Link)
    requires |l.ring.slots| == MAX_FLIGHT
    ensures |after.ring.slots| == MAX_FLIGHT
  {
    var ring := match RingEventOf(l, e) case None => l.ring case Some(r) => RingStep(l.ring, r);
    match e
    case Record(epoch, number, authentic, _, _, _) =>
      Link(RecordLayer.ReadStep(l.read, RecordLayer.Arrive(epoch, number, authentic)), ring)
    case ChangeCipher =>
      if l.ring.HasUnprocessedData() then l else Link(RecordLayer.ReadStep(l.read, RecordLayer.ChangeReadCipher), ring)
    case _ => Link(l.read, ring)
  }

  ghost function LinkRun(run: Run<LinkEvent>): (l: Link)
    ensures |l.ring.slots| == MAX_FLIGHT
  {
    match run
    case Start => Link(RecordLayer.ReadState(0, {}), EMPTY_RING)
    case Then(past, e) => LinkStep(LinkRun(past), e)
  }

  ghost predicate AllowedLink(run: Run<LinkEvent>) {
    run.Then? ==> AllowedLink(run.past) && (run.last.NextMessage? ==> LinkRun(run.past).ring.hasMessage)
  }

  /** The run as the ring sees it. */
  ghost function RingPart(run: Run<LinkEvent>): Run<RingEvent> {
    match run
    case Start => Start
    case Then(past, e) =>
      match RingEventOf(LinkRun(past), e)
      case None => RingPart(past)
      case Some(r) => Then(RingPart(past), r)
  }

  /** The run as the record layer sees it. */
  ghost function ReadPart(run: Run<LinkEvent>): Run<RecordLayer.ReadEvent> {
    match run
    case Start => Start
    case Then(past, Record(epoch, number, authentic, _, _, _)) =>
      Then(ReadPart(past), RecordLayer.Arrive(epoch, number, authentic))
    case Then(past, ChangeCipher) =>
      if LinkRun(past).ring.HasUnprocessedData() then ReadPart(past)
      else Then(ReadPart(past), RecordLayer.ChangeReadCipher)
    case Then(past, _) => ReadPart(past)
  }

  /** So is the record layer's part a run of the record layer. */
  lemma {:induction false} ReadPartAgrees(run: Run<LinkEvent>)
    ensures RecordLayer.ReadRun(ReadPart(run)) == LinkRun(run).read
  {
    if run.Then? {
      ReadPartAgrees(run.past);
    }
  }

  /** Record layer and ring are always in the same read era, and the ring's part of the run is a run of the
      ring, so that whatever holds of those holds here. */
  lemma {:induction false} ErasAgree(run: Run<LinkEvent>)
    requires AllowedLink(run)
    ensures LinkRun(run).read.era == LinkRun(run).ring.era
    ensures AllowedRun(RingPart(run)) && RingRun(RingPart(run)) == LinkRun(run).ring
  {
    if run.Then? {
      ErasAgree(run.past);
      StepAgrees(LinkRun(run.past), run.last);
    }
  }

  lemma {:induction false} StepAgrees(l: Link, e: LinkEvent)
    requires |l.ring.slots| == MAX_FLIGHT && l.read.era == l.ring.era
    ensures LinkStep(l, e).read.era == LinkStep(l, e).ring.era
    ensures LinkStep(l, e).ring == match RingEventOf(l, e) case None => l.ring case Some(r) => RingStep(l.ring, r)
  {
    if RingEventOf(l, e).Some? && RingEventOf(l, e).value.HandshakeRecord? {
      ReceiveAllKeepsEra(l.ring, e.maxLen, e.content);
    }
  }

  // ----- Where the bytes of a message come from -----

  /** The fragments of a handshake record. */
  function FragmentsIn(bytes: seq<Byte>): seq<Fragment>
    decreases |bytes|
  {
    if bytes == [] || ParseFragment(bytes).None? then []
    else [ParseFragment(bytes).value.0] + FragmentsIn(ParseFragment(bytes).value.1)
  }

  /** The fragment holds byte k of message seqNo. */
  predicate HasByteAt(f: Fragment, seqNo: nat, k: nat, b: Byte) {
    f.header.seqNo == seqNo && f.header.fragOff <= k < f.header.fragOff + |f.body| && f.body[k - f.header.fragOff] == b
  }

  /** The byte is in one of the fragments of the record. */
  ghost predicate Holds(bytes: seq<Byte>, seqNo: nat, k: nat, b: Byte) {
    exists f :: f in FragmentsIn(bytes) && HasByteAt(f, seqNo, k, b)
  }

  /** Byte k of message seqNo was in a handshake record of that epoch which the record layer accepted. */
  ghost predicate Brought(run: Run<LinkEvent>, seqNo: nat, k: nat, b: Byte, epoch: nat) {
    run.Then? && (Brought(run.past, seqNo, k, b, epoch) || BroughtBy(LinkRun(run.past), run.last, seqNo, k, b, epoch))
  }

  ghost predicate BroughtBy(l: Link, e: LinkEvent, seqNo: nat, k: nat, b: Byte, epoch: nat) {
    && AcceptedBy(l, e) && e.contentType == RecordLayer.RT_HANDSHAKE && e.epoch == epoch
    && Holds(e.content, seqNo, k, b)
  }

  /** A byte in a slot was there before, or is in the record and bears the ring's era. */
  ghost predicate FromBefore(r: Ring, i: nat, p: Partial, k: nat)
    requires |r.slots| == MAX_FLIGHT && i < MAX_FLIGHT && k in p.got
  {
    r.slots[i].Some? && r.slots[i].value.seqNo == p.seqNo && k in r.slots[i].value.got && r.slots[i].value.got[k] == p.got[k]
  }

  lemma {:induction false} ReceiveOrigin(r: Ring, maxLen: nat, f: Fragment, i: nat, k: nat)
    requires r.Valid() && i < MAX_FLIGHT
    requires Receive(r, maxLen, f).1.slots[i].Some? && k in Receive(r, maxLen, f).1.slots[i].value.got
    ensures var p := Receive(r, maxLen, f).1.slots[i].value;
      FromBefore(r, i, p, k) || (p.got[k].era == r.era && HasByteAt(f, p.seqNo, k, p.got[k].byte))
  {
    if r.slots[i].Some? {
      assert r.InPlace(i, r.slots[i].value);
      if r.readSeq <= f.header.seqNo < r.readSeq + MAX_FLIGHT && f.header.seqNo % MAX_FLIGHT == i {
        SlotNumber(r, f.header.seqNo);
      }
    }
  }

  lemma {:induction false} ReceiveAllOrigin(r: Ring, maxLen: nat, bytes: seq<Byte>, i: nat, k: nat)
    requires r.Valid() && i < MAX_FLIGHT
    requires ReceiveAll(r, maxLen, bytes).1.slots[i].Some? && k in ReceiveAll(r, maxLen, bytes).1.slots[i].value.got
    ensures var p := ReceiveAll(r, maxLen, bytes).1.slots[i].value;
      FromBefore(r, i, p, k) || (p.got[k].era == r.era && Holds(bytes, p.seqNo, k, p.got[k].byte))
    decreases |bytes|
  {
    if bytes != [] && ParseFragment(bytes).Some? {
      var (f, rest) := ParseFragment(bytes).value;
      var (o, after) := Receive(r, maxLen, f);
      var p := ReceiveAll(r, maxLen, bytes).1.slots[i].value;
      assert f in FragmentsIn(bytes) && forall g :: g in FragmentsIn(rest) ==> g in FragmentsIn(bytes);
      if o.Rejected? {
        ReceiveOrigin(r, maxLen, f, i, k);
      } else {
        ReceiveKeepsRing(r, maxLen, f);
        ReceiveAllOrigin(after, maxLen, rest, i, k);
        if FromBefore(after, i, p, k) {
          ReceiveOrigin(r, maxLen, f, i, k);
        }
      }
    }
  }

  /** Every byte in the slot was brought by a record whose epoch is the byte's era, cut to 16 bits. */
  ghost predicate WellBrought(run: Run<LinkEvent>, p: Partial) {
    forall k :: k in p.got ==> Brought(run, p.seqNo, k, p.got[k].byte, p.got[k].era % TWO_16)
  }

  lemma {:induction false} BytesAreBrought(run: Run<LinkEvent>, i: nat)
    requires AllowedLink(run) && i < MAX_FLIGHT && LinkRun(run).ring.slots[i].Some?
    ensures WellBrought(run, LinkRun(run).ring.slots[i].value)
  {
    if run.Then? {
      var l, e := LinkRun(run.past), run.last;
      var p := LinkRun(run).ring.slots[i].value;
      ErasAgree(run.past);
      RingInvariant(RingPart(run.past));
      if l.ring.slots[i].Some? {
        BytesAreBrought(run.past, i);
      }
      forall k | k in p.got
        ensures Brought(run, p.seqNo, k, p.got[k].byte, p.got[k].era % TWO_16)
      {
        StepOrigin(l, e, i, k);
        if FromBefore(l.ring, i, p, k) {
          assert Brought(run.past, p.seqNo, k, p.got[k].byte, p.got[k].era % TWO_16);
        }
      }
    }
  }

  lemma {:induction false} StepOrigin(l: Link, e: LinkEvent, i: nat, k: nat)
    requires l.ring.Valid() && l.read.era == l.ring.era && i < MAX_FLIGHT
    requires LinkStep(l, e).ring.slots[i].Some? && k in LinkStep(l, e).ring.slots[i].value.got
    ensures var p := LinkStep(l, e).ring.slots[i].value;
      FromBefore(l.ring, i, p, k) || BroughtBy(l, e, p.seqNo, k, p.got[k].byte, p.got[k].era % TWO_16)
  {
    StepAgrees(l, e);
    if RingEventOf(l, e).Some? && RingEventOf(l, e).value.HandshakeRecord? {
      ReceiveAllOrigin(l.ring, e.maxLen, e.content, i, k);
    }
  }

  /** The messages handed up by a run. */
  ghost function DeliveredBy(run: Run<LinkEvent>): seq<Partial> {
    Delivered(RingPart(run))
  }

  /** No message that is handed up holds bytes from records of two epochs: in any run, whatever arrives, all
      of its bytes were brought by accepted records that carry one and the same epoch. */
  lemma {:induction false} EpochsNeverMix(run: Run<LinkEvent>, p: Partial) returns (epoch: nat)
    requires AllowedLink(run) && p in DeliveredBy(run)
    ensures p.Complete() && forall k: nat :: k < p.msgLen ==> k in p.got && Brought(run, p.seqNo, k, p.got[k].byte, epoch)
  {
    ErasAgree(run);
    NoEpochMixing(RingPart(run));
    var era: nat :| p.AllFrom(era);
    epoch := era % TWO_16;
    DeliveredIsBrought(run, p);
  }

  lemma {:induction false} DeliveredIsBrought(run: Run<LinkEvent>, p: Partial)
    requires AllowedLink(run) && p in DeliveredBy(run)
    ensures WellBrought(run, p)
  {
    var l, e := LinkRun(run.past), run.last;
    ErasAgree(run.past);
    if p in DeliveredBy(run.past) {
      DeliveredIsBrought(run.past, p);
    } else {
      BytesAreBrought(run.past, l.ring.readSeq % MAX_FLIGHT);
      assert p == l.ring.Slot(l.ring.readSeq).value;
      assert WellBrought(run.past, p);
    }
    forall k | k in p.got
      ensures Brought(run, p.seqNo, k, p.got[k].byte, p.got[k].era % TWO_16)
    {
      assert Brought(run.past, p.seqNo, k, p.got[k].byte, p.got[k].era % TWO_16);
    }
  }

  // ----- The connection -----

  /** An accepted record takes the record layer and the ring one step on. */
  lemma {:induction false} OpenedIsStep(l: Link, e: LinkEvent, after: Ring)
    requires |l.ring.slots| == MAX_FLIGHT && AcceptedBy(l, e)
    requires after == if e.contentType == RecordLayer.RT_HANDSHAKE then ReceiveAll(l.ring, e.maxLen, e.content).1
                      else if e.contentType == RecordLayer.RT_CHANGE_CIPHER_SPEC && l.ring.era == 0 && e.content == [1] then
                        l.ring.(hasChangeCipherSpec := true)
                      else l.ring
    ensures LinkStep(l, e) ==
        Link(RecordLayer.ReadStep(l.read, RecordLayer.Arrive(e.epoch, e.number, e.authentic)), after)
  {
  }

  /** A record that is not accepted, or is an alert, is nothing to the ring. */
  lemma {:induction false} OtherIsStep(l: Link, e: LinkEvent)
    requires |l.ring.slots| == MAX_FLIGHT && e.Record? && (!AcceptedBy(l, e) || e.contentType == RecordLayer.RT_ALERT)
    ensures LinkStep(l, e) ==
        Link(RecordLayer.ReadStep(l.read, RecordLayer.Arrive(e.epoch, e.number, e.authentic)), l.ring)
  {
  }

  datatype Opening = RecordSays(result: RecordLayer.OpenResult) | HandshakeSays(outcome: ReceiverRing.OpenOutcome)
  {
    predicate IsError() {
      (RecordSays? && result.Error?) || (HandshakeSays? && outcome.Failed?)
    }

    predicate Closes() {
      RecordSays? && result.CloseNotify?
    }
  }

  class DtlsState {
    const reader: RecordLayer.RecordReader
    const receiver: ReceiverRing.Receiver
    const sender: Sending.Sender

    /** Reader, ring and sender do not share memory. */
    ghost predicate Apart()
      reads this, reader, receiver, sender
    {
      && reader !in receiver.repr && reader.bitmap !in receiver.repr
      && sender !in receiver.repr && sender.writer.Repr() !! receiver.repr
      && reader !in sender.writer.Repr() && reader.bitmap !in sender.writer.Repr()
    }

    ghost predicate Valid()
      reads this, reader, reader.bitmap, receiver, receiver.repr, sender, sender.writer.Repr()
    {
      && Apart() && reader.Valid() && receiver.Valid() && sender.Valid()
      && reader.era == receiver.era && (reader.nullCipher <==> reader.era == 0) && receiver.nullCipher == reader.nullCipher
    }

    ghost function State(): Link
      reads this, reader, reader.bitmap, receiver
    {
      Link(reader.State(), receiver.State())
    }

    constructor (nullAead: RecordSealing.SealAead)
      ensures Valid() && State() == LinkRun(Start)
    {
      reader := new RecordLayer.RecordReader();
      receiver := new ReceiverRing.Receiver();
      sender := new Sending.Sender(nullAead);
    }

    /** What a datagram is to the connection; `plain` is the outcome of the AEAD. */
    ghost function Event(input: seq<Byte>, plain: Option<seq<Byte>>): Option<LinkEvent>
      reads this, reader, receiver
    {
      if reader.shutdown == RecordLayer.Errored then None else
      match reader.Event(input, plain)
      case None => None
      case Some(e) =>
        var content := if plain.Some? then plain.value else [];
        Some(Record(e.epoch, e.number, e.authentic, RecordLayer.ParseRecord(input).value.contentType, content, receiver.maxLen))
    }

    /** What the caller is told about a datagram that is no alert and goes to the ring, or does not get there. */
    ghost function Says(input: seq<Byte>, plain: Option<seq<Byte>>): Opening
      requires receiver.Valid()
      reads this, reader, reader.bitmap, receiver, receiver.repr
    {
      match Event(input, plain)
      case None =>
        RecordSays(if reader.shutdown == RecordLayer.CloseNotified then RecordLayer.CloseNotify
                   else if input == [] then RecordLayer.Partial else RecordLayer.Discard)
      case Some(e) =>
        if AcceptedBy(State(), e) then
          if e.contentType == RecordLayer.RT_ALERT then RecordSays(RecordLayer.AlertSays(e.content, reader.warnings))
          else HandshakeSays(ReceiverRing.Handled(State().ring, receiver.nullCipher, receiver.maxLen, e.contentType, e.content).0)
        else if plain.Some? && AcceptedBy(State(), e.(authentic := true)) then
          RecordSays(RecordLayer.Error(RecordLayer.SSL_AD_RECORD_OVERFLOW))
        else RecordSays(RecordLayer.Discard)
    }

    /** How much of a datagram is used up: one record, or all of it when there is no telling. */
    ghost function Uses(input: seq<Byte>, plain: Option<seq<Byte>>): nat
      reads this, reader, receiver
    {
      if Event(input, plain).Some? then RecordLayer.RT_HEADER_LENGTH + |RecordLayer.ParseRecord(input).value.body|
      else if reader.shutdown == RecordLayer.CloseNotified then 0
      else |input|
    }

    /** Hands what an accepted record holds to the ring. */
    method HandToRing(contentType: Byte, record: seq<Byte>) returns (outcome: ReceiverRing.OpenOutcome)
      requires Valid()
      modifies receiver.repr
      ensures Valid() && fresh(receiver.repr - old(receiver.repr)) && State().read == old(State().read)
      ensures State().ring ==
        if contentType == RecordLayer.RT_HANDSHAKE then ReceiveAll(old(State().ring), old(receiver.maxLen), record).1
        else if contentType == RecordLayer.RT_CHANGE_CIPHER_SPEC && old(State().ring.era) == 0 && record == [1] then
          old(State().ring).(hasChangeCipherSpec := true)
        else old(State().ring)
      ensures outcome == ReceiverRing.Handled(
          old(State().ring), old(receiver.nullCipher), old(receiver.maxLen), contentType, record).0
      ensures receiver.hasChangeCipherSpec && !old(receiver.hasChangeCipherSpec) ==> outcome == ReceiverRing.Opened
    {
      ReceiveAllKeepsFlag(receiver.State(), receiver.maxLen, record);
      outcome := receiver.OpenHandshake(contentType, record);
    }

    /** The record layer's part: the ring is as before, and a success is an accepted record. */
    method ReadRecord(input: seq<Byte>, plain: Option<seq<Byte>>)
      returns (result: RecordLayer.OpenResult, consumed: nat)
      requires Valid() && reader.shutdown != RecordLayer.Errored
      modifies reader`shutdown, reader`warnings, reader.bitmap
      ensures Valid() && consumed <= |input| && reader.shutdown != RecordLayer.Errored
      ensures State().ring == old(State()).ring && consumed == old(Uses(input, plain))
      ensures if result.Success? then old(Says(input, plain)).HandshakeSays? else old(Says(input, plain)) == RecordSays(result)
      ensures reader.shutdown == if result.CloseNotify? then RecordLayer.CloseNotified else old(reader.shutdown)
      ensures !result.Success? ==>
        var e := old(Event(input, plain)); State() == if e.None? then old(State()) else LinkStep(old(State()), e.value)
      ensures result.Success? ==>
        && old(Event(input, plain)).Some?
        && var e := old(Event(input, plain)).value;
        && AcceptedBy(old(State()), e) && e.contentType == result.contentType && e.content == result.plaintext
        && State().read == RecordLayer.ReadStep(old(State()).read, RecordLayer.Arrive(e.epoch, e.number, e.authentic))
    {
      ghost var before, e := State(), Event(input, plain);
      result, consumed := reader.OpenRecord(input, plain);
      if !result.Success? && e.Some? {
        OtherIsStep(before, e.value);
      }
    }

    /** Opens a record and hands it to the ring. */
    method OpenAny(input: seq<Byte>, plain: Option<seq<Byte>>) returns (opening: Opening, consumed: nat)
      requires Valid() && reader.shutdown != RecordLayer.Errored
      modifies reader`shutdown, reader`warnings, reader.bitmap, receiver.repr
      ensures Valid() && consumed <= |input| && fresh(receiver.repr - old(receiver.repr))
      ensures var e := old(Event(input, plain)); State() == if e.None? then old(State()) else LinkStep(old(State()), e.value)
      ensures opening == old(Says(input, plain)) && consumed == old(Uses(input, plain))
      ensures reader.shutdown == if opening.Closes() then RecordLayer.CloseNotified else old(reader.shutdown)
      ensures receiver.hasChangeCipherSpec && !old(receiver.hasChangeCipherSpec) ==>
        opening == HandshakeSays(ReceiverRing.Opened)
      ensures reader.shutdown != RecordLayer.Errored
    {
      var result;
      ghost var before, e := State(), Event(input, plain);
      result, consumed := ReadRecord(input, plain);
      if !result.Success? {
        return RecordSays(result), consumed;
      }
      var outcome := HandToRing(result.contentType, result.plaintext);
      OpenedIsStep(before, e.value, State().ring);
      return HandshakeSays(outcome), consumed;
    }

    /** An error ends reading for good. */
    method OpenHandshake(input: seq<Byte>, plain: Option<seq<Byte>>) returns (opening: Opening, consumed: nat)
      requires Valid()
      modifies reader`shutdown, reader`warnings, reader.bitmap, receiver.repr
      ensures Valid() && consumed <= |input| && fresh(receiver.repr - old(receiver.repr))
      ensures var e := old(Event(input, plain)); State() == if e.None? then old(State()) else LinkStep(old(State()), e.value)
      ensures receiver.hasChangeCipherSpec && !old(receiver.hasChangeCipherSpec) ==>
        opening == HandshakeSays(ReceiverRing.Opened)
      ensures opening.IsError() <==> reader.shutdown == RecordLayer.Errored
      ensures if old(reader.shutdown) == RecordLayer.Errored then opening.IsError() && consumed == 0
              else opening == old(Says(input, plain)) && consumed == old(Uses(input, plain))
      ensures !opening.IsError() ==>
        reader.shutdown == if opening.Closes() then RecordLayer.CloseNotified else old(reader.shutdown)
    {
      if reader.shutdown == RecordLayer.Errored {
        return RecordSays(RecordLayer.Error(0)), 0;
      }
      opening, consumed := OpenAny(input, plain);
      if opening.IsError() {
        reader.shutdown := RecordLayer.Errored;
      }
    }

    /** Consumes a ChangeCipherSpec: the one that is pending, or else the one the datagram may bring. */
    method OpenChangeCipherSpec(input: seq<Byte>, plain: Option<seq<Byte>>) returns (opening: Opening, consumed: nat)
      requires Valid()
      modifies reader`shutdown, reader`warnings, reader.bitmap, receiver.repr
      ensures Valid() && consumed <= |input| && fresh(receiver.repr - old(receiver.repr))
      ensures old(reader.shutdown) == RecordLayer.Errored ==> opening.IsError() && State() == old(State())
      ensures old(reader.shutdown) != RecordLayer.Errored ==>
        var e := if old(receiver.hasChangeCipherSpec) then None else old(Event(input, plain));
        var mid := if e.None? then old(State()) else LinkStep(old(State()), e.value);
        && State() == LinkStep(mid, LinkEvent.TakeChangeCipherSpec)
        && (opening == HandshakeSays(ReceiverRing.Opened) <==> mid.ring.hasChangeCipherSpec)
        && (if old(receiver.hasChangeCipherSpec) then consumed == 0 else
              && consumed == old(Uses(input, plain))
              && (opening != HandshakeSays(ReceiverRing.Opened) ==>
                    opening == if old(Says(input, plain)) == HandshakeSays(ReceiverRing.Opened) then
                                 HandshakeSays(ReceiverRing.Discarded) else old(Says(input, plain))))
    {
      if reader.shutdown == RecordLayer.Errored {
        return RecordSays(RecordLayer.Error(0)), 0;
      }
      consumed := 0;
      if !receiver.hasChangeCipherSpec {
        opening, consumed := OpenHandshake(input, plain);
        if opening != HandshakeSays(ReceiverRing.Opened) {
          return;
        }
      }
      opening := TakeChangeCipherSpec();
    }

    /** Consumes the ChangeCipherSpec that is pending, if one is. */
    method TakeChangeCipherSpec() returns (opening: Opening)
      requires Valid()
      modifies receiver`hasChangeCipherSpec
      ensures Valid() && State() == LinkStep(old(State()), LinkEvent.TakeChangeCipherSpec)
      ensures opening == HandshakeSays(if old(receiver.hasChangeCipherSpec) then ReceiverRing.Opened else ReceiverRing.Discarded)
    {
      var outcome := receiver.TakeChangeCipherSpec();
      return HandshakeSays(outcome);
    }

    /** The current message once it is complete, in the form it would have had unfragmented. */
    method GetMessage() returns (out: Option<ReceiverRing.SslMessage>)
      requires Valid()
      modifies receiver`hasMessage
      ensures Valid() && State() == LinkStep(old(State()), LinkEvent.GetMessage)
      ensures out.Some? <==> State().ring.CurrentComplete()
      ensures out.Some? ==>
        var p := State().ring.Slot(State().ring.readSeq).value;
        out.value == ReceiverRing.SslMessage(p.typ, p.Body(), p.Raw())
    {
      out := receiver.GetMessage();
    }

    /** Drops the current message. A flight that was flushed has its reply now. */
    method NextMessage()
      requires Valid() && receiver.hasMessage
      modifies receiver`hasMessage, receiver`readSeq, receiver`slots, receiver.incoming, sender`hasReply
      ensures Valid() && State() == LinkStep(old(State()), LinkEvent.NextMessage)
      ensures sender.hasReply == (old(sender.hasReply) || sender.complete)
    {
      receiver.NextMessage();
      sender.MarkReply();
    }

    /** A read cipher change: refused while the current epoch has leftover data, and otherwise a new epoch
        for the ring and for the record layer, with an empty replay window. */
    method SetReadState(version: Uint16) returns (ok: bool)
      requires Valid()
      modifies reader, reader.bitmap, receiver`readEpoch, receiver`nullCipher, receiver`era
      ensures Valid() && State() == LinkStep(old(State()), ChangeCipher)
      ensures ok <==> NothingLeft(old(State()).ring)
      ensures ok ==> !reader.nullCipher && reader.recordVersion == version && reader.bitmap.received == {}
    {
      LeftIsExact(State().ring);
      ok := receiver.SetReadState();
      if ok {
        reader.ChangeCipher(version);
      }
    }

    /** The flight that ends the handshake is dropped if and only if a message came after it was flushed. */
    method OnHandshakeComplete()
      requires Valid()
      modifies sender`outgoing, sender`written, sender`offset, sender`complete, sender`hasReply
      ensures Valid() && State() == old(State())
      ensures sender.outgoing == if old(sender.hasReply) then [] else old(sender.outgoing)
    {
      sender.OnHandshakeComplete();
    }
  }
}
