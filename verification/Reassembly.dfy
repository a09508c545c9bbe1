/** Receiving handshake messages (sections 4.2.2 and 4.2.3 of RFC 6347): what the reassembly ring does,
    stated on values. Class Receiver of module ReceiverRing is proved to do exactly this. */
module Reassembly {
  import opened Wrappers
  import opened Bytes
  import opened Fragments

  const MAX_FLIGHT: nat := 7
  const TWO_16: nat := 0x1_0000

  datatype Alert = UnexpectedMessage | IllegalParameter | DecodeError | InternalError

  // ----- One message being assembled -----

  /** A byte of a message body and the read era in which it arrived. */
  datatype Received = Received(byte: Byte, era: nat)

  /** The byte at position k of a body whose positions from off on hold the chunk. */
  function ByteAt(chunk: seq<Byte>, off: nat, k: nat): Byte
    requires off <= k < off + |chunk|
  {
    chunk[k - off]
  }

  datatype Partial = Partial(typ: Byte, seqNo: Uint16, msgLen: Uint24, got: map<nat, Received>) {
    predicate Complete() {
      forall k: nat :: k < msgLen ==> k in got
    }

    ghost predicate Valid() {
      forall k :: k in got ==> k < msgLen
    }

    /** Receives a chunk at off; a complete message takes nothing more. */
    function Absorb(off: nat, chunk: seq<Byte>, era: nat): Partial {
      if Complete() then this
      else this.(got := got + map k: nat | off <= k < off + |chunk| :: Received(ByteAt(chunk, off, k), era))
    }

    function Body(): (body: seq<Byte>)
      requires Complete()
      ensures |body| == msgLen
    {
      seq(msgLen, k requires 0 <= k < msgLen && k in got => got[k].byte)
    }

    /** The message handed up, its header rewritten as if it had come in one fragment. */
    function Raw(): seq<Byte>
      requires Complete()
    {
      FragmentBytes(Whole(Message(typ, Body()), seqNo))
    }

    /** All bytes arrived in era e. */
    ghost predicate AllFrom(e: nat) {
      forall k :: k in got ==> got[k].era == e
    }
  }

  // ----- The ring -----

  /** era counts the read cipher changes, so the 16-bit read epoch is era modulo 2^16. */
  datatype Ring = Ring(
    readSeq: Uint16, slots: seq<Option<Partial>>, hasMessage: bool, hasChangeCipherSpec: bool, era: nat)
  {
    /** What every reachable state keeps: an occupied slot i holds a message whose number lies in
        [readSeq, readSeq + 7) and is i modulo 7. */
    ghost predicate Valid() {
      && |slots| == MAX_FLIGHT
      && (forall i :: 0 <= i < MAX_FLIGHT && slots[i].Some? ==> InPlace(i, slots[i].value))
      && (hasMessage ==> CurrentComplete())
    }

    ghost predicate InPlace(i: nat, p: Partial) {
      p.Valid() && readSeq <= p.seqNo < readSeq + MAX_FLIGHT && p.seqNo % MAX_FLIGHT == i
    }

    function Slot(seqNo: nat): Option<Partial>
      requires |slots| == MAX_FLIGHT
    {
      slots[seqNo % MAX_FLIGHT]
    }

    predicate CurrentComplete()
      requires |slots| == MAX_FLIGHT
    {
      Slot(readSeq).Some? && Slot(readSeq).value.Complete()
    }

    function Put(seqNo: nat, p: Option<Partial>): Ring
      requires |slots| == MAX_FLIGHT
    {
      this.(slots := slots[seqNo % MAX_FLIGHT := p])
    }

    /** Anything buffered besides the current message, once that was looked at. */
    predicate HasUnprocessedData()
      requires |slots| == MAX_FLIGHT
    {
      || hasChangeCipherSpec
      || exists i :: 0 <= i < MAX_FLIGHT && slots[i].Some? && !(hasMessage && i == readSeq % MAX_FLIGHT)
    }

    /** Drops the current message. */
    function Next(): Ring
      requires |slots| == MAX_FLIGHT
    {
      Put(readSeq, None).(readSeq := Successor(readSeq), hasMessage := false)
    }
  }

  /** Message numbers have 16 bits. */
  function Successor(seqNo: Uint16): Uint16 {
    if seqNo == TWO_16 - 1 then 0 else seqNo + 1
  }

  const EMPTY_RING: Ring := Ring(0, [None, None, None, None, None, None, None], false, false, 0)

  // ----- Receiving -----

  datatype Outcome = Accepted | Rejected(alert: Alert)

  /** The checks made on every fragment before its message is looked up. */
  function Screen(r: Ring, maxLen: nat, h: Header): Outcome {
    if h.fragOff > h.msgLen || h.fragOff + h.fragLen > h.msgLen || h.msgLen > maxLen then
      Rejected(IllegalParameter)
    else if r.era % TWO_16 == 1 && h.seqNo != r.readSeq then
      Rejected(UnexpectedMessage)
    else
      Accepted
  }

  /** Fragments from the past, and from the far future, are dropped. */
  predicate Ignored(r: Ring, h: Header) {
    h.seqNo < r.readSeq || h.seqNo > r.readSeq + MAX_FLIGHT
  }

  /** Finds the message a fragment belongs to; the first fragment of a message makes a new one. */
  function Lookup(r: Ring, h: Header): (Outcome, Ring)
    requires |r.slots| == MAX_FLIGHT
  {
    if h.seqNo < r.readSeq || h.seqNo - r.readSeq >= MAX_FLIGHT then
      (Rejected(InternalError), r)
    else
      match r.Slot(h.seqNo)
      case Some(p) =>
        (if p.typ != h.typ || p.msgLen != h.msgLen then Rejected(IllegalParameter) else Accepted, r)
      case None =>
        (Accepted, r.Put(h.seqNo, Some(Partial(h.typ, h.seqNo, h.msgLen, map[]))))
  }

  /** Puts a fragment's body into its message. */
  function Place(r: Ring, f: Fragment): (res: (Outcome, Ring))
    requires |r.slots| == MAX_FLIGHT
    ensures |res.1.slots| == MAX_FLIGHT
  {
    var h := f.header;
    var (o, found) := Lookup(r, h);
    if o.Rejected? then (o, r)
    else (Accepted, found.Put(h.seqNo, Some(found.Slot(h.seqNo).value.Absorb(h.fragOff, f.body, r.era))))
  }

  function Receive(r: Ring, maxLen: nat, f: Fragment): (res: (Outcome, Ring))
    requires |r.slots| == MAX_FLIGHT
    ensures |res.1.slots| == MAX_FLIGHT
  {
    var h := f.header;
    if Screen(r, maxLen, h).Rejected? then (Screen(r, maxLen, h), r)
    else if Ignored(r, h) then (Accepted, r)
    else Place(r, f)
  }

  /** A handshake record is a list of fragments; the first bad one ends it. */
  function ReceiveAll(r: Ring, maxLen: nat, bytes: seq<Byte>): (res: (Outcome, Ring))
    requires |r.slots| == MAX_FLIGHT
    ensures |res.1.slots| == MAX_FLIGHT
    decreases |bytes|
  {
    if bytes == [] then (Accepted, r) else
    var parsed := ParseFragment(bytes);
    if parsed.None? then (Rejected(DecodeError), r) else
    var (o, after) := Receive(r, maxLen, parsed.value.0);
    if o.Rejected? then (o, after) else ReceiveAll(after, maxLen, parsed.value.1)
  }

  // ----- What one fragment does -----

  /** An occupied slot found for a number in the window holds that number: the source's assertion. */
  lemma SlotNumber(r: Ring, seqNo: nat)
    requires r.Valid() && r.readSeq <= seqNo < r.readSeq + MAX_FLIGHT && r.Slot(seqNo).Some?
    ensures r.Slot(seqNo).value.seqNo == seqNo
  {
    assert r.InPlace(seqNo % MAX_FLIGHT, r.Slot(seqNo).value);
    SameSlot(r.readSeq, r.Slot(seqNo).value.seqNo, seqNo);
  }

  lemma ReceiveKeepsRing(r: Ring, maxLen: nat, f: Fragment)
    requires r.Valid() && |f.body| == f.header.fragLen
    ensures Receive(r, maxLen, f).1.Valid()
  {
    var (o, after) := Receive(r, maxLen, f);
    forall i | 0 <= i < MAX_FLIGHT && after.slots[i].Some?
      ensures after.InPlace(i, after.slots[i].value)
    {
      assert r.slots[i].Some? ==> r.InPlace(i, r.slots[i].value);
    }
  }

  /** Two numbers in the window share a slot only when they are equal. */
  lemma SameSlot(base: nat, a: nat, b: nat)
    requires base <= a < base + MAX_FLIGHT && base <= b < base + MAX_FLIGHT
    requires a % MAX_FLIGHT == b % MAX_FLIGHT
    ensures a == b
  {
  }

  lemma {:induction false} ReceiveAllKeepsRing(r: Ring, maxLen: nat, bytes: seq<Byte>)
    requires r.Valid()
    ensures ReceiveAll(r, maxLen, bytes).1.Valid()
    decreases |bytes|
  {
    if bytes != [] && ParseFragment(bytes).Some? {
      var (f, rest) := ParseFragment(bytes).value;
      ReceiveKeepsRing(r, maxLen, f);
      ReceiveAllKeepsRing(Receive(r, maxLen, f).1, maxLen, rest);
    }
  }

  lemma {:induction false} ReceiveAllKeepsFlag(r: Ring, maxLen: nat, bytes: seq<Byte>)
    requires |r.slots| == MAX_FLIGHT
    ensures ReceiveAll(r, maxLen, bytes).1.hasChangeCipherSpec == r.hasChangeCipherSpec
    decreases |bytes|
  {
    if bytes != [] && ParseFragment(bytes).Some? {
      var (f, rest) := ParseFragment(bytes).value;
      ReceiveAllKeepsFlag(Receive(r, maxLen, f).1, maxLen, rest);
    }
  }

  lemma {:induction false} ReceiveAllKeepsEra(r: Ring, maxLen: nat, bytes: seq<Byte>)
    requires |r.slots| == MAX_FLIGHT
    ensures ReceiveAll(r, maxLen, bytes).1.era == r.era
    decreases |bytes|
  {
    if bytes != [] && ParseFragment(bytes).Some? {
      var (f, rest) := ParseFragment(bytes).value;
      ReceiveAllKeepsEra(Receive(r, maxLen, f).1, maxLen, rest);
    }
  }

  /** Dropping the current message keeps the invariant, also when readSeq wraps: the ring is empty then. */
  lemma NextKeepsRing(r: Ring)
    requires r.Valid()
    ensures r.Next().Valid()
    ensures r.readSeq == TWO_16 - 1 ==> forall i :: 0 <= i < MAX_FLIGHT ==> r.Next().slots[i].None?
  {
    forall i | 0 <= i < MAX_FLIGHT && r.Next().slots[i].Some?
      ensures r.Next().InPlace(i, r.Next().slots[i].value) && r.readSeq != TWO_16 - 1
    {
      assert r.InPlace(i, r.slots[i].value);
    }
  }

  /** The exact fate of a well-sized fragment by its number, outside the encrypted epoch: the one at
      readSeq + 7 is an error, those further away on either side are dropped, and neither touches the ring. */
  lemma OutOfWindow(r: Ring, maxLen: nat, f: Fragment)
    requires r.Valid() && Screen(r, maxLen, f.header).Accepted?
    ensures Receive(r, maxLen, f).0 == Rejected(InternalError) <==> f.header.seqNo == r.readSeq + MAX_FLIGHT
    ensures f.header.seqNo < r.readSeq || f.header.seqNo >= r.readSeq + MAX_FLIGHT ==> Receive(r, maxLen, f).1 == r
  {
  }

  /** The bytes of a complete message stay as they are. */
  lemma CompleteStays(r: Ring, maxLen: nat, f: Fragment, i: nat)
    requires r.Valid() && i < MAX_FLIGHT && r.slots[i].Some? && r.slots[i].value.Complete()
    ensures Receive(r, maxLen, f).1.slots[i] == r.slots[i]
  {
  }

  /** No ChangeCipherSpec is pending, and no message is buffered but the one that was got and is still current. */
  ghost predicate NothingLeft(r: Ring)
    requires |r.slots| == MAX_FLIGHT
  {
    && !r.hasChangeCipherSpec
    && forall i :: 0 <= i < MAX_FLIGHT && r.slots[i].Some? ==> r.hasMessage && r.slots[i].value.seqNo == r.readSeq
  }

  // ----- Runs -----

  datatype RingEvent =
    | HandshakeRecord(bytes: seq<Byte>, maxLen: nat)
    | ChangeCipherSpecRecord
    | TakeChangeCipherSpec
    | GetMessage
    | NextMessage
    | ChangeReadCipher

  /** The source asserts that a message was got before it moves to the next. */
  predicate Allowed(r: Ring, e: RingEvent) {
    e.NextMessage? ==> r.hasMessage
  }

  function RingStep(r: Ring, e: RingEvent): (after: Ring)
    requires |r.slots| == MAX_FLIGHT
    ensures |after.slots| == MAX_FLIGHT
  {
    match e
    case HandshakeRecord(bytes, maxLen) => ReceiveAll(r, maxLen, bytes).1
    case ChangeCipherSpecRecord => r.(hasChangeCipherSpec := true)
    case TakeChangeCipherSpec => r.(hasChangeCipherSpec := false)
    case GetMessage => if r.CurrentComplete() then r.(hasMessage := true) else r
    case NextMessage => r.Next()
    case ChangeReadCipher => if r.HasUnprocessedData() then r else r.(era := r.era + 1)
  }

  lemma {:induction false} LeftIsExact(r: Ring)
    requires r.Valid()
    ensures r.HasUnprocessedData() <==> !NothingLeft(r)
  {
    forall i | 0 <= i < MAX_FLIGHT && r.slots[i].Some?
      ensures r.slots[i].value.seqNo == r.readSeq <==> i == r.readSeq % MAX_FLIGHT
    {
      SlotOfCurrent(r, i);
    }
  }

  /** The read cipher changes exactly when nothing is left over; then it changes too once the current message
      was dropped, and a ChangeCipherSpec that arrives stands in the way until it is taken. */
  lemma {:induction false} ChangeIsExact(r: Ring)
    requires r.Valid()
    ensures RingStep(r, ChangeReadCipher) == if NothingLeft(r) then r.(era := r.era + 1) else r
    ensures NothingLeft(r) && r.hasMessage ==> RingStep(RingStep(r, NextMessage), ChangeReadCipher).era == r.era + 1
    ensures NothingLeft(r) ==>
      && RingStep(RingStep(r, ChangeCipherSpecRecord), ChangeReadCipher).era == r.era
      && RingStep(RingStep(RingStep(r, ChangeCipherSpecRecord), TakeChangeCipherSpec), ChangeReadCipher).era == r.era + 1
  {
    LeftIsExact(r);
    forall i | 0 <= i < MAX_FLIGHT && r.slots[i].Some?
      ensures i == r.readSeq % MAX_FLIGHT || !NothingLeft(r)
    {
      SlotOfCurrent(r, i);
    }
  }

  lemma {:induction false} SlotOfCurrent(r: Ring, i: nat)
    requires r.Valid() && i < MAX_FLIGHT && r.slots[i].Some?
    ensures r.slots[i].value.seqNo == r.readSeq <==> i == r.readSeq % MAX_FLIGHT
  {
    assert r.InPlace(i, r.slots[i].value);
    if i == r.readSeq % MAX_FLIGHT {
      SlotNumber(r, r.readSeq);
    }
  }

  function RingRun(run: Run<RingEvent>): (r: Ring)
    ensures |r.slots| == MAX_FLIGHT
  {
    match run
    case Start => EMPTY_RING
    case Then(past, e) => RingStep(RingRun(past), e)
  }

  predicate AllowedRun(run: Run<RingEvent>) {
    run.Then? ==> AllowedRun(run.past) && Allowed(RingRun(run.past), run.last)
  }

  /** The ring invariant holds in every reachable state, whatever the peer sends. */
  lemma {:induction false} RingInvariant(run: Run<RingEvent>)
    requires AllowedRun(run)
    ensures RingRun(run).Valid()
  {
    if run.Then? {
      RingInvariant(run.past);
      var r := RingRun(run.past);
      match run.last
      case HandshakeRecord(bytes, maxLen) => ReceiveAllKeepsRing(r, maxLen, bytes);
      case NextMessage => NextKeepsRing(r);
      case _ =>
    }
  }

  // ----- No message mixes read eras -----

  /** Each buffered message comes from one era; an unfinished one from the current era. */
  ghost predicate ErasApart(r: Ring) {
    forall i :: 0 <= i < |r.slots| && r.slots[i].Some? ==> OneEra(r, r.slots[i].value)
  }

  ghost predicate OneEra(r: Ring, p: Partial) {
    p.AllFrom(r.era) || (p.Complete() && exists e :: p.AllFrom(e))
  }

  lemma {:induction false} ReceiveAllKeepsEras(r: Ring, maxLen: nat, bytes: seq<Byte>)
    requires |r.slots| == MAX_FLIGHT && ErasApart(r)
    ensures ErasApart(ReceiveAll(r, maxLen, bytes).1)
    decreases |bytes|
  {
    if bytes != [] && ParseFragment(bytes).Some? {
      var (f, rest) := ParseFragment(bytes).value;
      var after := Receive(r, maxLen, f).1;
      forall i | 0 <= i < MAX_FLIGHT && after.slots[i].Some?
        ensures OneEra(after, after.slots[i].value)
      {
        assert r.slots[i].Some? ==> OneEra(r, r.slots[i].value);
      }
      ReceiveAllKeepsEras(after, maxLen, rest);
    }
  }

  /** The messages handed up by a run, each when it is dropped. */
  function Delivered(run: Run<RingEvent>): seq<Partial> {
    match run
    case Start => []
    case Then(past, e) => Delivered(past) + HandedUp(RingRun(past), e)
  }

  function HandedUp(r: Ring, e: RingEvent): seq<Partial>
    requires |r.slots| == MAX_FLIGHT
  {
    if e.NextMessage? && r.CurrentComplete() then [r.Slot(r.readSeq).value] else []
  }

  /** No delivered message holds bytes from two read epochs, in any run whatever the peer sends. */
  lemma {:induction false} NoEpochMixing(run: Run<RingEvent>)
    requires AllowedRun(run)
    ensures ErasApart(RingRun(run))
    ensures forall p :: p in Delivered(run) ==> p.Complete() && exists e :: p.AllFrom(e)
  {
    if run.Then? {
      NoEpochMixing(run.past);
      RingInvariant(run.past);
      var r := RingRun(run.past);
      match run.last
      case HandshakeRecord(bytes, maxLen) => ReceiveAllKeepsEras(r, maxLen, bytes);
      case NextMessage =>
        assert OneEra(r, r.Slot(r.readSeq).value);
        forall i | 0 <= i < MAX_FLIGHT && r.Next().slots[i].Some?
          ensures OneEra(r.Next(), r.Next().slots[i].value)
        {
          assert OneEra(r, r.slots[i].value);
        }
      case ChangeReadCipher =>
        if !r.HasUnprocessedData() {
          forall i | 0 <= i < MAX_FLIGHT && r.slots[i].Some?
            ensures OneEra(RingRun(run), r.slots[i].value)
          {
            assert OneEra(r, r.slots[i].value);
          }
        }
      case _ =>
        forall i | 0 <= i < MAX_FLIGHT && r.slots[i].Some?
          ensures OneEra(RingRun(run), r.slots[i].value)
        {
          assert OneEra(r, r.slots[i].value);
        }
    }
  }
}
