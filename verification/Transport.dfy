/** Sender and receiver put together over a network that loses, reorders, duplicates and overlaps
    fragments: sections 4.2.2 to 4.2.4 and 4.2.6 of RFC 6347. */
module Transport {
  import opened Wrappers
  import opened Bytes
  import opened Fragments
  import opened Reassembly
  import Sending

  /** The messages of one sender in order; message i carries number i. */
  predicate Sendable(ms: seq<Message>) {
    forall i :: 0 <= i < |ms| ==> |ms[i].body| < 0x100_0000
  }

  /** A fragment the sender could have cut, wherever it cut it. */
  predicate Honest(ms: seq<Message>, f: Fragment) {
    var h := f.header;
    && h.seqNo < |ms|
    && h.typ == ms[h.seqNo].typ && h.msgLen == |ms[h.seqNo].body|
    && h.fragOff + h.fragLen <= h.msgLen
    && f.body == ms[h.seqNo].body[h.fragOff..h.fragOff + h.fragLen]
  }

  predicate HonestBytes(ms: seq<Message>, bytes: seq<Byte>)
    decreases |bytes|
  {
    bytes == [] ||
    (ParseFragment(bytes).Some? && Honest(ms, ParseFragment(bytes).value.0)
      && HonestBytes(ms, ParseFragment(bytes).value.1))
  }

  predicate HonestRun(ms: seq<Message>, run: Run<RingEvent>) {
    run.Then? ==> HonestRun(ms, run.past) && (run.last.HandshakeRecord? ==> HonestBytes(ms, run.last.bytes))
  }

  /** The message as it would have been sent in one piece, header included. */
  function Serialized(ms: seq<Message>, i: nat): seq<Byte>
    requires Sendable(ms) && i < |ms| <= TWO_16
  {
    FragmentBytes(Whole(ms[i], i))
  }

  // ----- Safety -----

  /** What is buffered agrees with the message it belongs to. */
  ghost predicate Matches(ms: seq<Message>, p: Partial) {
    && p.seqNo < |ms| && p.typ == ms[p.seqNo].typ && p.msgLen == |ms[p.seqNo].body|
    && forall k :: k in p.got ==> k < p.msgLen && p.got[k].byte == ms[p.seqNo].body[k]
  }

  ghost predicate AllMatch(ms: seq<Message>, r: Ring) {
    forall i :: 0 <= i < |r.slots| && r.slots[i].Some? ==> Matches(ms, r.slots[i].value)
  }

  lemma ReceiveMatches(ms: seq<Message>, r: Ring, maxLen: nat, f: Fragment)
    requires r.Valid() && AllMatch(ms, r) && Honest(ms, f)
    ensures AllMatch(ms, Receive(r, maxLen, f).1)
  {
    var h, after := f.header, Receive(r, maxLen, f).1;
    if r.readSeq <= h.seqNo < r.readSeq + MAX_FLIGHT && r.Slot(h.seqNo).Some? {
      SlotNumber(r, h.seqNo);
    }
    forall i | 0 <= i < MAX_FLIGHT && after.slots[i].Some?
      ensures Matches(ms, after.slots[i].value)
    {
      assert r.slots[i].Some? ==> Matches(ms, r.slots[i].value);
    }
  }

  /** An honest fragment is refused exactly when its message is longer than the receiver allows, when it
      is not for the current message in the first encrypted epoch, or when it is for number readSeq + 7. */
  lemma HonestFragmentFate(ms: seq<Message>, r: Ring, maxLen: nat, f: Fragment)
    requires r.Valid() && AllMatch(ms, r) && Honest(ms, f)
    ensures Receive(r, maxLen, f).0.Accepted? <==>
      && |ms[f.header.seqNo].body| <= maxLen
      && (r.era % TWO_16 == 1 ==> f.header.seqNo == r.readSeq)
      && f.header.seqNo != r.readSeq + MAX_FLIGHT
  {
    var h := f.header;
    if r.readSeq <= h.seqNo < r.readSeq + MAX_FLIGHT && r.Slot(h.seqNo).Some? {
      SlotNumber(r, h.seqNo);
      assert Matches(ms, r.Slot(h.seqNo).value);
    }
  }

  lemma {:induction false} ReceiveAllMatches(ms: seq<Message>, r: Ring, maxLen: nat, bytes: seq<Byte>)
    requires r.Valid() && AllMatch(ms, r) && HonestBytes(ms, bytes)
    ensures AllMatch(ms, ReceiveAll(r, maxLen, bytes).1)
    ensures ReceiveAll(r, maxLen, bytes).1.readSeq == r.readSeq
    decreases |bytes|
  {
    if bytes != [] {
      var (f, rest) := ParseFragment(bytes).value;
      ReceiveMatches(ms, r, maxLen, f);
      ReceiveKeepsRing(r, maxLen, f);
      ReceiveAllMatches(ms, Receive(r, maxLen, f).1, maxLen, rest);
    }
  }

  /** A complete message that agrees is the message. */
  lemma CompleteIsWhole(ms: seq<Message>, p: Partial)
    requires Sendable(ms) && |ms| <= TWO_16 && Matches(ms, p) && p.Complete()
    ensures p.Body() == ms[p.seqNo].body
    ensures p.Raw() == Serialized(ms, p.seqNo)
  {
  }

  lemma NextMatches(ms: seq<Message>, r: Ring)
    requires r.Valid() && AllMatch(ms, r)
    ensures AllMatch(ms, r.Next())
  {
    forall i | 0 <= i < MAX_FLIGHT && r.Next().slots[i].Some?
      ensures Matches(ms, r.Next().slots[i].value)
    {
      assert r.slots[i].Some?;
    }
  }

  lemma CurrentIsNext(ms: seq<Message>, r: Ring)
    requires Sendable(ms) && |ms| < TWO_16 && r.Valid() && AllMatch(ms, r) && r.CurrentComplete()
    ensures r.readSeq < |ms| && r.Slot(r.readSeq).value.Raw() == Serialized(ms, r.readSeq)
    ensures r.Next().readSeq == r.readSeq + 1
  {
    assert r.slots[r.readSeq % MAX_FLIGHT].Some?;
    SlotNumber(r, r.readSeq);
    CompleteIsWhole(ms, r.Slot(r.readSeq).value);
  }

  predicate InOrder(ms: seq<Message>, delivered: seq<Partial>)
    requires Sendable(ms) && |ms| < TWO_16
  {
    |delivered| <= |ms| &&
    forall i :: 0 <= i < |delivered| ==> delivered[i].Complete() && delivered[i].Raw() == Serialized(ms, i)
  }

  ghost predicate Faithful(ms: seq<Message>, r: Ring, delivered: seq<Partial>)
    requires Sendable(ms) && |ms| < TWO_16
  {
    r.Valid() && AllMatch(ms, r) && r.readSeq == |delivered| && InOrder(ms, delivered)
  }

  lemma StepIsFaithful(ms: seq<Message>, r: Ring, delivered: seq<Partial>, e: RingEvent)
    requires Sendable(ms) && |ms| < TWO_16 && Faithful(ms, r, delivered) && Allowed(r, e) && RingStep(r, e).Valid()
    requires e.HandshakeRecord? ==> HonestBytes(ms, e.bytes)
    ensures Faithful(ms, RingStep(r, e), delivered + HandedUp(r, e))
  {
    match e
    case HandshakeRecord(bytes, maxLen) => ReceiveAllMatches(ms, r, maxLen, bytes);
    case NextMessage =>
      CurrentIsNext(ms, r);
      NextMatches(ms, r);
    case _ =>
  }

  /** Messages are handed up in order, each at most once, and with exactly the bytes of the sender's
      unfragmented serialization, whatever the network did to honest fragments. */
  lemma {:induction false} InOrderDelivery(ms: seq<Message>, run: Run<RingEvent>)
    requires Sendable(ms) && |ms| < TWO_16 && HonestRun(ms, run) && AllowedRun(run)
    ensures Faithful(ms, RingRun(run), Delivered(run))
  {
    RingInvariant(run);
    if run.Then? {
      InOrderDelivery(ms, run.past);
      StepIsFaithful(ms, RingRun(run.past), Delivered(run.past), run.last);
    }
  }

  // ----- The bound on the number of messages is sharp -----

  /** Nothing is buffered, and the next message expected is number i. */
  predicate Waiting(r: Ring, i: nat) {
    r == EMPTY_RING.(readSeq := r.readSeq) && r.readSeq == i
  }

  /** Message i arrives whole and is consumed. */
  function WholeMessage(ms: seq<Message>, i: nat, run: Run<RingEvent>, maxLen: nat): Run<RingEvent>
    requires Sendable(ms) && i < |ms| <= TWO_16
  {
    Then(Then(Then(run, HandshakeRecord(Serialized(ms, i), maxLen)), GetMessage), NextMessage)
  }

  lemma ReceiveWhole(ms: seq<Message>, i: nat, r: Ring, maxLen: nat)
    requires Sendable(ms) && i < |ms| <= TWO_16 && Waiting(r, i) && maxLen >= 0x100_0000
    ensures HonestBytes(ms, Serialized(ms, i))
    ensures var after := ReceiveAll(r, maxLen, Serialized(ms, i)).1;
      && after.CurrentComplete() && !after.hasMessage
      && Waiting(after.Next(), if i == TWO_16 - 1 then 0 else i + 1)
  {
    var f := Whole(ms[i], i);
    ParseWritten(f, []);
    assert FragmentBytes(f) + [] == Serialized(ms, i);
    var received := Receive(r, maxLen, f).1;
    assert ReceiveAll(received, maxLen, []) == (Accepted, received);
    var p := Partial(f.header.typ, i, f.header.msgLen, map[]).Absorb(0, f.body, 0);
    assert received.slots == r.slots[i % MAX_FLIGHT := Some(p)];
    assert r.slots[i % MAX_FLIGHT := Some(p)][i % MAX_FLIGHT := None] == r.slots;
  }

  lemma WholeMessageIsDelivered(ms: seq<Message>, i: nat, run: Run<RingEvent>, maxLen: nat)
    requires Sendable(ms) && i < |ms| <= TWO_16 && HonestRun(ms, run) && AllowedRun(run)
    requires Waiting(RingRun(run), i) && maxLen >= 0x100_0000
    ensures HonestRun(ms, WholeMessage(ms, i, run, maxLen)) && AllowedRun(WholeMessage(ms, i, run, maxLen))
    ensures Waiting(RingRun(WholeMessage(ms, i, run, maxLen)), if i == TWO_16 - 1 then 0 else i + 1)
    ensures |Delivered(WholeMessage(ms, i, run, maxLen))| == |Delivered(run)| + 1
  {
    ReceiveWhole(ms, i, RingRun(run), maxLen);
    var arrived := Then(run, HandshakeRecord(Serialized(ms, i), maxLen));
    var got := Then(arrived, GetMessage);
    assert HonestRun(ms, arrived) && AllowedRun(arrived) && Delivered(arrived) == Delivered(run);
    assert RingRun(got) == RingRun(arrived).(hasMessage := true);
    assert RingRun(got).Next() == RingRun(arrived).Next();
    assert HonestRun(ms, got) && AllowedRun(got) && Delivered(got) == Delivered(arrived);
  }

  /** Each of the first n messages arrives whole and is consumed. */
  function LockStep(ms: seq<Message>, n: nat, maxLen: nat): Run<RingEvent>
    requires Sendable(ms) && n <= |ms| <= TWO_16
  {
    if n == 0 then Start else WholeMessage(ms, n - 1, LockStep(ms, n - 1, maxLen), maxLen)
  }

  lemma {:induction false} LockStepDelivers(ms: seq<Message>, n: nat, maxLen: nat)
    requires Sendable(ms) && n <= |ms| <= TWO_16 && maxLen >= 0x100_0000
    ensures HonestRun(ms, LockStep(ms, n, maxLen)) && AllowedRun(LockStep(ms, n, maxLen))
    ensures Waiting(RingRun(LockStep(ms, n, maxLen)), if n == TWO_16 then 0 else n)
    ensures |Delivered(LockStep(ms, n, maxLen))| == n
  {
    if n > 0 {
      LockStepDelivers(ms, n - 1, maxLen);
      WholeMessageIsDelivered(ms, n - 1, LockStep(ms, n - 1, maxLen), maxLen);
    }
  }

  /** With 2^16 messages the 16-bit number comes round, and the first message is handed up again. */
  lemma RedeliveryAfterWrap(ms: seq<Message>, maxLen: nat) returns (run: Run<RingEvent>)
    requires Sendable(ms) && |ms| == TWO_16 && maxLen >= 0x100_0000
    ensures HonestRun(ms, run) && AllowedRun(run) && |Delivered(run)| == |ms| + 1
  {
    var n := |ms|;
    LockStepDelivers(ms, n, maxLen);
    run := WholeMessage(ms, 0, LockStep(ms, n, maxLen), maxLen);
    WholeMessageIsDelivered(ms, 0, LockStep(ms, n, maxLen), maxLen);
  }

  // ----- Progress -----

  /** The fragments of a record that are processed: up to the first bad one, without those dropped as
      too far in the future. */
  function Taken(r: Ring, maxLen: nat, bytes: seq<Byte>): seq<Fragment>
    requires |r.slots| == MAX_FLIGHT
    decreases |bytes|
  {
    if bytes == [] || ParseFragment(bytes).None? then [] else
    var (f, rest) := ParseFragment(bytes).value;
    var (o, after) := Receive(r, maxLen, f);
    if o.Rejected? then []
    else (if f.header.seqNo > r.readSeq + MAX_FLIGHT then [] else [f]) + Taken(after, maxLen, rest)
  }

  function AllTaken(run: Run<RingEvent>): seq<Fragment> {
    match run
    case Start => []
    case Then(past, e) =>
      AllTaken(past) + if e.HandshakeRecord? then Taken(RingRun(past), e.maxLen, e.bytes) else []
  }

  /** A processed fragment is behind the receiver, or its bytes are in the ring. */
  ghost predicate Kept(r: Ring, f: Fragment)
    requires |r.slots| == MAX_FLIGHT
  {
    f.header.seqNo < r.readSeq || Holds(r, f)
  }

  ghost predicate Holds(r: Ring, f: Fragment)
    requires |r.slots| == MAX_FLIGHT
  {
    && r.Slot(f.header.seqNo).Some? && r.Slot(f.header.seqNo).value.seqNo == f.header.seqNo
    && forall k: nat :: f.header.fragOff <= k < f.header.fragOff + |f.body| ==> k in r.Slot(f.header.seqNo).value.got
  }

  lemma ReceiveHolds(ms: seq<Message>, r: Ring, maxLen: nat, f: Fragment)
    requires r.Valid() && AllMatch(ms, r) && Honest(ms, f) && Receive(r, maxLen, f).0.Accepted?
    ensures f.header.seqNo > r.readSeq + MAX_FLIGHT || Kept(Receive(r, maxLen, f).1, f)
  {
    var h := f.header;
    if r.readSeq <= h.seqNo < r.readSeq + MAX_FLIGHT && r.Slot(h.seqNo).Some? {
      SlotNumber(r, h.seqNo);
      assert Matches(ms, r.Slot(h.seqNo).value);
    }
  }

  lemma ReceiveKeeps(r: Ring, maxLen: nat, f: Fragment, g: Fragment)
    requires r.Valid() && Kept(r, g)
    ensures Kept(Receive(r, maxLen, f).1, g)
  {
    if Holds(r, g) && r.readSeq <= f.header.seqNo < r.readSeq + MAX_FLIGHT {
      assert r.slots[g.header.seqNo % MAX_FLIGHT].Some?;
    }
  }

  lemma {:induction false} ReceiveAllKeeps(ms: seq<Message>, r: Ring, maxLen: nat, bytes: seq<Byte>, g: Fragment)
    requires r.Valid() && AllMatch(ms, r) && HonestBytes(ms, bytes)
    requires Kept(r, g) || g in Taken(r, maxLen, bytes)
    ensures Kept(ReceiveAll(r, maxLen, bytes).1, g)
    decreases |bytes|
  {
    if bytes != [] {
      var (f, rest) := ParseFragment(bytes).value;
      var (o, after) := Receive(r, maxLen, f);
      ReceiveMatches(ms, r, maxLen, f);
      ReceiveKeepsRing(r, maxLen, f);
      if Kept(r, g) {
        ReceiveKeeps(r, maxLen, f, g);
      } else if g == f {
        ReceiveHolds(ms, r, maxLen, f);
      }
      if o.Accepted? {
        ReceiveAllKeeps(ms, after, maxLen, rest, g);
      }
    }
  }

  lemma NextKeeps(r: Ring, g: Fragment)
    requires r.Valid() && Kept(r, g) && r.Next().readSeq == r.readSeq + 1
    ensures Kept(r.Next(), g)
  {
    if Holds(r, g) && g.header.seqNo != r.readSeq {
      assert r.InPlace(g.header.seqNo % MAX_FLIGHT, r.Slot(g.header.seqNo).value);
    }
  }

  /** No processed fragment is ever lost. */
  lemma {:induction false} TakenIsKept(ms: seq<Message>, run: Run<RingEvent>, g: Fragment)
    requires Sendable(ms) && |ms| < TWO_16 && HonestRun(ms, run) && AllowedRun(run)
    requires g in AllTaken(run)
    ensures Kept(RingRun(run), g)
  {
    var past, e := run.past, run.last;
    InOrderDelivery(ms, past);
    if g in AllTaken(past) {
      TakenIsKept(ms, past, g);
    }
    match e
    case HandshakeRecord(bytes, maxLen) => ReceiveAllKeeps(ms, RingRun(past), maxLen, bytes, g);
    case NextMessage =>
      CurrentIsNext(ms, RingRun(past));
      NextKeeps(RingRun(past), g);
    case _ =>
  }

  /** The fragments processed cover message i: one at least, and every byte of it. */
  ghost predicate Covered(ms: seq<Message>, taken: seq<Fragment>, i: nat)
    requires i < |ms|
  {
    && (exists f :: f in taken && f.header.seqNo == i)
    && forall k: nat :: k < |ms[i].body| ==> HasByte(taken, i, k)
  }

  ghost predicate HasByte(taken: seq<Fragment>, i: nat, k: nat) {
    exists f :: f in taken && f.header.seqNo == i && f.header.fragOff <= k < f.header.fragOff + |f.body|
  }

  /** Once the fragments that arrived cover the next message, it can be handed up. */
  lemma CoveredIsDeliverable(ms: seq<Message>, run: Run<RingEvent>)
    requires Sendable(ms) && |ms| < TWO_16 && HonestRun(ms, run) && AllowedRun(run)
    requires RingRun(run).readSeq < |ms| && Covered(ms, AllTaken(run), RingRun(run).readSeq)
    ensures RingRun(run).CurrentComplete()
  {
    InOrderDelivery(ms, run);
    var r, i := RingRun(run), RingRun(run).readSeq;
    var f :| f in AllTaken(run) && f.header.seqNo == i;
    TakenIsKept(ms, run, f);
    var p := r.Slot(i).value;
    assert Matches(ms, p);
    forall k: nat | k < p.msgLen
      ensures k in p.got
    {
      assert HasByte(AllTaken(run), i, k);
      var g :| g in AllTaken(run) && g.header.seqNo == i && g.header.fragOff <= k < g.header.fragOff + |g.body|;
      TakenIsKept(ms, run, g);
    }
  }

  /** Hands up and drops n messages. */
  function Drain(run: Run<RingEvent>, n: nat): Run<RingEvent> {
    if n == 0 then run else Then(Then(Drain(run, n - 1), GetMessage), NextMessage)
  }

  lemma {:induction false} DrainTakesNothing(run: Run<RingEvent>, n: nat)
    ensures AllTaken(Drain(run, n)) == AllTaken(run)
  {
    if n > 0 {
      DrainTakesNothing(run, n - 1);
    }
  }

  /** Handing up the current message of a run, and dropping it. */
  lemma {:induction false} OneIsDrained(ms: seq<Message>, run: Run<RingEvent>)
    requires Sendable(ms) && |ms| < TWO_16 && HonestRun(ms, run) && AllowedRun(run)
    requires RingRun(run).readSeq < |ms| && Covered(ms, AllTaken(run), RingRun(run).readSeq)
    ensures var after := Then(Then(run, GetMessage), NextMessage);
      HonestRun(ms, after) && AllowedRun(after) && RingRun(after).readSeq == RingRun(run).readSeq + 1
  {
    CoveredIsDeliverable(ms, run);
    InOrderDelivery(ms, run);
    CurrentIsNext(ms, RingRun(run));
  }

  /** When the next n messages are covered, draining hands all of them up, in order. */
  lemma {:induction false} CoveredAreDelivered(ms: seq<Message>, run: Run<RingEvent>, n: nat)
    requires Sendable(ms) && |ms| < TWO_16 && HonestRun(ms, run) && AllowedRun(run)
    requires RingRun(run).readSeq + n <= |ms|
    requires forall i :: RingRun(run).readSeq <= i < RingRun(run).readSeq + n ==> Covered(ms, AllTaken(run), i)
    ensures HonestRun(ms, Drain(run, n)) && AllowedRun(Drain(run, n))
    ensures RingRun(Drain(run, n)).readSeq == RingRun(run).readSeq + n
    ensures |Delivered(Drain(run, n))| == RingRun(run).readSeq + n && InOrder(ms, Delivered(Drain(run, n)))
  {
    if n > 0 {
      CoveredAreDelivered(ms, run, n - 1);
      DrainTakesNothing(run, n - 1);
      OneIsDrained(ms, Drain(run, n - 1));
    }
    InOrderDelivery(ms, Drain(run, n));
  }
}
