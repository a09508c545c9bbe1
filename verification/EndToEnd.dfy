/** A flight from the sender's queue to the receiver's application: what the records of a flight carry
    is honest, and once all of them were processed every message of the flight is handed up. */
module EndToEnd {
  import opened Wrappers
  import opened Bytes
  import opened Fragments
  import opened Reassembly
  import opened RecordSealing
  import opened Sending
  import opened Transport

  /** How many handshake messages are among the first w entries of a flight. */
  function MessagesBefore(out: seq<Outgoing>, w: nat): (n: nat)
    requires w <= |out|
    ensures n <= w
  {
    if w == 0 then 0 else MessagesBefore(out, w - 1) + if out[w - 1].isCcs then 0 else 1
  }

  /** The entry holds message n whole. */
  ghost predicate IsMessage(ms: seq<Message>, n: nat, o: Outgoing) {
    && n < |ms| && n < TWO_16 && |ms[n].body| < 0x100_0000
    && o.message == Some(Whole(ms[n], n))
  }

  /** The flight holds the messages from number lo on, whole and in order. */
  ghost predicate FlightOf(ms: seq<Message>, lo: nat, out: seq<Outgoing>) {
    forall w :: 0 <= w < |out| && !out[w].isCcs ==> IsMessage(ms, lo + MessagesBefore(out, w), out[w])
  }

  lemma {:induction false} MessagesBeforeGrow(out: seq<Outgoing>, more: seq<Outgoing>, w: nat)
    requires w <= |out|
    ensures MessagesBefore(out + more, w) == MessagesBefore(out, w)
  {
    if w > 0 {
      MessagesBeforeGrow(out, more, w - 1);
    }
  }

  /** Queueing the next message keeps the flight in step, and so does queueing a ChangeCipherSpec. */
  lemma {:induction false} FlightGrows(ms: seq<Message>, lo: nat, out: seq<Outgoing>, o: Outgoing)
    requires FlightOf(ms, lo, out)
    requires o.isCcs || IsMessage(ms, lo + MessagesBefore(out, |out|), o)
    ensures FlightOf(ms, lo, out + [o])
  {
    var all := out + [o];
    forall w | 0 <= w < |all| && !all[w].isCcs
      ensures IsMessage(ms, lo + MessagesBefore(all, w), all[w])
    {
      MessagesBeforeGrow(out, [o], w);
      assert all[w] == if w < |out| then out[w] else o;
    }
  }

  /** What is queued for a finished message is the message. */
  lemma {:induction false} QueuedIsMessage(ms: seq<Message>, n: Uint16, epoch: Uint16)
    requires n < |ms| && |ms[n].body| < 0x100_0000
    ensures var data := FragmentBytes(Whole(ms[n], n));
      IsMessage(ms, n, Outgoing(data, ParseWhole(data), epoch, false))
  {
    ParseWholeMessage(ms[n], n);
  }

  lemma {:induction false} OneHonestFragment(ms: seq<Message>, f: Fragment)
    requires Honest(ms, f) && |f.body| == f.header.fragLen
    ensures HonestBytes(ms, FragmentBytes(f))
  {
    ParseWritten(f, []);
    assert FragmentBytes(f) + [] == FragmentBytes(f);
  }

  /** Every handshake record of a flight holds one honest fragment. */
  lemma {:induction false} RecordIsHonest(ms: seq<Message>, lo: nat, out: seq<Outgoing>, p: Piece, r: Record)
    requires FlightOf(ms, lo, out)
    requires p.BodyPiece? && Carries(out, p, r)
    ensures HonestBytes(ms, r.plaintext)
  {
    var n := lo + MessagesBefore(out, p.index);
    assert IsMessage(ms, n, out[p.index]);
    assert PieceFragment(out[p.index], p.off, p.len) == Slice(ms[n], n, p.off, p.len);
    OneHonestFragment(ms, PieceFragment(out[p.index], p.off, p.len));
  }

  /** A record arrived when the fragment in it was processed; a ChangeCipherSpec carries none. */
  ghost predicate Arrived(taken: seq<Fragment>, r: Record) {
    r.contentType == RecordLayer.RT_HANDSHAKE ==>
      exists f :: f in taken && |f.body| == f.header.fragLen && FragmentBytes(f) == r.plaintext
  }

  lemma {:induction false} SameFragment(f: Fragment, g: Fragment)
    requires |f.body| == f.header.fragLen && |g.body| == g.header.fragLen && FragmentBytes(f) == FragmentBytes(g)
    ensures f == g
  {
    ParseWritten(f, []);
    ParseWritten(g, []);
    assert FragmentBytes(f) + [] == FragmentBytes(g) + [];
  }

  lemma {:induction false} ArrivedPiece(out: seq<Outgoing>, p: Piece, r: Record, taken: seq<Fragment>)
    requires p.BodyPiece? && Carries(out, p, r) && Arrived(taken, r)
    ensures PieceFragment(out[p.index], p.off, p.len) in taken
  {
    var f :| f in taken && |f.body| == f.header.fragLen && FragmentBytes(f) == r.plaintext;
    SameFragment(f, PieceFragment(out[p.index], p.off, p.len));
  }

  lemma {:induction false} SomeHolder(ps: seq<Piece>, w: nat, k: nat) returns (i: nat)
    requires Holders(ps, w, k) > 0
    ensures i < |ps| && ps[i].BodyPiece? && ps[i].index == w && ps[i].off <= k < ps[i].off + ps[i].len
  {
    i := |ps| - 1;
    if Holders(ps[..i], w, k) > 0 {
      i := SomeHolder(ps[..i], w, k);
    }
  }

  lemma {:induction false} SomePiece(ps: seq<Piece>, w: nat) returns (i: nat)
    requires PiecesOf(ps, w) > 0
    ensures i < |ps| && ps[i].index == w
  {
    i := |ps| - 1;
    if PiecesOf(ps[..i], w) > 0 {
      i := SomePiece(ps[..i], w);
    }
  }

  lemma {:induction false} AnyPiece(out: seq<Outgoing>, ps: seq<Piece>, w: nat) returns (i: nat)
    requires Walk(out, Cursor(0, 0), ps) == Some(Cursor(|out|, 0))
    requires w < |out| && out[w].WellFormed()
    ensures i < |ps| && ps[i].BodyPiece? && ps[i].index == w
  {
    FlightTiled(out, ps, w, 0);
    if out[w].Body() == [] {
      i := SomePiece(ps, w);
      WalkKinds(out, Cursor(0, 0), ps, i);
    } else {
      i := SomeHolder(ps, w, 0);
    }
  }

  lemma {:induction false} WalkKinds(out: seq<Outgoing>, from: Cursor, ps: seq<Piece>, i: nat)
    requires Walk(out, from, ps).Some? && i < |ps|
    ensures ps[i].index < |out| && (ps[i].CcsPiece? <==> out[ps[i].index].isCcs)
  {
    if i < |ps| - 1 {
      WalkKinds(out, from, ps[..|ps| - 1], i);
    }
  }

  /** One complete sending of a flight, and everything in it arrived. */
  ghost predicate SentAndArrived(out: seq<Outgoing>, ps: seq<Piece>, rs: seq<Record>, taken: seq<Fragment>) {
    && Conveys(out, Cursor(0, 0), ps, rs, Cursor(|out|, 0))
    && forall i :: 0 <= i < |rs| ==> Arrived(taken, rs[i])
  }

  lemma {:induction false} ByteArrives(out: seq<Outgoing>, ps: seq<Piece>, rs: seq<Record>, taken: seq<Fragment>,
                                       w: nat, k: nat)
    requires SentAndArrived(out, ps, rs, taken) && w < |out| && out[w].WellFormed() && k < |out[w].Body()|
    ensures HasByte(taken, out[w].message.value.header.seqNo, k)
  {
    FlightTiled(out, ps, w, k);
    var i := SomeHolder(ps, w, k);
    ArrivedPiece(out, ps[i], rs[i], taken);
  }

  lemma {:induction false} FragmentArrives(out: seq<Outgoing>, ps: seq<Piece>, rs: seq<Record>, taken: seq<Fragment>,
                                           w: nat)
    requires SentAndArrived(out, ps, rs, taken) && w < |out| && out[w].WellFormed()
    ensures exists f :: f in taken && f.header.seqNo == out[w].message.value.header.seqNo
  {
    var i := AnyPiece(out, ps, w);
    ArrivedPiece(out, ps[i], rs[i], taken);
  }

  /** A message of a flight is covered when all the records of the flight arrived. */
  lemma {:induction false} EntryIsCovered(ms: seq<Message>, out: seq<Outgoing>, ps: seq<Piece>, rs: seq<Record>,
                                          taken: seq<Fragment>, w: nat, n: nat)
    requires SentAndArrived(out, ps, rs, taken)
    requires w < |out| && !out[w].isCcs && IsMessage(ms, n, out[w])
    ensures Covered(ms, taken, n)
  {
    FragmentArrives(out, ps, rs, taken, w);
    forall k: nat | k < |ms[n].body|
      ensures HasByte(taken, n, k)
    {
      ByteArrives(out, ps, rs, taken, w, k);
    }
  }

  lemma {:induction false} EntryNumbered(out: seq<Outgoing>, w: nat, n: nat) returns (e: nat)
    requires w <= |out| && n < MessagesBefore(out, w)
    ensures e < w && !out[e].isCcs && MessagesBefore(out, e) == n
  {
    e := w - 1;
    if out[w - 1].isCcs || n < MessagesBefore(out, w - 1) {
      e := EntryNumbered(out, w - 1, n);
    }
  }

  lemma {:induction false} FlightIsCovered(ms: seq<Message>, lo: nat, out: seq<Outgoing>, ps: seq<Piece>,
                                           rs: seq<Record>, taken: seq<Fragment>, n: nat)
    requires FlightOf(ms, lo, out) && SentAndArrived(out, ps, rs, taken)
    requires lo <= n < lo + MessagesBefore(out, |out|)
    ensures n < |ms| && Covered(ms, taken, n)
  {
    var w := EntryNumbered(out, |out|, n - lo);
    EntryIsCovered(ms, out, ps, rs, taken, w, n);
  }

  /** End to end: when every record of one complete sending of a flight was processed, in whatever
      order, split, mixed and repeated with other honest fragments, the receiver hands up every message
      of the flight, in order and byte for byte as the sender would have serialized it in one piece. */
  lemma {:induction false} FlightIsDelivered(ms: seq<Message>, lo: nat, out: seq<Outgoing>, ps: seq<Piece>,
                                             rs: seq<Record>, run: Run<RingEvent>, n: nat, drained: Run<RingEvent>)
    requires Sendable(ms) && |ms| < TWO_16 && FlightOf(ms, lo, out)
    requires HonestRun(ms, run) && Reassembly.AllowedRun(run) && SentAndArrived(out, ps, rs, AllTaken(run))
    requires lo <= RingRun(run).readSeq && RingRun(run).readSeq + n == lo + MessagesBefore(out, |out|)
    requires drained == Drain(run, n)
    ensures Reassembly.AllowedRun(drained) && RingRun(drained).readSeq == lo + MessagesBefore(out, |out|)
    ensures |Delivered(drained)| == lo + MessagesBefore(out, |out|) && InOrder(ms, Delivered(drained))
  {
    var first, end := RingRun(run).readSeq, lo + MessagesBefore(out, |out|);
    forall i | first <= i < end
      ensures i < |ms| && Covered(ms, AllTaken(run), i)
    {
      FlightIsCovered(ms, lo, out, ps, rs, AllTaken(run), i);
    }
    InOrderDelivery(ms, run);
    if first < end {
      FlightIsCovered(ms, lo, out, ps, rs, AllTaken(run), end - 1);
    }
    CoveredAreDelivered(ms, run, n);
  }
}
