/** Sending handshake flights: fragmenting under the MTU, packing datagrams, rewinding and resending. */
module Sending {
  import opened Wrappers
  import opened Bytes
  import opened Fragments
  import opened RecordLayer
  import opened RecordSealing

  const MAX_FLIGHT: nat := 7
  const MIN_MTU: nat := 256 - 28

  /** A message kept as a single fragment; None when the bytes are anything else. */
  function ParseWhole(data: seq<Byte>): (r: Option<Fragment>)
    ensures r.Some? ==> |r.value.body| == r.value.header.msgLen
  {
    var parsed := ParseFragment(data);
    if parsed.None? then None else
    var (f, rest) := parsed.value;
    if rest == [] && f.header.fragOff == 0 && f.header.fragLen == f.header.msgLen then Some(f) else None
  }

  lemma ParseWholeMessage(m: Message, seqNo: Uint16)
    requires |m.body| < 0x100_0000
    ensures ParseWhole(FragmentBytes(Whole(m, seqNo))) == Some(Whole(m, seqNo))
  {
    ParseWritten(Whole(m, seqNo), []);
    assert FragmentBytes(Whole(m, seqNo)) + [] == FragmentBytes(Whole(m, seqNo));
  }

  /** One entry of the outgoing flight: a handshake message or a ChangeCipherSpec. `message` is what
      the bytes parse to; the source parses them again before each seal. */
  datatype Outgoing = Outgoing(data: seq<Byte>, message: Option<Fragment>, epoch: Uint16, isCcs: bool) {
    predicate WellFormed() {
      !isCcs && message.Some? && |Body()| < 0x100_0000
    }

    function Body(): seq<Byte>
      requires message.Some?
    {
      message.value.body
    }
  }

  // ----- Where a flight stands, and the pieces that move it on -----

  datatype Cursor = Cursor(written: nat, offset: nat)

  /** What one sealed record carries: a ChangeCipherSpec, or a stretch of a message body. */
  datatype Piece =
    | CcsPiece(index: nat)
    | BodyPiece(index: nat, off: nat, len: nat)

  /** The cursor after a piece; None when the piece is not the next one. A body stretch is only empty
      when it ends its message. */
  function After(out: seq<Outgoing>, c: Cursor, p: Piece): Option<Cursor> {
    if c.written >= |out| || p.index != c.written then None else
    var o := out[c.written];
    match p
    case CcsPiece(_) =>
      if o.isCcs then Some(Cursor(c.written + 1, c.offset)) else None
    case BodyPiece(_, off, len) =>
      if !o.WellFormed() || off != c.offset || off + len > |o.Body()| then None
      else if off + len == |o.Body()| then Some(Cursor(c.written + 1, 0))
      else if len > 0 then Some(Cursor(c.written, off + len))
      else None
  }

  function Walk(out: seq<Outgoing>, c: Cursor, ps: seq<Piece>): Option<Cursor> {
    if ps == [] then Some(c) else
    match Walk(out, c, ps[..|ps| - 1])
    case None => None
    case Some(mid) => After(out, mid, ps[|ps| - 1])
  }

  lemma WalkOne(out: seq<Outgoing>, c: Cursor, ps: seq<Piece>, p: Piece)
    ensures Walk(out, c, ps + [p]) ==
      if Walk(out, c, ps).None? then None else After(out, Walk(out, c, ps).value, p)
  {
    assert (ps + [p])[..|ps|] == ps;
  }

  lemma {:induction false} WalkOn(out: seq<Outgoing>, c: Cursor, ps: seq<Piece>, qs: seq<Piece>)
    requires Walk(out, c, ps).Some?
    ensures Walk(out, c, ps + qs) == Walk(out, Walk(out, c, ps).value, qs)
  {
    if qs == [] {
      assert ps + qs == ps;
    } else {
      assert ps + qs == (ps + qs[..|qs| - 1]) + [qs[|qs| - 1]];
      WalkOne(out, c, ps + qs[..|qs| - 1], qs[|qs| - 1]);
      WalkOn(out, c, ps, qs[..|qs| - 1]);
    }
  }

  /** The record carries exactly that piece of the flight, in the epoch the entry was queued under. */
  predicate Carries(out: seq<Outgoing>, p: Piece, r: Record) {
    && p.index < |out| && r.Valid() && Epoch(r.sequence) == out[p.index].epoch
    && match p
    case CcsPiece(i) => r.contentType == RT_CHANGE_CIPHER_SPEC && r.plaintext == [1]
    case BodyPiece(i, off, len) =>
      && out[i].WellFormed() && off + len <= |out[i].Body()|
      && r.contentType == RT_HANDSHAKE
      && r.plaintext == FragmentBytes(PieceFragment(out[i], off, len))
  }

  function PieceFragment(o: Outgoing, off: nat, len: nat): Fragment
    requires o.WellFormed() && off + len <= |o.Body()|
  {
    Fragment(o.message.value.header.(fragOff := off, fragLen := len), o.Body()[off..off + len])
  }

  ghost predicate AllCarried(out: seq<Outgoing>, ps: seq<Piece>, rs: seq<Record>) {
    |ps| == |rs| && forall i :: 0 <= i < |ps| ==> Carries(out, ps[i], rs[i])
  }

  /** The records carry the pieces that lead from one cursor to another. */
  ghost predicate Conveys(out: seq<Outgoing>, from: Cursor, ps: seq<Piece>, rs: seq<Record>, to: Cursor) {
    Walk(out, from, ps) == Some(to) && AllCarried(out, ps, rs)
  }

  /** The same, with the length of the records. */
  ghost predicate Packed(out: seq<Outgoing>, from: Cursor, ps: seq<Piece>, rs: seq<Record>, to: Cursor, n: nat) {
    Conveys(out, from, ps, rs, to) && TotalLength(rs) == n
  }

  lemma {:induction false} PackedOne(out: seq<Outgoing>, from: Cursor, ps: seq<Piece>, rs: seq<Record>, mid: Cursor,
                                     n: nat, p: Piece, r: Record, to: Cursor)
    requires Packed(out, from, ps, rs, mid, n) && After(out, mid, p) == Some(to) && Carries(out, p, r)
    ensures Packed(out, from, ps + [p], rs + [r], to, n + r.WireLength())
  {
    WalkOne(out, from, ps, p);
    assert (rs + [r])[..|rs|] == rs;
  }

  /** Stands for Packed where a datagram is filled, which need not look inside. */
  type Packing = (seq<Outgoing>, Cursor, seq<Piece>, seq<Record>, Cursor, nat) -> bool

  ghost predicate Packs(pack: Packing) {
    forall out, from, ps, rs, to, n {:trigger Packed(out, from, ps, rs, to, n)} ::
      pack(out, from, ps, rs, to, n) == Packed(out, from, ps, rs, to, n)
  }

  lemma {:induction false} PackNone(pack: Packing, out: seq<Outgoing>, from: Cursor)
    requires Packs(pack)
    ensures pack(out, from, [], [], from, 0)
  {
    assert Packed(out, from, [], [], from, 0);
  }

  lemma {:induction false} PackOne(pack: Packing, out: seq<Outgoing>, from: Cursor, ps: seq<Piece>, rs: seq<Record>,
                                   mid: Cursor, n: nat, p: Piece, r: Record, to: Cursor)
    requires Packs(pack) && pack(out, from, ps, rs, mid, n)
    requires After(out, mid, p) == Some(to) && Carries(out, p, r)
    ensures pack(out, from, ps + [p], rs + [r], to, n + r.WireLength())
  {
    assert Packed(out, from, ps, rs, mid, n);
    PackedOne(out, from, ps, rs, mid, n, p, r, to);
    assert Packed(out, from, ps + [p], rs + [r], to, n + r.WireLength());
  }

  // ----- A walk tiles the flight -----

  /** How many pieces hold byte k of message w. */
  function Holders(ps: seq<Piece>, w: nat, k: nat): nat {
    if ps == [] then 0 else
    var p := ps[|ps| - 1];
    Holders(ps[..|ps| - 1], w, k) + if p.BodyPiece? && p.index == w && p.off <= k < p.off + p.len then 1 else 0
  }

  /** How many pieces belong to entry w. */
  function PiecesOf(ps: seq<Piece>, w: nat): nat {
    if ps == [] then 0 else PiecesOf(ps[..|ps| - 1], w) + if ps[|ps| - 1].index == w then 1 else 0
  }

  predicate Sound(out: seq<Outgoing>, c: Cursor) {
    && c.written <= |out|
    && (c.offset > 0 ==> c.written < |out| && out[c.written].WellFormed() && c.offset < |out[c.written].Body()|)
  }

  /** Byte k of message w lies from one cursor, inclusive, to another, exclusive. */
  predicate Between(from: Cursor, w: nat, k: nat, to: Cursor) {
    && (from.written < w || (from.written == w && from.offset <= k))
    && (w < to.written || (w == to.written && k < to.offset))
  }

  /** The pieces of a walk are disjoint and cover exactly what lies between its ends. */
  lemma {:induction false} WalkTiles(out: seq<Outgoing>, from: Cursor, ps: seq<Piece>, to: Cursor, w: nat, k: nat)
    requires Walk(out, from, ps) == Some(to) && Sound(out, from)
    requires w < |out| && out[w].WellFormed() && k < |out[w].Body()|
    ensures Sound(out, to)
    ensures Holders(ps, w, k) == if Between(from, w, k, to) then 1 else 0
  {
    if ps != [] {
      var mid := Walk(out, from, ps[..|ps| - 1]).value;
      WalkTiles(out, from, ps[..|ps| - 1], mid, w, k);
      WalkAdvances(out, from, ps[..|ps| - 1], mid);
    }
  }

  /** An entry without bytes, a ChangeCipherSpec or an empty message, goes out as exactly one piece. */
  lemma {:induction false} WalkSendsEmpty(out: seq<Outgoing>, from: Cursor, ps: seq<Piece>, to: Cursor, w: nat)
    requires Walk(out, from, ps) == Some(to) && Sound(out, from)
    requires w < |out| && (out[w].isCcs || (out[w].WellFormed() && out[w].Body() == []))
    ensures Sound(out, to)
    ensures PiecesOf(ps, w) == if from.written <= w < to.written then 1 else 0
  {
    if ps != [] {
      var mid := Walk(out, from, ps[..|ps| - 1]).value;
      WalkSendsEmpty(out, from, ps[..|ps| - 1], mid, w);
      WalkAdvances(out, from, ps[..|ps| - 1], mid);
    }
  }

  /** A flight sent from the start to its end: every byte of every message is in exactly one fragment. */
  lemma FlightTiled(out: seq<Outgoing>, ps: seq<Piece>, w: nat, k: nat)
    requires Walk(out, Cursor(0, 0), ps) == Some(Cursor(|out|, 0))
    requires w < |out| && out[w].WellFormed()
    ensures k < |out[w].Body()| ==> Holders(ps, w, k) == 1
    ensures out[w].Body() == [] ==> PiecesOf(ps, w) == 1
  {
    if k < |out[w].Body()| {
      WalkTiles(out, Cursor(0, 0), ps, Cursor(|out|, 0), w, k);
    }
    if out[w].Body() == [] {
      WalkSendsEmpty(out, Cursor(0, 0), ps, Cursor(|out|, 0), w);
    }
  }

  // ----- Sending -----

  datatype SealResult = SealError | SealNoProgress | SealPartial | SealSuccess

  datatype PacketResult = PacketError | MtuTooSmall | PacketSealed

  /** What the network was asked, and what it answered. */
  datatype NetEvent = Wrote(packet: seq<Record>, answer: int) | Flushed(ok: bool)

  /** The write epoch, and the most bytes of a record beside its plaintext in it and in the epoch before. */
  datatype Limits = SealLimits(epoch: Uint16, overhead: nat, lastOverhead: nat)
  {
    /** Records of two epochs can be sealed: the current one and the one before it. */
    predicate Sealable(e: Uint16) {
      e == epoch || e + 1 == epoch
    }

    function Overhead(e: Uint16): nat {
      if e == epoch then overhead else lastOverhead
    }

    /** There is not even room for a ChangeCipherSpec, or for a fragment header and one byte. */
    predicate NoRoom(o: Outgoing, maxOut: nat) {
      maxOut < Overhead(o.epoch) + if o.isCcs then 1 else HM_HEADER_LENGTH + 1
    }

    /** The entry cannot be sent from that offset on, whatever the room. */
    predicate Unsendable(o: Outgoing, from: nat) {
      !Sealable(o.epoch) || (!o.isCcs && (!o.WellFormed() || from > |o.Body()|))
    }
  }

  /** What is queued for a finished message can be sent in its epoch and in the next, from any offset in its body,
      as soon as there is room for a fragment header and one byte; a ChangeCipherSpec, for one byte. */
  lemma {:induction false} QueuedIsSendable(lim: Limits, m: Message, seqNo: Uint16, epoch: Uint16, from: nat, maxOut: nat)
    requires |m.body| < 0x100_0000 && from <= |m.body| && (epoch == lim.epoch || epoch + 1 == lim.epoch)
    ensures var data := FragmentBytes(Whole(m, seqNo));
      var overhead := if epoch == lim.epoch then lim.overhead else lim.lastOverhead;
      var o, ccs := Outgoing(data, ParseWhole(data), epoch, false), Outgoing([1], ParseWhole([1]), epoch, true);
      && !lim.Unsendable(o, from) && (lim.NoRoom(o, maxOut) <==> maxOut < overhead + 12 + 1)
      && !lim.Unsendable(ccs, 0) && (lim.NoRoom(ccs, maxOut) <==> maxOut < overhead + 1)
  {
    ParseWholeMessage(m, seqNo);
  }

  class Sender {
    const writer: RecordWriter
    var outgoing: seq<Outgoing>
    var written: nat
    var offset: nat
    var complete: bool
    var hasReply: bool
    var handshakeWriteSeq: Uint16
    var transcript: seq<Byte>
    ghost var sent: seq<seq<Record>>
    ghost var sentPieces: seq<Piece>
    ghost var net: seq<NetEvent>

    ghost predicate Valid()
      reads this, writer.Repr()
    {
      && this !in writer.Repr() && writer.Valid()
      && |outgoing| <= MAX_FLIGHT && written <= |outgoing|
      && (offset > 0 ==> written < |outgoing| && !outgoing[written].isCcs)
    }

    function Position(): Cursor
      reads this
    {
      Cursor(written, offset)
    }

    /** What sealing depends on: the write epoch and the room the two AEADs need behind a record header. */
    function Limits(): (lim: Limits)
      reads writer
      ensures lim.epoch == writer.writeEpoch
      ensures lim.overhead == 13 + writer.aead.maxOverhead && lim.lastOverhead == 13 + writer.lastAead.maxOverhead
    {
      SealLimits(writer.writeEpoch, writer.MaxSealOverhead(false), writer.MaxSealOverhead(true))
    }

    method SealCcs(msg: Outgoing, maxOut: nat, usePrevious: bool) returns (result: SealResult, r: Option<Record>)
      requires writer.Valid() && (usePrevious ==> writer.writeEpoch >= 1) && msg.isCcs
      requires msg.epoch == writer.writeEpoch - if usePrevious then 1 else 0
      modifies writer`run, writer`records, writer`troubles, writer.writeSequence, writer.writeSequence.bytes,
               writer.lastWriteSequence, writer.lastWriteSequence.bytes
      ensures writer.Valid() && Limits() == old(Limits())
      ensures r.Some? <==> result == SealSuccess
      ensures result == SealNoProgress <==> Limits().NoRoom(msg, maxOut)
      ensures result == SealSuccess || result == SealNoProgress || result == SealError
      ensures writer.troubles == old(writer.troubles) + if result == SealError then 1 else 0
      ensures r.Some? ==>
        && r.value.Valid() && Epoch(r.value.sequence) == msg.epoch
        && r.value.contentType == RT_CHANGE_CIPHER_SPEC && r.value.plaintext == [1] && r.value.WireLength() <= maxOut
        && r.value.key == writer.Aead(usePrevious).key
    {
      if maxOut < 1 + writer.MaxSealOverhead(usePrevious) {
        return SealNoProgress, None;
      }
      r := writer.SealRecord(RT_CHANGE_CIPHER_SPEC, [1], maxOut, usePrevious);
      return if r.Some? then SealSuccess else SealError, r;
    }

    /** Seals a stretch of the body from `from` on: all of the rest, or as much as fits. */
    method SealBody(msg: Outgoing, from: nat, maxOut: nat, usePrevious: bool)
      returns (result: SealResult, r: Option<Record>, todo: nat)
      requires writer.Valid() && (usePrevious ==> writer.writeEpoch >= 1) && !msg.isCcs
      requires msg.epoch == writer.writeEpoch - if usePrevious then 1 else 0
      modifies writer`run, writer`records, writer`troubles, writer.writeSequence, writer.writeSequence.bytes,
               writer.lastWriteSequence, writer.lastWriteSequence.bytes
      ensures writer.Valid() && Limits() == old(Limits())
      ensures r.Some? <==> result == SealPartial || result == SealSuccess
      ensures result == SealNoProgress <==> !Limits().Unsendable(msg, from) && Limits().NoRoom(msg, maxOut)
      ensures Limits().Unsendable(msg, from) ==> result == SealError
      ensures writer.troubles ==
          old(writer.troubles) + if result == SealError && !Limits().Unsendable(msg, from) then 1 else 0
      ensures r.Some? ==>
        && msg.WellFormed() && from + todo <= |msg.Body()|
        && (result == SealSuccess <==> from + todo == |msg.Body()|)
        && (result == SealPartial ==> todo == maxOut - HM_HEADER_LENGTH - Limits().Overhead(msg.epoch) > 0)
        && r.value.Valid() && Epoch(r.value.sequence) == msg.epoch
        && r.value.contentType == RT_HANDSHAKE
        && r.value.plaintext == FragmentBytes(PieceFragment(msg, from, todo))
        && r.value.WireLength() <= maxOut && r.value.key == writer.Aead(usePrevious).key
    {
      todo := 0;
      var overhead := writer.MaxSealOverhead(usePrevious);
      var prefix := writer.SealPrefixLen(usePrevious);
      if !msg.WellFormed() || from > |msg.Body()| {
        return SealError, None, 0;
      }
      if maxOut < HM_HEADER_LENGTH + 1 + overhead || maxOut < prefix {
        return SealNoProgress, None, 0;
      }
      var left := |msg.Body()| - from;
      todo := if left > maxOut - HM_HEADER_LENGTH - overhead then maxOut - HM_HEADER_LENGTH - overhead else left;
      assert HM_HEADER_LENGTH + todo <= maxOut - prefix;
      r := writer.SealRecord(RT_HANDSHAKE, FragmentBytes(PieceFragment(msg, from, todo)), maxOut, usePrevious);
      if r.None? {
        return SealError, None, 0;
      }
      return if todo == left then SealSuccess else SealPartial, r, todo;
    }

    /** Seals the next piece of the message the cursor is in; `next` is the offset behind it. */
    method SealPiece(maxOut: nat, usePrevious: bool)
      returns (result: SealResult, r: Option<Record>, next: nat, ghost p: Piece)
      requires this !in writer.Repr() && writer.Valid() && (usePrevious ==> writer.writeEpoch >= 1)
      requires written < |outgoing| && (offset > 0 ==> !outgoing[written].isCcs)
      requires outgoing[written].epoch == writer.writeEpoch - if usePrevious then 1 else 0
      modifies writer`run, writer`records, writer`troubles, writer.writeSequence, writer.writeSequence.bytes,
               writer.lastWriteSequence, writer.lastWriteSequence.bytes
      ensures writer.Valid() && Limits() == old(Limits())
      ensures r.Some? <==> result == SealPartial || result == SealSuccess
      ensures r.Some? ==>
        && After(outgoing, Position(), p) == Some(Cursor(if result == SealSuccess then written + 1 else written, next))
        && Carries(outgoing, p, r.value) && r.value.WireLength() <= maxOut && r.value.key == writer.Aead(usePrevious).key
        && (result == SealSuccess ==> next == 0) && (next > 0 ==> !outgoing[written].isCcs)
        && (result == SealPartial ==> next == offset + maxOut - HM_HEADER_LENGTH - Limits().Overhead(outgoing[written].epoch))
      ensures Limits().Unsendable(outgoing[written], offset) ==> result == SealError
      ensures result == SealNoProgress <==>
          !Limits().Unsendable(outgoing[written], offset) && Limits().NoRoom(outgoing[written], maxOut)
      ensures writer.troubles ==
          old(writer.troubles) + if result == SealError && !Limits().Unsendable(outgoing[written], offset) then 1 else 0
    {
      var msg := outgoing[written];
      next, p := 0, CcsPiece(written);
      if msg.isCcs {
        result, r := SealCcs(msg, maxOut, usePrevious);
        return;
      }
      var todo;
      result, r, todo := SealBody(msg, offset, maxOut, usePrevious);
      if r.Some? {
        p := BodyPiece(written, offset, todo);
        next := if result == SealSuccess then 0 else offset + todo;
      }
    }

    /** Seals as much of the next message as fits in maxOut bytes, in the epoch it was queued under. An entry
        of an epoch that is neither the current one nor the one before it is an error, and so is one that does
        not parse; anything else that fails is a failure of the AEAD or of the record number. */
    method SealNextMessage(maxOut: nat) returns (result: SealResult, r: Option<Record>, ghost p: Piece)
      requires Valid() && written < |outgoing|
      modifies this`offset, writer`run, writer`records, writer`troubles, writer.writeSequence,
               writer.writeSequence.bytes, writer.lastWriteSequence, writer.lastWriteSequence.bytes
      ensures Valid() && Limits() == old(Limits())
      ensures r.Some? <==> result == SealPartial || result == SealSuccess
      ensures r.Some? ==>
        && After(outgoing, old(Position()), p) ==
          Some(Cursor(if result == SealSuccess then written + 1 else written, offset))
        && Carries(outgoing, p, r.value) && r.value.WireLength() <= maxOut
      ensures result == SealPartial ==>
        offset == old(offset) + maxOut - HM_HEADER_LENGTH - Limits().Overhead(outgoing[written].epoch)
      ensures r.None? ==> offset == old(offset)
      ensures result == SealSuccess ==> offset == 0
      ensures outgoing[written].epoch != writer.writeEpoch && outgoing[written].epoch + 1 != writer.writeEpoch ==>
        result == SealError
      ensures r.Some? ==>
        r.value.key == if outgoing[written].epoch == writer.writeEpoch then writer.aead.key else writer.lastAead.key
      ensures Limits().Unsendable(outgoing[written], old(offset)) ==> result == SealError
      ensures result == SealNoProgress <==>
          !Limits().Unsendable(outgoing[written], old(offset)) && Limits().NoRoom(outgoing[written], maxOut)
      ensures writer.troubles ==
          old(writer.troubles) + if result == SealError && !Limits().Unsendable(outgoing[written], old(offset)) then 1 else 0
    {
      var epoch := outgoing[written].epoch;
      var usePrevious := writer.writeEpoch >= 1 && epoch == writer.writeEpoch - 1;
      if !usePrevious && epoch != writer.writeEpoch {
        return SealError, None, CcsPiece(written);
      }
      var next;
      result, r, next, p := SealPiece(maxOut, usePrevious);
      if r.Some? {
        offset := next;
      }
    }

    /** Adds the next record to a datagram that has `left` bytes of room, and moves the cursor behind it. */
    method AddNext(left: nat, packet: seq<Record>, ghost pack: Packing, ghost start: Cursor, ghost ps: seq<Piece>,
                   ghost n: nat, ghost lim: Limits)
      returns (sealed: SealResult, now: seq<Record>, room: nat, ghost pieces: seq<Piece>)
      requires Valid() && written < |outgoing| && Packs(pack) && pack(outgoing, start, ps, packet, Position(), n)
      requires lim == Limits()
      modifies this`offset, this`written, writer`run, writer`records, writer`troubles, writer.writeSequence,
               writer.writeSequence.bytes, writer.lastWriteSequence, writer.lastWriteSequence.bytes
      ensures Valid() && Limits() == lim
      ensures room <= left && pack(outgoing, start, pieces, now, Position(), n + left - room)
      ensures Stopped(sealed, lim, room, old(writer.troubles))
      ensures if sealed == SealSuccess || sealed == SealPartial then now != [] && !lim.NoRoom(outgoing[old(written)], left)
              else Position() == old(Position()) && now == packet && room == left
      ensures written == old(written) + if sealed == SealSuccess then 1 else 0
    {
      now, room, pieces := packet, left, ps;
      var r: Option<Record>;
      ghost var p;
      sealed, r, p := SealNextMessage(left);
      if r.Some? {
        written := if sealed == SealSuccess then written + 1 else written;
        PackOne(pack, outgoing, start, ps, packet, old(Position()), n, p, r.value, Position());
        now, room, pieces := packet + [r.value], left - r.value.WireLength(), ps + [p];
      }
    }

    /** Adds records until the flight ends, a message is only sent in part, there is no room for the next entry,
        or sealing fails; `last` says which. */
    method FillPacket(maxOut: nat, ghost pack: Packing, ghost lim: Limits)
      returns (last: SealResult, packet: seq<Record>, left: nat, ghost ps: seq<Piece>)
      requires Valid() && written < |outgoing| && Packs(pack) && lim == Limits()
      modifies this`offset, this`written, writer`run, writer`records, writer`troubles, writer.writeSequence,
               writer.writeSequence.bytes, writer.lastWriteSequence, writer.lastWriteSequence.bytes
      ensures Valid() && Limits() == lim
      ensures left <= maxOut && pack(outgoing, old(Position()), ps, packet, Position(), maxOut - left)
      ensures Stopped(last, lim, left, old(writer.troubles)) && (last == SealSuccess ==> written == |outgoing|)
      ensures packet == [] ==> Position() == old(Position()) && left == maxOut && last != SealPartial
    {
      last, packet, ps, left := SealSuccess, [], [], maxOut;
      PackNone(pack, outgoing, Position());
      while last == SealSuccess && written < |outgoing|
        invariant Valid()
        invariant left <= maxOut && pack(outgoing, old(Position()), ps, packet, Position(), maxOut - left)
        invariant packet == [] ==> Position() == old(Position()) && left == maxOut && last != SealPartial
        invariant Stopped(last, lim, left, old(writer.troubles))
        decreases |outgoing| - written, last == SealSuccess
      {
        last, packet, left, ps := AddNext(left, packet, pack, old(Position()), ps, maxOut - left, lim);
      }
    }

    /** Why filling a datagram with `left` bytes of room stopped here. */
    ghost predicate Stopped(last: SealResult, lim: Limits, left: nat, troubles: nat)
      reads this, writer
    {
      match last
      case SealSuccess => writer.troubles == troubles
      case SealPartial => writer.troubles == troubles && offset > 0
      case SealNoProgress =>
        && writer.troubles == troubles && written < |outgoing|
        && lim.NoRoom(outgoing[written], left) && !lim.Unsendable(outgoing[written], offset)
      case SealError =>
        && written < |outgoing|
        && (|| lim.Unsendable(outgoing[written], offset)
            || (writer.troubles > troubles && !lim.NoRoom(outgoing[written], left)))
    }

    /** Fills one datagram of at most maxOut bytes from the cursor on, and moves the cursor. It stops at the
        end of the flight, behind a part of a message, or before an entry there is no room for. */
    method SealNextPacket(maxOut: nat) returns (result: PacketResult, packet: seq<Record>, ghost ps: seq<Piece>)
      requires Valid() && written < |outgoing|
      modifies this`offset, this`written, writer`run, writer`records, writer`troubles, writer.writeSequence,
               writer.writeSequence.bytes, writer.lastWriteSequence, writer.lastWriteSequence.bytes
      ensures Valid() && Limits() == old(Limits())
      ensures result == PacketSealed ==>
        && packet != [] && TotalLength(packet) <= maxOut && Conveys(outgoing, old(Position()), ps, packet, Position())
        && (written == |outgoing| || offset > 0 || Limits().NoRoom(outgoing[written], maxOut - TotalLength(packet)))
      ensures result == MtuTooSmall ==>
        && Position() == old(Position()) && Limits().NoRoom(outgoing[written], maxOut)
        && !Limits().Unsendable(outgoing[written], offset)
      ensures result == PacketError ==>
        written < |outgoing| && (Limits().Unsendable(outgoing[written], offset) || writer.troubles > old(writer.troubles))
      ensures result != PacketError ==> writer.troubles == old(writer.troubles)
    {
      ghost var pack: Packing := (out, from, ps, rs, to, n: nat) => Packed(out, from, ps, rs, to, n);
      var last, left;
      last, packet, left, ps := FillPacket(maxOut, pack, Limits());
      assert Packed(outgoing, old(Position()), ps, packet, Position(), maxOut - left);
      if last == SealError {
        return PacketError, packet, ps;
      }
      return if packet == [] then MtuTooSmall else PacketSealed, packet, ps;
    }

    constructor (nullAead: SealAead)
      ensures Valid() && fresh(writer) && fresh(writer.Repr())
      ensures outgoing == [] && sent == [] && sentPieces == [] && net == [] && Position() == Cursor(0, 0)
      ensures !complete && !hasReply && handshakeWriteSeq == 0 && transcript == []
    {
      writer := new RecordWriter(nullAead);
      outgoing, written, offset, complete, hasReply, handshakeWriteSeq := [], 0, 0, false, false, 0;
      transcript, sent, sentPieces, net := [], [], [], [];
    }

    /** The unsent rest of the flight, measured lexicographically. */
    ghost function BytesLeft(): nat
      reads this
    {
      if written < |outgoing| && outgoing[written].WellFormed() && offset <= |outgoing[written].Body()|
      then |outgoing[written].Body()| - offset else 0
    }

    /** The network takes a datagram or refuses it. */
    method BioWrite(packet: seq<Record>) returns (answer: int)
      modifies this`net
      ensures net == old(net) + [Wrote(packet, answer)]
    {
      answer := *;
      net := net + [Wrote(packet, answer)];
    }

    method BioFlush() returns (ok: bool)
      modifies this`net
      ensures net == old(net) + [Flushed(ok)]
    {
      ok := *;
      net := net + [Flushed(ok)];
    }

    /** Sealing failed at the entry the cursor is at now: it cannot be sent, the MTU is too small for it, or the
        AEAD or the record number failed. */
    ghost predicate SealingFailed(mtu: nat, troubles: nat)
      requires written < |outgoing|
      reads this, writer
    {
      Limits().Unsendable(outgoing[written], offset) || Limits().NoRoom(outgoing[written], mtu) || writer.troubles > troubles
    }

    /** Seals and writes one datagram. One that the network refuses is sealed again next time, so the
        cursor goes back to its start; bioRet is what the network said. */
    method SendPacket(mtu: nat) returns (sealed: bool, bioRet: int, ghost packet: seq<Record>, ghost ps: seq<Piece>)
      requires Valid() && written < |outgoing|
      modifies this`offset, this`written, this`sent, this`sentPieces, this`net,
               writer`run, writer`records, writer`troubles, writer.writeSequence, writer.writeSequence.bytes,
               writer.lastWriteSequence, writer.lastWriteSequence.bytes
      ensures Valid() && Limits() == old(Limits())
      ensures sealed ==> net == old(net) + [Wrote(packet, bioRet)] && writer.troubles == old(writer.troubles)
      ensures !sealed ==> net == old(net) && written < |outgoing| && SealingFailed(mtu, old(writer.troubles))
      ensures sealed && bioRet > 0 ==>
        && sent == old(sent) + [packet] && sentPieces == old(sentPieces) + ps
        && packet != [] && TotalLength(packet) <= mtu
        && Conveys(outgoing, old(Position()), ps, packet, Position())
        && (old(written) < written || (old(written) == written && 0 <= BytesLeft() < old(BytesLeft())))
      ensures !sealed || bioRet <= 0 ==> sent == old(sent) && sentPieces == old(sentPieces)
      ensures sealed && bioRet <= 0 ==> Position() == old(Position())
    {
      var oldWritten, oldOffset := written, offset;
      var result, datagram;
      result, datagram, ps := SealNextPacket(mtu);
      packet := datagram;
      if result != PacketSealed {
        return false, 0, packet, ps;
      }
      sealed := true;
      bioRet := BioWrite(datagram);
      if bioRet <= 0 {
        written, offset := oldWritten, oldOffset;
      } else {
        WalkAdvances(outgoing, old(Position()), ps, Position());
        sent, sentPieces := sent + [packet], sentPieces + ps;
      }
    }

    /** Writes the rest of the flight, one datagram at a time; 1 when all of it went out. What was written
        leads to `reached`. That is the cursor, unless sealing itself failed, after which the cursor is
        only good for a rewind. Anything else than 1 has its cause: a shutdown, a failure of sealing at the
        entry reached, or what the network answered last. */
    method SendFlight(mtu: nat, shutdown: bool) returns (ret: int, ghost failed: bool, ghost reached: Cursor)
      requires Valid() && mtu >= MIN_MTU
      modifies this`offset, this`written, this`sent, this`sentPieces, this`net,
               writer`run, writer`records, writer`troubles, writer.writeSequence, writer.writeSequence.bytes,
               writer.lastWriteSequence, writer.lastWriteSequence.bytes
      ensures Valid() && ret <= 1 && Limits() == old(Limits())
      ensures SentSince(outgoing, old(Position()), reached, old(sent), sent, old(sentPieces), sentPieces, mtu)
      ensures if failed then ret == -1 else reached == Position()
      ensures ret == 1 ==> !failed && written == |outgoing|
      ensures shutdown ==> ret == -1 && !failed && sent == old(sent) && net == old(net)
      ensures failed ==> written < |outgoing| && SealingFailed(mtu, old(writer.troubles))
      ensures !shutdown && !failed ==> |net| > |old(net)| && Answer(net[|net| - 1]) == ret
    {
      failed, reached := false, Position();
      assert sent[|sent|..] == [] && sentPieces[|sentPieces|..] == [];
      if shutdown {
        return -1, false, reached;
      }
      while written < |outgoing|
        invariant Valid() && Limits() == old(Limits()) && reached == Position() && |net| >= |old(net)|
        invariant writer.troubles == old(writer.troubles)
        invariant SentSince(outgoing, old(Position()), reached, old(sent), sent, old(sentPieces), sentPieces, mtu)
        decreases |outgoing| - written, BytesLeft()
      {
        ghost var mid, sent1, pieces1 := Position(), sent, sentPieces;
        var sealed, bioRet, packet, ps := SendPacket(mtu);
        if !sealed {
          return -1, true, reached;
        }
        if bioRet <= 0 {
          return bioRet, false, reached;
        }
        reached := Position();
        ConveyPacket(outgoing, old(Position()), mid, Position(), old(sent), sent1, packet, old(sentPieces), pieces1, ps, mtu);
      }
      var flushed := BioFlush();
      return if flushed then 1 else -1, false, reached;
    }

    method ClearOutgoing()
      modifies this`outgoing, this`written, this`offset, this`complete, this`hasReply
      ensures outgoing == [] && Position() == Cursor(0, 0) && !complete && !hasReply
    {
      outgoing, written, offset, complete, hasReply := [], 0, 0, false, false;
    }

    /** Adds a message or a ChangeCipherSpec to the current flight; a flight that was flushed before
        is dropped first. */
    method AddOutgoing(isCcs: bool, data: seq<Byte>) returns (ok: bool)
      requires Valid()
      modifies this`outgoing, this`written, this`offset, this`complete, this`hasReply, this`handshakeWriteSeq,
               this`transcript
      ensures Valid()
      ensures var flight := if old(complete) then [] else old(outgoing);
        && (ok <==> |flight| < MAX_FLIGHT && |data| <= 0xffff_ffff)
        && outgoing == flight + (if ok then [Outgoing(data, ParseWhole(data), writer.writeEpoch, isCcs)] else [])
        && (!old(complete) ==> Position() == old(Position()) && hasReply == old(hasReply))
        && (old(complete) ==> Position() == Cursor(0, 0) && !hasReply)
      ensures !complete
      ensures handshakeWriteSeq == if ok && !isCcs then (old(handshakeWriteSeq) + 1) % TWO_16
          else old(handshakeWriteSeq)
      ensures transcript == if ok && !isCcs then old(transcript) + data else old(transcript)
    {
      if complete {
        ClearOutgoing();
      }
      if |outgoing| >= MAX_FLIGHT || |data| > 0xffff_ffff {
        return false;
      }
      if !isCcs {
        transcript := transcript + data;
        handshakeWriteSeq := (handshakeWriteSeq + 1) % TWO_16;
      }
      outgoing := outgoing + [Outgoing(data, ParseWhole(data), writer.writeEpoch, isCcs)];
      return true;
    }

    method FlushFlight(mtu: nat, shutdown: bool) returns (ret: int, ghost failed: bool, ghost reached: Cursor)
      requires Valid() && mtu >= MIN_MTU
      modifies this`complete, this`offset, this`written, this`sent, this`sentPieces, this`net,
               writer`run, writer`records, writer`troubles, writer.writeSequence, writer.writeSequence.bytes,
               writer.lastWriteSequence, writer.lastWriteSequence.bytes
      ensures Valid() && complete
      ensures SentSince(outgoing, old(Position()), reached, old(sent), sent, old(sentPieces), sentPieces, mtu)
      ensures if failed then ret == -1 else reached == Position()
      ensures ret == 1 ==> !failed && written == |outgoing|
      ensures shutdown ==> ret == -1 && !failed && net == old(net)
      ensures failed ==> written < |outgoing| && SealingFailed(mtu, old(writer.troubles))
      ensures !shutdown && !failed ==> |net| > |old(net)| && Answer(net[|net| - 1]) == ret
    {
      complete := true;
      ret, failed, reached := SendFlight(mtu, shutdown);
    }

    /** Rewinds to the start of the flight and writes it again, whatever state it was left in. */
    method RetransmitOutgoingMessages(mtu: nat, shutdown: bool) returns (ret: int, ghost failed: bool, ghost reached: Cursor)
      requires Valid() && mtu >= MIN_MTU
      modifies this`offset, this`written, this`sent, this`sentPieces, this`net,
               writer`run, writer`records, writer`troubles, writer.writeSequence, writer.writeSequence.bytes,
               writer.lastWriteSequence, writer.lastWriteSequence.bytes
      ensures Valid()
      ensures SentSince(outgoing, Cursor(0, 0), reached, old(sent), sent, old(sentPieces), sentPieces, mtu)
      ensures if failed then ret == -1 else reached == Position()
      ensures ret == 1 ==> !failed && Position() == Cursor(|outgoing|, 0)
      ensures shutdown ==> ret == -1 && !failed && net == old(net)
      ensures failed ==> written < |outgoing| && SealingFailed(mtu, old(writer.troubles))
      ensures !shutdown && !failed ==> |net| > |old(net)| && Answer(net[|net| - 1]) == ret
      ensures ret == 1 ==> Walk(outgoing, Cursor(0, 0), sentPieces[|old(sentPieces)|..]) == Some(Cursor(|outgoing|, 0))
    {
      written, offset := 0, 0;
      ret, failed, reached := SendFlight(mtu, shutdown);
    }

    /** A message of the peer was consumed: a flight that was flushed has its reply. */
    method MarkReply()
      requires Valid()
      modifies this`hasReply
      ensures Valid() && hasReply == (old(hasReply) || complete)
    {
      if complete {
        hasReply := true;
      }
    }

    /** The final flight is only dropped once the peer is known to have received it. */
    method OnHandshakeComplete()
      requires Valid()
      modifies this`outgoing, this`written, this`offset, this`complete, this`hasReply
      ensures Valid()
      ensures outgoing == if old(hasReply) then [] else old(outgoing)
      ensures !old(hasReply) ==> Position() == old(Position()) && complete == old(complete)
    {
      if hasReply {
        ClearOutgoing();
      }
    }
  }

  /** What a flight comes to when the network answers like that. */
  function Answer(e: NetEvent): int {
    match e
    case Wrote(_, answer) => answer
    case Flushed(ok) => if ok then 1 else -1
  }

  /** What was sent between two points: datagrams within the MTU that carry the pieces in between. */
  ghost predicate SentSince(out: seq<Outgoing>, from: Cursor, to: Cursor, sent0: seq<seq<Record>>,
                            sent1: seq<seq<Record>>, pieces0: seq<Piece>, pieces1: seq<Piece>, mtu: nat) {
    && sent0 <= sent1 && pieces0 <= pieces1
    && (forall i :: |sent0| <= i < |sent1| ==> sent1[i] != [] && TotalLength(sent1[i]) <= mtu)
    && Conveys(out, from, pieces1[|pieces0|..], Flatten(sent1[|sent0|..]), to)
  }

  function Flatten(datagrams: seq<seq<Record>>): seq<Record> {
    if datagrams == [] then [] else Flatten(datagrams[..|datagrams| - 1]) + datagrams[|datagrams| - 1]
  }

  lemma ConveyPacket(out: seq<Outgoing>, from: Cursor, mid: Cursor, to: Cursor, sent0: seq<seq<Record>>,
                     sent1: seq<seq<Record>>, packet: seq<Record>,
                     pieces0: seq<Piece>, pieces1: seq<Piece>, ps: seq<Piece>, mtu: nat)
    requires SentSince(out, from, mid, sent0, sent1, pieces0, pieces1, mtu)
    requires packet != [] && TotalLength(packet) <= mtu && Conveys(out, mid, ps, packet, to)
    ensures SentSince(out, from, to, sent0, sent1 + [packet], pieces0, pieces1 + ps, mtu)
  {
    var datagrams := sent1[|sent0|..];
    assert (sent1 + [packet])[|sent0|..] == datagrams + [packet];
    assert (datagrams + [packet])[..|datagrams|] == datagrams;
    assert (pieces1 + ps)[|pieces0|..] == pieces1[|pieces0|..] + ps;
    WalkOn(out, from, pieces1[|pieces0|..], ps);
  }

  /** Every piece moves the cursor forward. */
  lemma {:induction false} WalkAdvances(out: seq<Outgoing>, from: Cursor, ps: seq<Piece>, to: Cursor)
    requires Walk(out, from, ps) == Some(to)
    ensures from.written <= to.written
    ensures ps != [] && from.written == to.written ==>
      && from.offset < to.offset && to.written < |out|
      && out[to.written].WellFormed() && to.offset < |out[to.written].Body()|
  {
    if ps != [] {
      WalkAdvances(out, from, ps[..|ps| - 1], Walk(out, from, ps[..|ps| - 1]).value);
    }
  }
}