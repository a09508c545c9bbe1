/** Receiving handshake messages in place: the seven-slot ring of partially assembled messages. */
module ReceiverRing {
  import opened Wrappers
  import opened Bytes
  import opened Bitmask
  import opened Fragments
  import opened Reassembly
  import RecordLayer

  /** The mask marks exactly the positions received. */
  ghost predicate MaskOf(mask: seq<bv8>, msgLen: nat, got: map<nat, Received>) {
    && |mask| == (msgLen + 7) / 8
    && forall k: nat :: k < 8 * |mask| ==> (Marked(mask, k) <==> k in got)
  }

  function Overwrite(s: seq<Byte>, at: nat, chunk: seq<Byte>): (t: seq<Byte>)
    requires at + |chunk| <= |s|
    ensures |t| == |s|
  {
    s[..at] + chunk + s[at + |chunk|..]
  }

  /** The buffer holds the bytes received, after the header. */
  ghost predicate Stored(data: seq<Byte>, p: Partial) {
    && |data| == HM_HEADER_LENGTH + p.msgLen
    && forall k :: k in p.got ==> k < p.msgLen && data[HM_HEADER_LENGTH + k] == p.got[k].byte
  }

  lemma StoredBytes(data: seq<Byte>, p: Partial, off: nat, chunk: seq<Byte>, era: nat)
    requires Stored(data, p) && !p.Complete() && off + |chunk| <= p.msgLen
    ensures Stored(Overwrite(data, HM_HEADER_LENGTH + off, chunk), p.Absorb(off, chunk, era))
  {
  }

  datatype SslMessage = SslMessage(typ: Byte, body: seq<Byte>, raw: seq<Byte>)

  /** An incoming message, possibly not yet assembled. `reassembly` is null when it is complete. */
  class HmFragment {
    const typ: Byte
    const seqNo: Uint16
    const msgLen: Uint24
    const data: array<Byte>
    var reassembly: array?<bv8>
    ghost var got: map<nat, Received>
    ghost const repr: set<object>

    ghost function Value(): Partial
      reads this
    {
      Partial(typ, seqNo, msgLen, got)
    }

    ghost predicate Valid()
      reads this, repr
    {
      && this in repr && data in repr && (reassembly != null ==> reassembly in repr)
      && Stored(data[..], Value())
      && data[..HM_HEADER_LENGTH] == HeaderBytes(Header(typ, msgLen, seqNo, 0, msgLen))
      && (reassembly == null <==> Value().Complete())
      && (reassembly != null ==> MaskOf(reassembly[..], msgLen, got))
    }

    constructor (h: Header)
      ensures Valid() && Value() == Partial(h.typ, h.seqNo, h.msgLen, map[]) && fresh(repr)
    {
      typ, seqNo, msgLen := h.typ, h.seqNo, h.msgLen;
      var buffer := new Byte[HM_HEADER_LENGTH + h.msgLen];
      var mask := new bv8[(h.msgLen + 7) / 8](_ => 0);
      data, repr, got := buffer, {this, buffer, mask}, map[];
      reassembly := if h.msgLen > 0 then mask else null;
      new;
      Copy(0, HeaderBytes(Header(h.typ, h.msgLen, h.seqNo, 0, h.msgLen)));
      forall k: nat | k < 8 * mask.Length
        ensures !Marked(mask[..], k)
      {
        Full(k % 8);
      }
      if h.msgLen > 0 {
        assert 0 !in got;
      }
    }

    /** Copies a chunk of the body in and marks it as received; the mask is freed once all is there. */
    method Absorb(off: nat, chunk: seq<Byte>, ghost era: nat)
      requires Valid() && reassembly != null && off + |chunk| <= msgLen
      modifies repr
      ensures Valid() && Value() == old(Value()).Absorb(off, chunk, era)
      ensures reassembly == null || reassembly == old(reassembly)
    {
      Copy(HM_HEADER_LENGTH + off, chunk);
      StoredBytes(old(data[..]), Value(), off, chunk, era);
      assert data[..HM_HEADER_LENGTH] == old(data[..])[..HM_HEADER_LENGTH];
      got := Value().Absorb(off, chunk, era).got;
      Mark(off, off + |chunk|);
    }

    /** The complete message as it lies in the buffer. */
    method Message() returns (m: SslMessage)
      requires Valid() && reassembly == null
      ensures m == SslMessage(typ, Value().Body(), Value().Raw())
    {
      m := SslMessage(typ, data[HM_HEADER_LENGTH..], data[..]);
      assert m.body == Value().Body();
      assert m.raw == data[..HM_HEADER_LENGTH] + m.body;
    }

    method Copy(at: nat, chunk: seq<Byte>)
      requires at + |chunk| <= data.Length
      modifies data
      ensures data[..] == Overwrite(old(data[..]), at, chunk)
    {
      for i := 0 to |chunk|
        invariant forall j :: 0 <= j < i ==> data[at + j] == chunk[j]
        invariant forall j :: 0 <= j < data.Length && !(at <= j < at + i) ==> data[j] == old(data[j])
      {
        data[at + i] := chunk[i];
      }
    }

    /** Marks start to end in the mask. `got` already holds the range. */
    method Mark(start: nat, end: nat)
      requires reassembly != null && start <= end <= msgLen
      requires reassembly.Length == (msgLen + 7) / 8
      requires forall k :: k in got ==> k < msgLen
      requires forall k: nat :: k < 8 * reassembly.Length ==>
                 (k in got <==> Marked(reassembly[..], k) || start <= k < end)
      requires start == end ==> exists k: nat :: k < msgLen && k !in got
      modifies this`reassembly, reassembly
      ensures reassembly == null || reassembly == old(reassembly)
      ensures reassembly == null <==> Value().Complete()
      ensures reassembly != null ==> MaskOf(reassembly[..], msgLen, got)
    {
      if start == end {
        return;
      }
      MarkRange(reassembly, start, end);
      ghost var marks := reassembly[..];
      assert forall k: nat :: k < msgLen ==> (k in got <==> Marked(marks, k));
      var complete := IsComplete(reassembly, msgLen);
      assert reassembly[..] == marks;
      if complete {
        assert forall k: nat :: k < msgLen ==> Marked(marks, k);
        reassembly := null;
      } else {
        ghost var k: nat :| k < msgLen && !Marked(marks, k);
        assert k !in got;
      }
    }
  }

  datatype OpenOutcome = Opened | Discarded | Failed(alert: Alert)

  /** What a record comes to, and what it leaves of the ring. */
  function Handled(r: Ring, nullCipher: bool, maxLen: nat, contentType: Byte, record: seq<Byte>): (OpenOutcome, Ring)
    requires |r.slots| == MAX_FLIGHT
  {
    if contentType == RecordLayer.RT_HANDSHAKE then
      var (o, after) := ReceiveAll(r, maxLen, record);
      (if o.Rejected? then Failed(o.alert) else Opened, after)
    else if contentType == RecordLayer.RT_CHANGE_CIPHER_SPEC then
      if !nullCipher then (Failed(UnexpectedMessage), r)
      else if record == [1] then (Opened, r.(hasChangeCipherSpec := true))
      else (Failed(IllegalParameter), r)
    else if contentType == RecordLayer.RT_APPLICATION_DATA && !nullCipher then (Discarded, r)
    else (Failed(UnexpectedMessage), r)
  }

  class Receiver {
    var readSeq: Uint16
    const incoming: array<HmFragment?>
    var hasMessage: bool
    var hasChangeCipherSpec: bool
    var readEpoch: Uint16
    var nullCipher: bool
    var maxLen: nat
    ghost var era: nat
    ghost var slots: seq<Option<Partial>>
    ghost var repr: set<object>

    /** The footprints of the buffered messages lie in repr, each on its own. */
    ghost predicate Owning()
      reads this, repr
    {
      && this in repr && incoming in repr && incoming.Length == MAX_FLIGHT
      && (forall i :: 0 <= i < MAX_FLIGHT && incoming[i] != null ==>
            && incoming[i] in repr && incoming[i].repr <= repr && this !in incoming[i].repr
            && incoming !in incoming[i].repr
            && incoming[i].Valid())
      && (forall i, j :: 0 <= i < j < MAX_FLIGHT && incoming[i] != null && incoming[j] != null ==>
            incoming[i].repr !! incoming[j].repr)
    }

    /** slots mirrors the messages behind `incoming`. */
    ghost predicate Mirrors()
      requires Owning()
      reads this, repr
    {
      && |slots| == MAX_FLIGHT
      && forall i :: 0 <= i < MAX_FLIGHT ==>
           slots[i] == if incoming[i] == null then None else Some(incoming[i].Value())
    }

    ghost function State(): Ring
      reads this
    {
      Ring(readSeq, slots, hasMessage, hasChangeCipherSpec, era)
    }

    ghost predicate Shape()
      reads this, repr
    {
      Owning() && Mirrors() && readEpoch == era % TWO_16
    }

    ghost predicate Valid()
      reads this, repr
    {
      Shape() && State().Valid()
    }

    constructor ()
      ensures Valid() && State() == EMPTY_RING && fresh(repr)
      ensures nullCipher && maxLen == 0
    {
      readSeq, hasMessage, hasChangeCipherSpec, readEpoch, nullCipher, maxLen, era := 0, false, false, 0, true, 0, 0;
      incoming := new HmFragment?[MAX_FLIGHT](_ => null);
      slots, repr := EMPTY_RING.slots, {this, incoming};
    }

    predicate CurrentMessageComplete(): (b: bool)
      requires Valid()
      reads this, repr
      ensures b <==> State().CurrentComplete()
    {
      var frag := incoming[readSeq % MAX_FLIGHT];
      frag != null && frag.reassembly == null
    }

    /** Puts a new message into the empty slot of the header's number. */
    method AddMessage(h: Header) returns (frag: HmFragment)
      requires Shape() && incoming[h.seqNo % MAX_FLIGHT] == null
      modifies this`repr, this`slots, incoming
      ensures Shape() && fresh(repr - old(repr))
      ensures State() == old(State()).Put(h.seqNo, Some(Partial(h.typ, h.seqNo, h.msgLen, map[])))
      ensures frag == incoming[h.seqNo % MAX_FLIGHT]
    {
      frag := new HmFragment(h);
      incoming[h.seqNo % MAX_FLIGHT] := frag;
      slots := slots[h.seqNo % MAX_FLIGHT := Some(frag.Value())];
      repr := repr + frag.repr;
    }

    /** The buffered message a fragment belongs to; makes one for a first fragment. */
    method GetIncomingMessage(h: Header) returns (frag: HmFragment?, alert: Alert)
      requires Valid()
      modifies this`repr, this`slots, incoming
      ensures Shape() && fresh(repr - old(repr))
      ensures (if frag == null then Rejected(alert) else Accepted, State()) == Lookup(old(State()), h)
      ensures frag != null ==> frag == incoming[h.seqNo % MAX_FLIGHT]
    {
      alert := InternalError;
      if h.seqNo < readSeq || h.seqNo - readSeq >= MAX_FLIGHT {
        return null, InternalError;
      }
      frag := incoming[h.seqNo % MAX_FLIGHT];
      if frag != null {
        SlotNumber(State(), h.seqNo);
        assert frag.seqNo == h.seqNo;
        if frag.typ != h.typ || frag.msgLen != h.msgLen {
          return null, IllegalParameter;
        }
      } else {
        frag := AddMessage(h);
      }
    }

    /** Copies a body into one message and leaves the others as they are. */
    method AbsorbInto(idx: nat, off: nat, chunk: seq<Byte>)
      requires Owning() && idx < MAX_FLIGHT && incoming[idx] != null
      requires incoming[idx].reassembly != null && off + |chunk| <= incoming[idx].msgLen
      modifies incoming[idx].repr
      ensures incoming[idx].Valid() && incoming[idx].Value() == old(incoming[idx].Value()).Absorb(off, chunk, era)
      ensures forall j :: 0 <= j < MAX_FLIGHT && j != idx && incoming[j] != null ==>
                incoming[j].Valid() && incoming[j].Value() == old(incoming[j].Value())
    {
      var frag := incoming[idx];
      frag.Absorb(off, chunk, era);
      forall j | 0 <= j < MAX_FLIGHT && j != idx && incoming[j] != null
        ensures incoming[j].Valid() && incoming[j].Value() == old(incoming[j].Value())
      {
        assert frag.repr !! incoming[j].repr;
      }
    }

    /** Copies a fragment's body into the message of its slot. */
    method StoreBody(idx: nat, off: nat, chunk: seq<Byte>)
      requires Shape() && idx < MAX_FLIGHT && incoming[idx] != null
      requires incoming[idx].reassembly != null && off + |chunk| <= incoming[idx].msgLen
      modifies this`slots, incoming[idx].repr
      ensures Shape()
      ensures slots == old(slots)[idx := Some(old(slots)[idx].value.Absorb(off, chunk, era))]
    {
      AbsorbInto(idx, off, chunk);
      slots := slots[idx := Some(incoming[idx].Value())];
    }

    /** Looks a fragment's message up and stores the body in it. */
    method PlaceFragment(f: Fragment) returns (outcome: Outcome)
      requires Valid() && |f.body| == f.header.fragLen && f.header.fragOff + f.header.fragLen <= f.header.msgLen
      modifies repr
      ensures Shape() && fresh(repr - old(repr))
      ensures (outcome, State()) == Place(old(State()), f)
      ensures maxLen == old(maxLen) && nullCipher == old(nullCipher)
    {
      var h := f.header;
      var frag, alert := GetIncomingMessage(h);
      if frag == null {
        return Rejected(alert);
      }
      assert slots[h.seqNo % MAX_FLIGHT := slots[h.seqNo % MAX_FLIGHT]] == slots;
      if frag.reassembly != null {
        StoreBody(h.seqNo % MAX_FLIGHT, h.fragOff, f.body);
      }
      return Accepted;
    }

    /** Hands one fragment of a handshake record to its message. */
    method OpenFragment(f: Fragment) returns (outcome: Outcome)
      requires Valid() && |f.body| == f.header.fragLen
      modifies repr
      ensures Valid() && fresh(repr - old(repr))
      ensures (outcome, State()) == Receive(old(State()), maxLen, f)
      ensures maxLen == old(maxLen) && nullCipher == old(nullCipher)
    {
      ReceiveKeepsRing(State(), maxLen, f);
      var h := f.header;
      if h.fragOff > h.msgLen || h.fragOff + h.fragLen > h.msgLen || h.msgLen > maxLen {
        return Rejected(IllegalParameter);
      }
      if readEpoch == 1 && h.seqNo != readSeq {
        return Rejected(UnexpectedMessage);
      }
      if h.seqNo < readSeq || h.seqNo > readSeq + MAX_FLIGHT {
        return Accepted;
      }
      outcome := PlaceFragment(f);
    }

    /** Hands every fragment of a handshake record to its message, up to the first bad one. */
    method OpenFragments(bytes: seq<Byte>) returns (outcome: Outcome)
      requires Valid()
      modifies repr
      ensures Valid() && fresh(repr - old(repr))
      ensures (outcome, State()) == ReceiveAll(old(State()), maxLen, bytes)
      ensures maxLen == old(maxLen) && nullCipher == old(nullCipher)
    {
      var rest := bytes;
      while rest != []
        invariant Valid() && fresh(repr - old(repr))
        invariant maxLen == old(maxLen) && nullCipher == old(nullCipher)
        invariant ReceiveAll(old(State()), maxLen, bytes) == ReceiveAll(State(), maxLen, rest)
        decreases |rest|
      {
        var parsed := ParseFragment(rest);
        if parsed.None? {
          return Rejected(DecodeError);
        }
        outcome := OpenFragment(parsed.value.0);
        if outcome.Rejected? {
          return;
        }
        rest := parsed.value.1;
      }
      return Accepted;
    }

    /** Dispatches an opened record by its content type. */
    method OpenHandshake(contentType: Byte, record: seq<Byte>) returns (outcome: OpenOutcome)
      requires Valid()
      modifies repr
      ensures Valid() && fresh(repr - old(repr))
      ensures maxLen == old(maxLen) && nullCipher == old(nullCipher) && era == old(era)
      ensures contentType == RecordLayer.RT_HANDSHAKE ==>
        var (o, after) := ReceiveAll(old(State()), old(maxLen), record);
        State() == after && outcome == (if o.Rejected? then Failed(o.alert) else Opened)
      ensures contentType == RecordLayer.RT_CHANGE_CIPHER_SPEC ==>
        && outcome == (if !old(nullCipher) then Failed(UnexpectedMessage)
                       else if record == [1] then Opened else Failed(IllegalParameter))
        && State() == old(State()).(hasChangeCipherSpec := outcome == Opened || old(hasChangeCipherSpec))
      ensures contentType != RecordLayer.RT_HANDSHAKE && contentType != RecordLayer.RT_CHANGE_CIPHER_SPEC ==>
        && State() == old(State())
        && outcome == if contentType == RecordLayer.RT_APPLICATION_DATA && !old(nullCipher) then Discarded
                      else Failed(UnexpectedMessage)
      ensures (outcome, State()) == Handled(old(State()), old(nullCipher), old(maxLen), contentType, record)
    {
      if contentType == RecordLayer.RT_APPLICATION_DATA {
        return if nullCipher then Failed(UnexpectedMessage) else Discarded;
      }
      if contentType == RecordLayer.RT_CHANGE_CIPHER_SPEC {
        if !nullCipher {
          return Failed(UnexpectedMessage);
        }
        if |record| != 1 || record[0] != 1 {
          return Failed(IllegalParameter);
        }
        hasChangeCipherSpec := true;
        return Opened;
      }
      if contentType != RecordLayer.RT_HANDSHAKE {
        return Failed(UnexpectedMessage);
      }
      ReceiveAllKeepsEra(State(), maxLen, record);
      var o := OpenFragments(record);
      return if o.Rejected? then Failed(o.alert) else Opened;
    }

    /** Consumes a ChangeCipherSpec, opening one more record when none is pending. */
    method OpenChangeCipherSpec(contentType: Byte, record: seq<Byte>) returns (outcome: OpenOutcome)
      requires Valid()
      modifies repr
      ensures Valid() && fresh(repr - old(repr))
      ensures old(hasChangeCipherSpec) ==> outcome == Opened && State() == old(State()).(hasChangeCipherSpec := false)
      ensures !old(hasChangeCipherSpec) ==>
        var (o, after) := Handled(old(State()), old(nullCipher), old(maxLen), contentType, record);
        && State() == after.(hasChangeCipherSpec := false)
        && outcome == if o == Opened && !after.hasChangeCipherSpec then Discarded else o
      ensures outcome == Opened && !old(hasChangeCipherSpec) ==>
        contentType == RecordLayer.RT_CHANGE_CIPHER_SPEC && State() == old(State())
    {
      if !hasChangeCipherSpec {
        ReceiveAllKeepsFlag(State(), maxLen, record);
        outcome := OpenHandshake(contentType, record);
        if outcome != Opened {
          return;
        }
      }
      outcome := TakeChangeCipherSpec();
    }

    /** Consumes the ChangeCipherSpec that is pending, if one is. */
    method TakeChangeCipherSpec() returns (outcome: OpenOutcome)
      requires Valid()
      modifies this`hasChangeCipherSpec
      ensures Valid() && State() == RingStep(old(State()), RingEvent.TakeChangeCipherSpec)
      ensures outcome == if old(hasChangeCipherSpec) then Opened else Discarded
    {
      if hasChangeCipherSpec {
        hasChangeCipherSpec := false;
        return Opened;
      }
      return Discarded;
    }

    /** The current message once it is complete, in the form it would have had unfragmented. */
    method GetMessage() returns (out: Option<SslMessage>)
      requires Valid()
      modifies this`hasMessage
      ensures Valid() && State() == RingStep(old(State()), RingEvent.GetMessage)
      ensures out.Some? <==> State().CurrentComplete()
      ensures out.Some? ==>
        var p := State().Slot(readSeq).value;
        out.value == SslMessage(p.typ, p.Body(), p.Raw())
    {
      if !CurrentMessageComplete() {
        return None;
      }
      var m := incoming[readSeq % MAX_FLIGHT].Message();
      assert State().InPlace(readSeq % MAX_FLIGHT, State().Slot(readSeq).value);
      MarkGot();
      return Some(m);
    }

    method MarkGot()
      requires Valid() && State().CurrentComplete()
      modifies this`hasMessage
      ensures Valid() && State() == old(State()).(hasMessage := true)
    {
      hasMessage := true;
    }

    method NextMessage()
      requires Valid() && hasMessage
      modifies this`hasMessage, this`readSeq, this`slots, incoming
      ensures Valid() && State() == RingStep(old(State()), RingEvent.NextMessage)
    {
      NextKeepsRing(State());
      DropCurrent();
      readSeq := Successor(readSeq);
      hasMessage := false;
    }

    /** Frees the slot of the current message. */
    method DropCurrent()
      requires Shape()
      modifies this`slots, incoming
      ensures Shape() && slots == old(slots)[readSeq % MAX_FLIGHT := None]
    {
      incoming[readSeq % MAX_FLIGHT] := null;
      slots := slots[readSeq % MAX_FLIGHT := None];
    }

    method HasUnprocessedHandshakeData() returns (b: bool)
      requires Valid()
      ensures b <==> State().HasUnprocessedData()
    {
      if hasChangeCipherSpec {
        return true;
      }
      var current := readSeq % MAX_FLIGHT;
      for i := 0 to MAX_FLIGHT
        invariant forall k :: 0 <= k < i && slots[k].Some? ==> hasMessage && k == current
      {
        if hasMessage && i == current {
          assert CurrentMessageComplete();
        } else if incoming[i] != null {
          assert slots[i].Some?;
          return true;
        }
      }
      return false;
    }

    /** A read cipher change; refused while the current epoch has leftover data. */
    method SetReadState() returns (ok: bool)
      requires Valid()
      modifies this`readEpoch, this`nullCipher, this`era
      ensures Valid() && State() == RingStep(old(State()), ChangeReadCipher)
      ensures ok <==> NothingLeft(old(State()))
      ensures nullCipher == (old(nullCipher) && !ok)
    {
      LeftIsExact(State());
      var leftover := HasUnprocessedHandshakeData();
      if leftover {
        return false;
      }
      readEpoch := (readEpoch + 1) % TWO_16;
      era := era + 1;
      nullCipher := false;
      return true;
    }
  }
}
