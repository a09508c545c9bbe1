/** DTLS records: opening, sealing and the cipher changes that start a new epoch. */
module RecordLayer {
  import opened Wrappers
  import opened Bytes
  import opened Words
  import opened ReplayWindow

  const RT_HEADER_LENGTH: nat := 13
  const MAX_PLAIN_LENGTH: nat := 16384
  const MAX_ENCRYPTED_LENGTH: nat := MAX_PLAIN_LENGTH + 256 + 64
  const RT_CHANGE_CIPHER_SPEC: Byte := 20
  const RT_ALERT: Byte := 21
  const RT_HANDSHAKE: Byte := 22
  const RT_APPLICATION_DATA: Byte := 23
  const DTLS1_VERSION_MAJOR: Byte := 0xfe
  const DTLS1_VERSION: Uint16 := 0xfeff
  const TWO_16: nat := 0x1_0000
  const TWO_48: nat := 0x1_0000_0000_0000

  // ----- The wire format of a record -----

  datatype WireRecord = WireRecord(contentType: Byte, version: Uint16, sequence: seq<Byte>, body: seq<Byte>)

  function WireBytes(r: WireRecord): seq<Byte>
    requires |r.body| < TWO_16
  {
    [r.contentType] + U16Bytes(r.version) + r.sequence + U16Bytes(|r.body|) + r.body
  }

  /** Reads one record off the front of a datagram; None when the header is incomplete or malformed. */
  function ParseRecord(input: seq<Byte>): (r: Option<WireRecord>)
    ensures r.Some? ==> |r.value.sequence| == 8 && RT_HEADER_LENGTH + |r.value.body| <= |input|
  {
    if |input| < RT_HEADER_LENGTH then None else
    var length := U16(input[11..13]);
    if |input| < RT_HEADER_LENGTH + length || length > MAX_ENCRYPTED_LENGTH then None
    else Some(WireRecord(input[0], U16(input[1..3]), input[3..11],
                         input[RT_HEADER_LENGTH..RT_HEADER_LENGTH + length]))
  }

  lemma ParseWireBytes(r: WireRecord, rest: seq<Byte>)
    requires |r.sequence| == 8 && |r.body| <= MAX_ENCRYPTED_LENGTH
    ensures ParseRecord(WireBytes(r) + rest) == Some(r)
  {
    var input := WireBytes(r) + rest;
    U16RoundTrip(r.version, [0, 0]);
    U16RoundTrip(|r.body|, [0, 0]);
    assert input[1..3] == U16Bytes(r.version);
    assert input[3..11] == r.sequence;
    assert input[11..13] == U16Bytes(|r.body|);
    assert input[RT_HEADER_LENGTH..RT_HEADER_LENGTH + |r.body|] == r.body;
  }

  /** The epoch and the record number inside the eight sequence bytes, and their joint value. */
  function Epoch(sequence: seq<Byte>): Uint16
    requires |sequence| == 8
  {
    U16(sequence[..2])
  }

  function Number(sequence: seq<Byte>): (n: nat)
    requires |sequence| == 8
    ensures n < TWO_48
  {
    assert Pow256(2) == 0x1_0000 && Pow256(4) == 0x1_0000_0000 && Pow256(6) == TWO_48;
    BigEndian(sequence[2..])
  }

  function Joint(epoch: nat, number: nat): nat {
    epoch * TWO_48 + number
  }

  lemma SequenceValue(sequence: seq<Byte>)
    requires |sequence| == 8
    ensures BigEndian(sequence) == Joint(Epoch(sequence), Number(sequence)) < TWO_64
  {
    assert sequence == sequence[..2] + sequence[2..];
    BigEndianConcat(sequence[..2], sequence[2..]);
    assert Pow256(2) == 0x1_0000 && Pow256(4) == 0x1_0000_0000 && Pow256(6) == TWO_48;
    assert BigEndian(sequence[..2]) == U16(sequence[..2]) by {
      assert BigEndian(sequence[..1]) == sequence[0];
      assert sequence[..2][..1] == sequence[..1];
    }
    Width(sequence);
  }

  // ----- Runs of the reading side -----

  /** era counts the read cipher changes; received holds the numbers recorded since the last one. */
  datatype ReadState = ReadState(era: nat, received: set<nat>)

  datatype ReadEvent =
    | Arrive(epoch: nat, number: nat, authentic: bool)
    | ChangeReadCipher

  ghost predicate Accepts(st: ReadState, e: ReadEvent) {
    && e.Arrive?
    && e.epoch == st.era % TWO_16
    && !Refused(st.received, Joint(e.epoch, e.number))
    && e.authentic
  }

  ghost function ReadStep(st: ReadState, e: ReadEvent): ReadState {
    match e
    case Arrive(epoch, number, _) =>
      if Accepts(st, e) then st.(received := st.received + {Joint(epoch, number)}) else st
    case ChangeReadCipher => ReadState(st.era + 1, {})
  }

  ghost function ReadRun(run: Run<ReadEvent>): ReadState {
    match run
    case Start => ReadState(0, {})
    case Then(past, e) => ReadStep(ReadRun(past), e)
  }

  /** The (epoch, number) pairs handed up by a run, in order. */
  ghost function Accepted(run: Run<ReadEvent>): seq<(nat, nat)> {
    match run
    case Start => []
    case Then(past, e) => Accepted(past) + if Accepts(ReadRun(past), e) then [(e.epoch, e.number)] else []
  }

  /** Record numbers have six bytes. */
  predicate WellFormed(run: Run<ReadEvent>) {
    run.Then? ==> WellFormed(run.past) && (run.last.Arrive? ==> run.last.number < TWO_48)
  }

  /** No record is handed up twice while the 16-bit epoch has not wrapped: whatever was accepted lies
      in a past epoch or in the received set. */
  lemma {:induction false} NoReplay(run: Run<ReadEvent>)
    requires WellFormed(run) && ReadRun(run).era < TWO_16
    ensures forall a :: a in Accepted(run) ==>
              || a.0 < ReadRun(run).era
              || (a.0 == ReadRun(run).era && a.1 < TWO_48 && Joint(a.0, a.1) in ReadRun(run).received)
    ensures NoDup(Accepted(run))
  {
    if run.Then? {
      NoReplay(run.past);
      if Accepts(ReadRun(run.past), run.last) {
        assert (run.last.epoch, run.last.number) !in Accepted(run.past);
      }
    }
  }

  lemma {:induction false} AfterChanges(run: Run<ReadEvent>, e: ReadEvent, n: nat)
    requires e == ChangeReadCipher
    ensures var after := Repeated(run, e, n);
      && ReadRun(after).era == ReadRun(run).era + n && (n > 0 ==> ReadRun(after).received == {})
      && Accepted(after) == Accepted(run) && (WellFormed(run) ==> WellFormed(after))
  {
    if n > 0 {
      AfterChanges(run, e, n - 1);
    }
  }

  /** The bound is sharp: 2^16 changes bring an old record back. */
  lemma {:induction false} ReplayAfterWrap(e: ReadEvent, change: ReadEvent, n: nat) returns (run: Run<ReadEvent>)
    requires e == Arrive(0, 0, true) && change == ChangeReadCipher && n == TWO_16
    ensures WellFormed(run) && ReadRun(run).era == n
    ensures Accepted(run) == [(0, 0), (0, 0)]
  {
    var first := Then(Start, e);
    assert Accepted(first) == Accepted(Start) + [(0, 0)];
    AfterChanges(first, change, n);
    run := Then(Repeated(first, change, n), e);
    assert n % TWO_16 == 0 && Accepts(ReadRun(run.past), e);
  }

  // ----- The reading side -----

  const SSL_AD_CLOSE_NOTIFY: Byte := 0
  const SSL_AD_UNEXPECTED_MESSAGE: Byte := 10
  const SSL_AD_RECORD_OVERFLOW: Byte := 22
  const SSL_AD_ILLEGAL_PARAMETER: Byte := 47
  const SSL_AD_DECODE_ERROR: Byte := 50
  const SSL3_AL_WARNING: Byte := 1
  const SSL3_AL_FATAL: Byte := 2
  const MAX_WARNING_ALERTS: nat := 4

  datatype ReadShutdown = StillOpen | CloseNotified | Errored

  datatype OpenResult =
    | CloseNotify
    | Partial
    | Discard
    | Error(alert: Byte)
    | Success(contentType: Byte, plaintext: seq<Byte>)

  /** A warning, other than the one that ends the connection. */
  predicate IsWarning(body: seq<Byte>) {
    |body| == 2 && body[0] == SSL3_AL_WARNING && body[1] != SSL_AD_CLOSE_NOTIFY
  }

  /** What an alert comes to after that many warnings in a row. A fatal one is not answered. */
  function AlertSays(body: seq<Byte>, warnings: nat): OpenResult {
    if IsWarning(body) then if warnings >= MAX_WARNING_ALERTS then Error(SSL_AD_UNEXPECTED_MESSAGE) else Discard
    else if |body| != 2 then Error(SSL_AD_DECODE_ERROR)
    else if body[0] == SSL3_AL_WARNING then CloseNotify
    else if body[0] == SSL3_AL_FATAL then Error(0)
    else Error(SSL_AD_ILLEGAL_PARAMETER)
  }

  /** An alert by its two bytes: 1, 0 closes, another warning is passed over four times in a row, and anything
      else is an error. */
  lemma {:induction false} AlertIsExact(body: seq<Byte>, warnings: nat)
    ensures AlertSays(body, warnings).CloseNotify? <==> body == [1, 0]
    ensures AlertSays(body, warnings).Discard? <==> |body| == 2 && body[0] == 1 && body[1] != 0 && warnings < 4
    ensures AlertSays(body, warnings).Error? <==> AlertSays(body, warnings) == Error(
        if |body| != 2 then 50 else if body[0] == 1 then 10 else if body[0] == 2 then 0 else 47)
    ensures !AlertSays(body, warnings).Success? && !AlertSays(body, warnings).Partial?
  {
    if |body| == 2 && body[0] == 1 && body[1] == 0 {
      assert body == [1, 0];
    }
  }

  class RecordReader {
    const bitmap: Bitmap
    var readEpoch: Uint16
    var nullCipher: bool
    var recordVersion: Uint16
    var shutdown: ReadShutdown
    var warnings: nat
    ghost var era: nat

    ghost predicate Valid()
      reads this, bitmap
    {
      bitmap.Valid() && readEpoch == era % TWO_16
    }

    ghost function State(): ReadState
      reads this, bitmap
    {
      ReadState(era, bitmap.received)
    }

    constructor ()
      ensures Valid() && State() == ReadRun(Start) && shutdown == StillOpen && warnings == 0
      ensures nullCipher && recordVersion == 0xfeff && fresh(bitmap)
    {
      bitmap := new Bitmap();
      readEpoch, nullCipher, recordVersion, shutdown, warnings, era := 0, true, DTLS1_VERSION, StillOpen, 0, 0;
    }

    predicate VersionOk(version: Uint16)
      reads this
    {
      if nullCipher then version / 0x100 == DTLS1_VERSION_MAJOR else version == recordVersion
    }

    /** What a datagram means to the anti-replay logic; `plain` is the outcome of the AEAD. */
    ghost function Event(input: seq<Byte>, plain: Option<seq<Byte>>): Option<ReadEvent>
      reads this
    {
      var r := ParseRecord(input);
      if shutdown == CloseNotified || input == [] || r.None? || !VersionOk(r.value.version) then None
      else Some(Arrive(Epoch(r.value.sequence), Number(r.value.sequence),
                       plain.Some? && |plain.value| <= MAX_PLAIN_LENGTH))
    }

    /** A record that parses is looked at if and only if, under the null cipher, its version starts with the
        byte 0xfe, and afterwards if its version is that of the cipher. */
    lemma {:induction false} VersionDecides(input: seq<Byte>, plain: Option<seq<Byte>>)
      requires shutdown != CloseNotified && ParseRecord(input).Some?
      ensures Event(input, plain).Some? <==>
        if nullCipher then input[1] == 0xfe else input[1] as int * 0x100 + input[2] as int == recordVersion
    {
      assert input[1..3][0] == input[1] && input[1..3][1] == input[2];
    }

    /** An alert: the one that closes is remembered, and warnings in a row are counted. */
    method ProcessAlert(body: seq<Byte>) returns (result: OpenResult)
      modifies this`shutdown, this`warnings
      ensures result == AlertSays(body, old(warnings))
      ensures shutdown == if result.CloseNotify? then CloseNotified else old(shutdown)
      ensures warnings == old(warnings) + if IsWarning(body) then 1 else 0
    {
      if |body| != 2 {
        return Error(SSL_AD_DECODE_ERROR);
      }
      if body[0] == SSL3_AL_WARNING {
        if body[1] == SSL_AD_CLOSE_NOTIFY {
          shutdown := CloseNotified;
          return CloseNotify;
        }
        warnings := warnings + 1;
        return if warnings > MAX_WARNING_ALERTS then Error(SSL_AD_UNEXPECTED_MESSAGE) else Discard;
      }
      return Error(if body[0] == SSL3_AL_FATAL then 0 else SSL_AD_ILLEGAL_PARAMETER);
    }

    method OpenRecord(input: seq<Byte>, plain: Option<seq<Byte>>) returns (result: OpenResult, consumed: nat)
      requires Valid()
      modifies bitmap, this`shutdown, this`warnings
      ensures Valid() && consumed <= |input|
      ensures var e := old(Event(input, plain)); State() == if e.None? then old(State()) else ReadStep(old(State()), e.value)
      ensures old(Event(input, plain)).None? ==>
        && result == (if old(shutdown) == CloseNotified then CloseNotify else if input == [] then Partial else Discard)
        && consumed == (if result.Discard? then |input| else 0) && shutdown == old(shutdown) && warnings == old(warnings)
      ensures old(Event(input, plain)).Some? ==>
        var r, e := ParseRecord(input).value, old(Event(input, plain)).value;
        && consumed == RT_HEADER_LENGTH + |r.body|
        && shutdown == (if result.CloseNotify? then CloseNotified else old(shutdown))
        && if !Accepts(old(State()), e) then
             && warnings == old(warnings)
             && result == if plain.Some? && Accepts(old(State()), e.(authentic := true)) then Error(SSL_AD_RECORD_OVERFLOW)
                          else Discard
           else if r.contentType == RT_ALERT then
             && result == AlertSays(plain.value, old(warnings))
             && warnings == old(warnings) + if IsWarning(plain.value) then 1 else 0
           else result == Success(r.contentType, plain.value) && warnings == 0
      ensures old(shutdown) != CloseNotified && ParseRecord(input).Some? ==>
        var r := ParseRecord(input).value;
        var versionFits := if old(nullCipher) then input[1] == 0xfe
                           else input[1] as int * 0x100 + input[2] as int == old(recordVersion);
        && (!versionFits ==> result == Discard && consumed == |input| && State() == old(State()))
        && (versionFits && r.contentType != RT_ALERT ==>
              (result.Success? <==>
               && plain.Some? && |plain.value| <= MAX_PLAIN_LENGTH && Epoch(r.sequence) == old(readEpoch)
               && !Refused(old(bitmap.received), Joint(Epoch(r.sequence), Number(r.sequence)))))
    {
      if shutdown == CloseNotified {
        return CloseNotify, 0;
      }
      if input == [] {
        return Partial, 0;
      }
      var parsed := ParseRecord(input);
      if parsed.None? {
        return Discard, |input|;
      }
      VersionDecides(input, plain);
      if !VersionOk(parsed.value.version) {
        return Discard, |input|;
      }
      var r := parsed.value;
      consumed := RT_HEADER_LENGTH + |r.body|;
      var epoch := U16(r.sequence[..2]);
      var seqNum := ToU64BE(r.sequence);
      SequenceValue(r.sequence);
      if epoch != readEpoch || bitmap.ShouldDiscard(seqNum) {
        return Discard, consumed;
      }
      if plain.None? {
        return Discard, consumed;
      }
      if |plain.value| > MAX_PLAIN_LENGTH {
        return Error(SSL_AD_RECORD_OVERFLOW), consumed;
      }
      bitmap.Record(seqNum);
      if r.contentType == RT_ALERT {
        result := ProcessAlert(plain.value);
        return;
      }
      warnings := 0;
      return Success(r.contentType, plain.value), consumed;
    }

    /** The part of a read cipher change that concerns records. */
    method ChangeCipher(version: Uint16)
      requires Valid()
      modifies this, bitmap
      ensures Valid() && State() == ReadStep(old(State()), ChangeReadCipher)
      ensures !nullCipher && recordVersion == version && shutdown == old(shutdown) && warnings == old(warnings)
    {
      readEpoch := (readEpoch + 1) % TWO_16;
      era := era + 1;
      bitmap.Clear();
      nullCipher, recordVersion := false, version;
    }
  }
}
