/** Sealing DTLS records: record numbers on the writing side and the bytes that go out. */
module RecordSealing {
  import opened Wrappers
  import opened Bytes
  import opened RecordLayer

  // ----- Runs of the writing side -----

  /** era counts the write cipher changes; the two counters number the records of the current and
      of the previous epoch. */
  datatype WriteState = WriteState(era: nat, current: nat, previous: nat)

  /** A seal the AEAD accepted, or a write cipher change. `fits` is false when the ciphertext is too
      long for its 16-bit length, which the source finds out after counting the record. */
  datatype WriteEvent =
    | Seal(usePrevious: bool, fits: bool)
    | ChangeWriteCipher

  /** A seal may only ask for the previous epoch when the 16-bit epoch is not zero. */
  predicate Allowed(st: WriteState, e: WriteEvent) {
    e.Seal? && e.usePrevious ==> st.era % TWO_16 >= 1
  }

  function Counter(st: WriteState, usePrevious: bool): nat {
    if usePrevious then st.previous else st.current
  }

  /** The six counter bytes wrap to zero, and that seal fails. */
  predicate Overflows(st: WriteState, e: WriteEvent) {
    e.Seal? && NextNumber(Counter(st, e.usePrevious)) == 0
  }

  /** Six bytes count modulo 2^48. */
  function NextNumber(n: nat): nat {
    if n + 1 == TWO_48 then 0 else n + 1
  }

  function WriteStep(st: WriteState, e: WriteEvent): WriteState {
    match e
    case Seal(true, _) => st.(previous := NextNumber(st.previous))
    case Seal(false, _) => st.(current := NextNumber(st.current))
    case ChangeWriteCipher => WriteState(st.era + 1, 0, st.current)
  }

  function WriteRun(run: Run<WriteEvent>): WriteState {
    match run
    case Start => WriteState(0, 0, 0)
    case Then(past, e) => WriteStep(WriteRun(past), e)
  }

  function NumberOf(st: WriteState, usePrevious: bool): (int, nat) {
    (st.era % TWO_16 - (if usePrevious then 1 else 0), Counter(st, usePrevious))
  }

  predicate Emits(st: WriteState, e: WriteEvent) {
    e.Seal? && e.fits && !Overflows(st, e)
  }

  /** The (epoch, number) pairs of the records sealed successfully by a run, in order. */
  function SealedNumbers(run: Run<WriteEvent>): seq<(int, nat)> {
    match run
    case Start => []
    case Then(past, e) =>
      SealedNumbers(past) + if Emits(WriteRun(past), e) then [NumberOf(WriteRun(past), e.usePrevious)] else []
  }

  predicate AllowedRun(run: Run<WriteEvent>) {
    run.Then? ==> AllowedRun(run.past) && Allowed(WriteRun(run.past), run.last)
  }

  predicate NoOverflow(run: Run<WriteEvent>) {
    run.Then? ==> NoOverflow(run.past) && !Overflows(WriteRun(run.past), run.last)
  }

  /** How many seals came to nothing after the AEAD: the counter wrapped, or the record was too long. */
  ghost function Wasted(run: Run<WriteEvent>): nat {
    match run
    case Start => 0
    case Then(past, e) => Wasted(past) + if e.Seal? && !Emits(WriteRun(past), e) then 1 else 0
  }

  ghost predicate BelowCounters(st: WriteState, used: (int, nat)) {
    || used.0 < st.era - 1
    || (used.0 == st.era - 1 && used.1 < st.previous)
    || (used.0 == st.era && used.1 < st.current)
  }

  /** No two records carry the same (epoch, number), up to the first counter overflow and while the
      16-bit epoch has not wrapped: every number used lies below its counter. */
  lemma {:induction false} NumbersAreUnique(run: Run<WriteEvent>)
    requires AllowedRun(run) && NoOverflow(run) && WriteRun(run).era < TWO_16
    ensures WriteRun(run).current < TWO_48 && WriteRun(run).previous < TWO_48
    ensures forall u :: u in SealedNumbers(run) ==> BelowCounters(WriteRun(run), u)
    ensures NoDup(SealedNumbers(run))
  {
    if run.Then? {
      NumbersAreUnique(run.past);
      if run.last.Seal? {
        assert NumberOf(WriteRun(run.past), run.last.usePrevious) !in SealedNumbers(run.past);
      }
    }
  }

  lemma {:induction false} ManySeals(e: WriteEvent, n: nat)
    requires e == Seal(false, true) && 0 < n < TWO_48
    ensures var run := Repeated(Start, e, n);
      && WriteRun(run) == WriteState(0, n, 0)
      && AllowedRun(run) && NoOverflow(run)
      && SealedNumbers(run) != [] && SealedNumbers(run)[0] == (0, 0)
  {
    var past := Repeated(Start, e, n - 1);
    if n == 1 {
      assert SealedNumbers(Then(past, e)) == SealedNumbers(past) + [(0, 0)];
    } else {
      ManySeals(e, n - 1);
    }
  }

  /** The overflow condition is sharp: the seal after it reuses a number. */
  lemma ReuseAfterOverflow(e: WriteEvent, n: nat)
    requires e == Seal(false, true) && n == TWO_48 + 1
    ensures var run := Repeated(Start, e, n);
      AllowedRun(run) && !NoOverflow(run) && WriteRun(run).era == 0 && !NoDup(SealedNumbers(run))
  {
    var last := Repeated(Start, e, n - 2);
    ManySeals(e, n - 2);
    assert !Emits(WriteRun(last), e);
    var log := SealedNumbers(last);
    assert SealedNumbers(Repeated(Start, e, n)) == log + [(0, 0)];
    assert SealedNumbers(Repeated(Start, e, n))[0] == SealedNumbers(Repeated(Start, e, n))[|log|];
  }

  lemma {:induction false} AfterWriteChanges(run: Run<WriteEvent>, n: nat)
    ensures var after := Repeated(run, ChangeWriteCipher, n);
      && WriteRun(after).era == WriteRun(run).era + n && (n > 0 ==> WriteRun(after).current == 0)
      && SealedNumbers(after) == SealedNumbers(run)
      && (AllowedRun(run) ==> AllowedRun(after)) && (NoOverflow(run) ==> NoOverflow(after))
  {
    if n > 0 {
      AfterWriteChanges(run, n - 1);
    }
  }

  /** The bound on the changes is sharp as well: after 2^16 of them the numbers come round. */
  lemma {:induction false} ReuseAfterEpochWrap(e: WriteEvent, n: nat) returns (run: Run<WriteEvent>)
    requires e == Seal(false, true) && n == TWO_16
    ensures AllowedRun(run) && NoOverflow(run) && WriteRun(run).era == n
    ensures SealedNumbers(run) == [(0, 0), (0, 0)]
  {
    var first := Then(Start, e);
    assert SealedNumbers(first) == SealedNumbers(Start) + [(0, 0)];
    AfterWriteChanges(first, n);
    run := Then(Repeated(first, ChangeWriteCipher, n), e);
    assert WriteRun(run.past) == WriteState(n, 0, WriteRun(run.past).previous) && n % TWO_16 == 0;
    assert SealedNumbers(run) == SealedNumbers(run.past) + [(0, 0)];
  }

  // ----- The writing side -----

  /** What the record layer knows of an AEAD: how far it can grow a record. `key` stands for its key. */
  datatype Aead = Aead(explicitNonceLen: nat, maxOverhead: nat, recordVersion: Uint16, key: nat)

  type SealAead = a: Aead | a.explicitNonceLen <= a.maxOverhead witness Aead(0, 0, 0, 0)

  /** Adds one to a big-endian counter in place; false when it wraps to zero. */
  method SequenceUpdate(counter: array<Byte>, start: nat) returns (ok: bool)
    requires start < counter.Length
    modifies counter
    ensures counter[..start] == old(counter[..start])
    ensures var width := Pow256(counter.Length - start);
      && BigEndian(counter[start..]) == (if ok then BigEndian(old(counter[start..])) + 1 else 0)
      && (ok <==> BigEndian(old(counter[start..])) + 1 < width)
  {
    var i := counter.Length;
    ghost var was := counter[..];
    while i > start
      invariant start <= i <= counter.Length
      invariant counter[..i] == was[..i]
      invariant forall k :: i <= k < counter.Length ==> was[k] == 0xff && counter[k] == 0
    {
      i := i - 1;
      counter[i] := (counter[i] as int + 1) % 0x100;
      if counter[i] != 0 {
        CounterAdds(was[start..], counter[start..], i - start);
        return true;
      }
    }
    AllOnes(was[start..]);
    AllZero(counter[start..]);
    return false;
  }

  lemma {:induction false} AllOnes(bs: seq<Byte>)
    requires forall k :: 0 <= k < |bs| ==> bs[k] == 0xff
    ensures BigEndian(bs) == Pow256(|bs|) - 1
  {
    if bs != [] {
      AllOnes(bs[..|bs| - 1]);
    }
  }

  lemma {:induction false} AllZero(bs: seq<Byte>)
    requires forall k :: 0 <= k < |bs| ==> bs[k] == 0
    ensures BigEndian(bs) == 0
  {
    if bs != [] {
      AllZero(bs[..|bs| - 1]);
    }
  }

  /** Adding one at i after a tail of 0xff bytes turned to zero adds one to the whole number. */
  lemma {:induction false} CounterAdds(a: seq<Byte>, b: seq<Byte>, i: nat)
    requires |a| == |b| && i < |a| && a[..i] == b[..i] && b[i] as int == a[i] as int + 1
    requires forall k :: i < k < |a| ==> a[k] == 0xff && b[k] == 0
    ensures BigEndian(b) == BigEndian(a) + 1
  {
    var n := |a| - 1;
    if i < n {
      assert a[..n][..i] == a[..i] && b[..n][..i] == b[..i];
      CounterAdds(a[..n], b[..n], i);
    }
  }

  /** A record as it leaves: what was sealed and under which key, its sequence bytes and its ciphertext. */
  datatype Record = Record(
    contentType: Byte, version: Uint16, sequence: seq<Byte>, key: nat, plaintext: seq<Byte>, ciphertext: seq<Byte>)
  {
    predicate Valid() {
      |sequence| == 8 && |ciphertext| < TWO_16
    }

    function Bytes(): seq<Byte>
      requires Valid()
    {
      WireBytes(WireRecord(contentType, version, sequence, ciphertext))
    }

    function WireLength(): nat {
      RT_HEADER_LENGTH + |ciphertext|
    }
  }

  function TotalLength(rs: seq<Record>): nat {
    if rs == [] then 0 else TotalLength(rs[..|rs| - 1]) + rs[|rs| - 1].WireLength()
  }

  /** A sealed record is read back by the receiver's parser as it was written. */
  lemma SealedRecordParses(r: Record, rest: seq<Byte>)
    requires r.Valid() && |r.ciphertext| <= MAX_ENCRYPTED_LENGTH
    ensures ParseRecord(r.Bytes() + rest) == Some(WireRecord(r.contentType, r.version, r.sequence, r.ciphertext))
    ensures |r.Bytes()| == r.WireLength()
  {
    ParseWireBytes(WireRecord(r.contentType, r.version, r.sequence, r.ciphertext), rest);
  }

  lemma SequenceParts(epoch: Uint16, counter: seq<Byte>)
    requires |counter| == 6
    ensures Epoch(U16Bytes(epoch) + counter) == epoch
    ensures Number(U16Bytes(epoch) + counter) == BigEndian(counter)
    ensures Pow256(6) == TWO_48
  {
    var sequence := U16Bytes(epoch) + counter;
    assert sequence[..2] == U16Bytes(epoch) && sequence[2..] == counter;
    U16RoundTrip(epoch, [0, 0]);
    assert Pow256(2) == 0x1_0000 && Pow256(4) == 0x1_0000_0000;
  }

  predicate NumberedBy(r: Record, used: (int, nat)) {
    r.Valid() && Epoch(r.sequence) == used.0 && Number(r.sequence) == used.1
  }

  /** The run so far explains the counters and the records sealed. */
  ghost predicate Logged(run: Run<WriteEvent>, st: WriteState, records: seq<Record>) {
    && st == WriteRun(run)
    && AllowedRun(run)
    && |records| == |SealedNumbers(run)|
    && forall i :: 0 <= i < |records| ==> NumberedBy(records[i], SealedNumbers(run)[i])
  }

  /** The records sealed by a run that did not overflow differ pairwise in their eight sequence bytes. */
  lemma {:induction false} RecordsAreUnique(run: Run<WriteEvent>, st: WriteState, records: seq<Record>, i: nat, j: nat)
    requires Logged(run, st, records) && NoOverflow(run) && st.era < TWO_16
    requires i < j < |records|
    ensures records[i].sequence != records[j].sequence
  {
    NumbersAreUnique(run);
    assert NumberedBy(records[i], SealedNumbers(run)[i]) && NumberedBy(records[j], SealedNumbers(run)[j]);
    assert SealedNumbers(run)[i] != SealedNumbers(run)[j];
  }

  lemma {:induction false} LogSeal(run: Run<WriteEvent>, st: WriteState, records: seq<Record>, e: WriteEvent, r: Option<Record>)
    requires Logged(run, st, records) && Allowed(st, e)
    requires r.Some? <==> Emits(st, e)
    requires r.Some? ==> NumberedBy(r.value, NumberOf(st, e.usePrevious))
    ensures Logged(Then(run, e), WriteStep(st, e), if r.Some? then records + [r.value] else records)
  {
  }

  /** The 16-bit epoch keeps step with the number of changes. */
  lemma EpochStep(epoch: Uint16, era: nat)
    requires epoch == era % TWO_16
    ensures (epoch + 1) % TWO_16 == (era + 1) % TWO_16
  {
  }

  /** The eight sequence bytes of one epoch; the last six count its records. */
  class SequenceNumber {
    const bytes: array<Byte>
    ghost var value: nat

    ghost predicate Valid()
      reads this, bytes
    {
      bytes.Length == 8 && value == BigEndian(bytes[2..])
    }

    constructor ()
      ensures Valid() && value == 0 && fresh(bytes)
    {
      bytes := new Byte[8](_ => 0);
      value := 0;
      new;
      AllZero(bytes[2..]);
    }

    method Update() returns (ok: bool)
      requires Valid()
      modifies this, bytes
      ensures Valid() && value == NextNumber(old(value))
      ensures ok <==> value != 0
    {
      SequenceParts(0, bytes[2..]);
      ok := SequenceUpdate(bytes, 2);
      value := NextNumber(value);
    }

    method CopyFrom(other: SequenceNumber)
      requires Valid() && other.Valid() && other.bytes != bytes
      modifies this, bytes
      ensures Valid() && value == other.value
    {
      forall i | 0 <= i < 8 {
        bytes[i] := other.bytes[i];
      }
      assert bytes[2..] == old(other.bytes[2..]);
      value := other.value;
    }

    method Reset()
      requires Valid()
      modifies this, bytes
      ensures Valid() && value == 0
    {
      forall i | 0 <= i < 8 {
        bytes[i] := 0;
      }
      AllZero(bytes[2..]);
      value := 0;
    }

    /** The sequence bytes of a record of the given epoch. */
    method WithEpoch(epoch: Uint16) returns (sequence: seq<Byte>)
      requires Valid()
      ensures |sequence| == 8 && Epoch(sequence) == epoch && Number(sequence) == value
    {
      sequence := U16Bytes(epoch) + bytes[2..];
      SequenceParts(epoch, bytes[2..]);
    }
  }

  class RecordWriter {
    var writeEpoch: Uint16
    const writeSequence: SequenceNumber
    const lastWriteSequence: SequenceNumber
    var aead: SealAead
    var lastAead: SealAead
    ghost var era: nat
    ghost var run: Run<WriteEvent>
    ghost var records: seq<Record>
    ghost var troubles: nat

    ghost function Repr(): set<object>
    {
      {this, writeSequence, writeSequence.bytes, lastWriteSequence, lastWriteSequence.bytes}
    }

    ghost predicate Valid()
      reads Repr()
    {
      && writeSequence != lastWriteSequence && writeSequence.bytes != lastWriteSequence.bytes
      && writeSequence.Valid() && lastWriteSequence.Valid()
      && writeEpoch == era % TWO_16
      && Logged(run, State(), records)
    }

    ghost function State(): WriteState
      reads this, writeSequence, lastWriteSequence
    {
      WriteState(era, writeSequence.value, lastWriteSequence.value)
    }

    constructor (nullAead: SealAead)
      ensures Valid() && run == Start && records == [] && troubles == 0 && writeEpoch == 0
      ensures fresh(Repr()) && aead == lastAead == nullAead
    {
      writeEpoch, aead, lastAead := 0, nullAead, nullAead;
      writeSequence := new SequenceNumber();
      lastWriteSequence := new SequenceNumber();
      era, run, records, troubles := 0, Start, [], 0;
    }

    function Aead(usePrevious: bool): SealAead
      reads this
    {
      if usePrevious then lastAead else aead
    }

    function MaxSealOverhead(usePrevious: bool): nat
      reads this
    {
      RT_HEADER_LENGTH + Aead(usePrevious).maxOverhead
    }

    function SealPrefixLen(usePrevious: bool): nat
      reads this
    {
      RT_HEADER_LENGTH + Aead(usePrevious).explicitNonceLen
    }

    /** The AEAD: it may fail, and grows a record by its maximum overhead at most. */
    method AeadSeal(a: SealAead, plaintext: seq<Byte>, maxOut: nat) returns (ciphertext: Option<seq<Byte>>)
      modifies this`troubles
      ensures troubles == old(troubles) + if ciphertext.None? then 1 else 0
      ensures ciphertext.Some? ==>
        |ciphertext.value| <= maxOut && |ciphertext.value| <= |plaintext| + a.maxOverhead
    {
      var c: seq<Byte> := *;
      if |c| <= maxOut && |c| <= |plaintext| + a.maxOverhead {
        return Some(c);
      }
      troubles := troubles + 1;
      return None;
    }

    /** Seals one record into at most maxOut bytes. Only a success adds to `records`; every seal the
        AEAD accepted moves the counter. The record is sealed under the key of its epoch, and bears the
        version of the current cipher also in the previous epoch. */
    method SealRecord(contentType: Byte, plaintext: seq<Byte>, maxOut: nat, usePrevious: bool)
      returns (r: Option<Record>)
      requires Valid() && (usePrevious ==> writeEpoch >= 1)
      modifies this`run, this`records, this`troubles, writeSequence, writeSequence.bytes, lastWriteSequence,
               lastWriteSequence.bytes
      ensures Valid()
      ensures run == old(run) || exists fits :: run == Then(old(run), Seal(usePrevious, fits))
      ensures r.None? ==>
        && records == old(records) && (run == old(run) || Wasted(run) == Wasted(old(run)) + 1)
        && (maxOut >= RT_HEADER_LENGTH ==> troubles == old(troubles) + 1)
      ensures r.Some? ==>
        && troubles == old(troubles) && Wasted(run) == Wasted(old(run))
        && records == old(records) + [r.value] && r.value.Valid()
        && r.value.contentType == contentType && r.value.plaintext == plaintext
        && r.value.version == aead.recordVersion && r.value.key == (if usePrevious then lastAead.key else aead.key)
        && Epoch(r.value.sequence) == writeEpoch - (if usePrevious then 1 else 0)
        && r.value.WireLength() <= maxOut
        && r.value.WireLength() <= |plaintext| + MaxSealOverhead(usePrevious)
    {
      if maxOut < RT_HEADER_LENGTH {
        return None;
      }
      var sequence := NextSequence(usePrevious);
      var sealed := AeadSeal(Aead(usePrevious), plaintext, maxOut - RT_HEADER_LENGTH);
      if sealed.None? {
        return None;
      }
      r := Some(Record(contentType, aead.recordVersion, sequence, Aead(usePrevious).key, plaintext, sealed.value));
      var ok := CountRecord(usePrevious, r.value, |sealed.value| < TWO_16);
      if !ok {
        troubles := troubles + 1;
        return None;
      }
    }

    /** The sequence bytes of the next record. */
    method NextSequence(usePrevious: bool) returns (sequence: seq<Byte>)
      requires Valid() && (usePrevious ==> writeEpoch >= 1)
      ensures |sequence| == 8
      ensures (Epoch(sequence) as int, Number(sequence)) == NumberOf(State(), usePrevious)
      ensures Epoch(sequence) == writeEpoch - (if usePrevious then 1 else 0)
    {
      if usePrevious {
        sequence := lastWriteSequence.WithEpoch(writeEpoch - 1);
      } else {
        sequence := writeSequence.WithEpoch(writeEpoch);
      }
    }

    /** Moves the counter past a record the AEAD has sealed. */
    method CountRecord(usePrevious: bool, r: Record, fits: bool) returns (ok: bool)
      requires Valid() && (usePrevious ==> writeEpoch >= 1)
      requires fits ==> NumberedBy(r, NumberOf(State(), usePrevious))
      modifies this`run, this`records, writeSequence, writeSequence.bytes, lastWriteSequence, lastWriteSequence.bytes
      ensures Valid() && run == Then(old(run), Seal(usePrevious, fits))
      ensures records == if ok then old(records) + [r] else old(records)
      ensures ok <==> Emits(old(State()), Seal(usePrevious, fits))
    {
      if usePrevious {
        ok := lastWriteSequence.Update();
      } else {
        ok := writeSequence.Update();
      }
      ok := ok && fits;
      LogSeal(run, old(State()), records, Seal(usePrevious, fits), if ok then Some(r) else None);
      run := Then(run, Seal(usePrevious, fits));
      records := if ok then records + [r] else records;
    }

    /** Starts a new write epoch and keeps the state of the old one for retransmissions. */
    method ChangeCipher(newAead: SealAead)
      requires Valid()
      modifies Repr()
      ensures Valid() && run == Then(old(run), ChangeWriteCipher) && records == old(records)
      ensures aead == newAead && lastAead == old(aead) && troubles == old(troubles)
      ensures writeEpoch == (old(writeEpoch) + 1) % TWO_16
    {
      EpochStep(writeEpoch, era);
      writeEpoch := (writeEpoch + 1) % TWO_16;
      lastWriteSequence.CopyFrom(writeSequence);
      writeSequence.Reset();
      lastAead, aead, era := aead, newAead, era + 1;
      LogSeal(run, old(State()), records, ChangeWriteCipher, None);
      run := Then(run, ChangeWriteCipher);
    }
  }
}
