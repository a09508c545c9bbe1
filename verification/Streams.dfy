/** The byte streams of nanopb: one that writes to a buffer or only counts, and one that reads. */
module Streams {
  import opened Wrappers
  import opened Bytes
  import opened Words
  import opened Varints

  // ----- Writing -----

  /** The buffer with some bytes of it overwritten. */
  function Splice(buffer: seq<Byte>, at: nat, bytes: seq<Byte>): (r: seq<Byte>)
    requires at + |bytes| <= |buffer|
    ensures |r| == |buffer|
  {
    buffer[..at] + bytes + buffer[at + |bytes|..]
  }

  /** An output stream. A sizing stream has no buffer and no limit. */
  datatype Sink = Sink(sizing: bool, maxSize: nat, written: nat, at: nat, buffer: seq<Byte>) {
    predicate Valid() {
      sizing || (written <= maxSize && at + (maxSize - written) <= |buffer|)
    }

    predicate Fits(n: nat) {
      sizing || written + n <= maxSize
    }

    /** The stream after the bytes; None when there is nothing to write, or no room for all of it. */
    function Emit(bytes: Option<seq<Byte>>): Option<Sink>
      requires Valid()
    {
      if bytes.None? || !Fits(|bytes.value|) then None
      else if sizing then Some(this.(written := written + |bytes.value|))
      else Some(this.(written := written + |bytes.value|, at := at + |bytes.value|, buffer := Splice(buffer, at, bytes.value)))
    }
  }

  function Join(a: Option<seq<Byte>>, b: Option<seq<Byte>>): Option<seq<Byte>> {
    if a.None? || b.None? then None else Some(a.value + b.value)
  }

  lemma {:induction false} SpliceTwice(buffer: seq<Byte>, at: nat, a: seq<Byte>, b: seq<Byte>)
    requires at + |a| + |b| <= |buffer|
    ensures Splice(Splice(buffer, at, a), at + |a|, b) == Splice(buffer, at, a + b)
  {
  }

  /** Writing one after the other is writing both. */
  lemma {:induction false} EmitBoth(s: Sink, a: Option<seq<Byte>>, b: Option<seq<Byte>>)
    requires s.Valid()
    ensures s.Emit(a).None? ==> s.Emit(Join(a, b)).None?
    ensures s.Emit(a).Some? ==> s.Emit(a).value.Valid() && s.Emit(Join(a, b)) == s.Emit(a).value.Emit(b)
  {
    if a.Some? && b.Some? && s.Fits(|a.value| + |b.value|) && !s.sizing {
      SpliceTwice(s.buffer, s.at, a.value, b.value);
    }
  }

  lemma {:induction false} EmitNothing(s: Sink)
    requires s.Valid()
    ensures s.Emit(Some([])) == Some(s)
  {
    if !s.sizing {
      assert Splice(s.buffer, s.at, []) == s.buffer;
    }
  }

  method CopyInto(buffer: array<Byte>, at: nat, bytes: seq<Byte>)
    requires at + |bytes| <= buffer.Length
    modifies buffer
    ensures buffer[..] == Splice(old(buffer[..]), at, bytes)
  {
    for i := 0 to |bytes|
      invariant forall j :: 0 <= j < i ==> buffer[at + j] == bytes[j]
      invariant forall j :: 0 <= j < buffer.Length && !(at <= j < at + i) ==> buffer[j] == old(buffer[j])
    {
      buffer[at + i] := bytes[i];
    }
  }

  class OStream {
    const sizing: bool
    const maxSize: nat
    const buffer: array<Byte>
    var written: nat
    var at: nat

    constructor (sizing: bool, buffer: array<Byte>, maxSize: nat, at: nat)
      ensures State() == Sink(sizing, maxSize, 0, at, buffer[..]) && this.buffer == buffer
    {
      this.sizing, this.buffer, this.maxSize, this.at, written := sizing, buffer, maxSize, at, 0;
    }

    function State(): Sink
      reads this, buffer
    {
      Sink(sizing, maxSize, written, at, buffer[..])
    }

    /** Writes all the bytes, or nothing when they do not fit. */
    method Write(bytes: seq<Byte>) returns (ok: bool)
      requires State().Valid()
      modifies this, buffer
      ensures ok <==> old(State()).Emit(Some(bytes)).Some?
      ensures ok ==> Some(State()) == old(State()).Emit(Some(bytes)) && State().Valid()
    {
      if !sizing {
        if written + |bytes| > maxSize {
          return false;
        }
        CopyInto(buffer, at, bytes);
        at := at + |bytes|;
      }
      written := written + |bytes|;
      return true;
    }

    /** Counts bytes on a sizing stream without having them. */
    method Count(bytes: nat, ghost counted: seq<Byte>)
      requires State().Valid() && sizing && bytes == |counted|
      modifies this
      ensures Some(State()) == old(State()).Emit(Some(counted)) && State().Valid()
    {
      written := written + bytes;
    }

    method EncodeVarint(value: Word) returns (ok: bool)
      requires State().Valid()
      modifies this, buffer
      ensures ok <==> old(State()).Emit(Some(Varint(value))).Some?
      ensures ok ==> Some(State()) == old(State()).Emit(Some(Varint(value))) && State().Valid()
    {
      if value <= 0x7f {
        ok := Write([value]);
        return;
      }
      var bytes := new Byte[10](_ => 0);
      var i := FillVarint(bytes, value);
      ok := Write(bytes[..i]);
    }
  }

  /** Seven bits at a time into a buffer of ten bytes, then the top bit of the last one cleared. */
  method FillVarint(bytes: array<Byte>, value: Word) returns (i: nat)
    requires bytes.Length == 10 && value > 0
    modifies bytes
    ensures i <= 10 && bytes[..i] == Varint(value)
  {
    i := 0;
    var left: nat := value;
    Pow128Ten();
    assert [] + Varint(value) == Varint(value) && bytes[..0] == [];
    while left > 0
      invariant i <= 10 && left < Pow128(10 - i) && Filling(value, bytes[..i], left)
      decreases left
    {
      FillOne(value, bytes[..i], left);
      ghost var before := bytes[..i];
      bytes[i] := left % 128 + 128;
      assert bytes[..i + 1] == before + [left % 128 + 128];
      left := left / 128;
      i := i + 1;
    }
    bytes[i - 1] := bytes[i - 1] - 128;
    assert bytes[..i] == bytes[..i - 1] + [bytes[i - 1]];
  }

  /** What is in the buffer and what is left make up the varint. */
  predicate Filling(value: Word, done: seq<Byte>, left: nat) {
    if left > 0 then done + Varint(left) == Varint(value)
    else |done| > 0 && done[|done| - 1] >= 128 && done[..|done| - 1] + [done[|done| - 1] - 128] == Varint(value)
  }

  lemma {:induction false} FillOne(value: Word, done: seq<Byte>, left: nat)
    requires left > 0 && Filling(value, done, left)
    ensures Filling(value, done + [left % 128 + 128], left / 128)
  {
    var b := left % 128 + 128;
    assert (done + [b])[..|done|] == done;
    if left >= 128 {
      assert Varint(left) == [b] + Varint(left / 128);
      assert done + ([b] + Varint(left / 128)) == (done + [b]) + Varint(left / 128);
    }
  }

  // ----- Reading -----

  class IStream {
    const data: seq<Byte>
    var at: nat
    var left: nat

    constructor (data: seq<Byte>)
      ensures Valid() && this.data == data && Rest() == data && at == 0
    {
      this.data, at, left := data, 0, |data|;
    }

    predicate Valid()
      reads this
    {
      at + left <= |data|
    }

    /** What is still to be read. */
    function Rest(): seq<Byte>
      requires Valid()
      reads this
    {
      data[at..at + left]
    }

    /** The end of what may be read; reading leaves it where it is. */
    function Limit(): nat
      reads this
    {
      at + left
    }

    method ReadByte() returns (b: Option<Byte>)
      requires Valid()
      modifies this
      ensures Valid() && Limit() == old(Limit())
      ensures old(Rest()) == [] ==> b.None? && Rest() == old(Rest())
      ensures old(Rest()) != [] ==> b == Some(old(Rest())[0]) && Rest() == old(Rest())[1..]
    {
      if left == 0 {
        return None;
      }
      b := Some(data[at]);
      at, left := at + 1, left - 1;
    }

    method Read(count: nat) returns (bytes: Option<seq<Byte>>)
      requires Valid()
      modifies this
      ensures Valid() && Limit() == old(Limit())
      ensures count > |old(Rest())| ==> bytes.None? && Rest() == old(Rest())
      ensures count <= |old(Rest())| ==> bytes == Some(old(Rest())[..count]) && Rest() == old(Rest())[count..]
    {
      if left < count {
        return None;
      }
      bytes := Some(data[at..at + count]);
      assert data[at..at + left][..count] == data[at..at + count];
      assert data[at..at + left][count..] == data[at + count..at + left];
      at, left := at + count, left - count;
    }

    /** The 64-bit varint, by shift and or. */
    method DecodeVarint() returns (value: Option<Word>)
      requires Valid()
      modifies this
      ensures Valid() && Limit() == old(Limit())
      ensures match ReadVarint(old(Rest()))
        case None => value.None?
        case Some((v, rest)) => value == Some(v) && Rest() == rest
      ensures Rest() == VarintEnd(old(Rest()), 0)
    {
      var result: Word, bitpos := 0, 0;
      ghost var n: nat, low: nat := 0, 0;
      ghost var start := Rest();
      PartlyAtStart(start);
      while true
        invariant Valid() && Limit() == old(Limit())
        invariant n <= 10 && bitpos == 7 * n && Partly(start, Rest(), n, low, result)
        invariant VarintEnd(start, 0) == VarintEnd(Rest(), n)
        decreases left
      {
        if bitpos >= 64 {
          return None;
        }
        ghost var rest := Rest();
        var b := ReadByte();
        if b.None? {
          return None;
        }
        low := PartlyStep(start, rest, n, low, result);
        result := Or(result, Shl(Low7(b.value), bitpos));
        n, bitpos := n + 1, bitpos + 7;
        if b.value < 0x80 {
          return Some(result);
        }
      }
    }

    /** The 32-bit varint. `eof` says that there was nothing to read at all. */
    method DecodeVarint32() returns (value: Option<Word>, eof: bool)
      requires Valid()
      modifies this
      ensures Valid() && Limit() == old(Limit())
      ensures eof <==> old(Rest()) == []
      ensures match Read32(old(Rest()))
        case None => value.None?
        case Some((v, rest)) => value == Some(v) && Rest() == rest
    {
      eof := left == 0;
      var b := ReadByte();
      if b.None? {
        return None, eof;
      }
      if b.value < 0x80 {
        return Some(b.value as int), eof;
      }
      var bitpos, result: Word := 7, Low7(b.value);
      while true
        invariant Valid() && Limit() == old(Limit()) && bitpos < 0x100
        invariant Read32(old(Rest())) == Read32More(Rest(), result, bitpos)
        decreases left
      {
        b := ReadByte();
        if b.None? {
          return None, eof;
        }
        var now := Take32(result, bitpos, b.value);
        if now.None? {
          return None, eof;
        }
        result, bitpos := now.value, NextBit(bitpos);
        if b.value < 0x80 {
          if bitpos == 35 && Low7(b.value) >= 16 {
            return None, eof;
          }
          return Some(result), eof;
        }
      }
    }
  }

  /** After n groups that make up `low`, the rest of the number is still to be read. */
  ghost predicate Partly(start: seq<Byte>, rest: seq<Byte>, n: nat, low: nat, result: Word) {
    && low < Pow2(7 * n) && result == low % TWO_64
    && match ReadGroups(rest, n)
       case None => ReadGroups(start, 0).None?
       case Some((high, end)) => ReadGroups(start, 0) == Some((low + high * Pow2(7 * n), end))
  }

  lemma {:induction false} PartlyAtStart(start: seq<Byte>)
    ensures Partly(start, start, 0, 0, 0)
  {
  }

  lemma {:induction false} PartlyStep(start: seq<Byte>, rest: seq<Byte>, n: nat, low: nat, result: Word)
    returns (next: nat)
    requires n < 10 && rest != [] && Partly(start, rest, n, low, result)
    ensures Or(result, Shl(Low7(rest[0]), 7 * n)) < TWO_64
    ensures rest[0] >= 128 ==> Partly(start, rest[1..], n + 1, next, Or(result, Shl(Low7(rest[0]), 7 * n)))
    ensures rest[0] < 128 ==> ReadVarint(start) == Some((Or(result, Shl(Low7(rest[0]), 7 * n)), rest[1..]))
  {
    next := ShiftIn(low, result, Low7(rest[0]), n);
    if rest[0] >= 128 {
      PartlyOn(start, rest, n, low, next);
      assert 7 * (n + 1) == 7 * n + 7;
    } else {
      PartlyEnd(start, rest, n, low, next);
    }
  }

  lemma {:induction false} PartlyEnd(start: seq<Byte>, rest: seq<Byte>, n: nat, low: nat, next: nat)
    requires n < 10 && rest != [] && rest[0] < 128 && next == low + Low7(rest[0]) * Pow2(7 * n)
    requires match ReadGroups(rest, n)
      case None => ReadGroups(start, 0).None?
      case Some((high, end)) => ReadGroups(start, 0) == Some((low + high * Pow2(7 * n), end))
    ensures ReadGroups(start, 0) == Some((next, rest[1..]))
  {
    assert ReadGroups(rest, n) == Some((Low7(rest[0]) as nat, rest[1..]));
  }

  lemma {:induction false} PartlyOn(start: seq<Byte>, rest: seq<Byte>, n: nat, low: nat, next: nat)
    requires n < 10 && rest != [] && rest[0] >= 128 && next == low + Low7(rest[0]) * Pow2(7 * n)
    requires match ReadGroups(rest, n)
      case None => ReadGroups(start, 0).None?
      case Some((high, end)) => ReadGroups(start, 0) == Some((low + high * Pow2(7 * n), end))
    ensures match ReadGroups(rest[1..], n + 1)
      case None => ReadGroups(start, 0).None?
      case Some((high, end)) => ReadGroups(start, 0) == Some((next + high * Pow2(7 * n + 7), end))
  {
    if ReadGroups(rest[1..], n + 1).Some? {
      var high := ReadGroups(rest[1..], n + 1).value.0;
      var v := low + (Low7(rest[0]) + 128 * high) * Pow2(7 * n);
      NextGroup(low, Low7(rest[0]), high, 7 * n, v);
    }
  }

  /** Or-ing in the next group adds it, up to the 64 bits. */
  lemma {:induction false} ShiftIn(low: nat, result: Word, x: nat, n: nat) returns (next: nat)
    requires n < 10 && low < Pow2(7 * n) && result == low % TWO_64 && x < 128
    ensures next == low + x * Pow2(7 * n) < Pow2(7 * n + 7)
    ensures Or(result, Shl(x, 7 * n)) == next % TWO_64
  {
    LowIsResult(low, result, 7 * n);
    next := Grows(low, x, 7 * n);
    if n < 9 {
      OrGroup(low, x, 7 * n);
      SmallMod64(next);
    } else {
      OrTop(low, x, 7 * n);
    }
  }

  lemma {:induction false} LowIsResult(low: nat, result: Word, n: nat)
    requires n <= 63 && low < Pow2(n) && result == low % TWO_64
    ensures result == low
  {
    Pow2Grows(n, 63);
    Pow2Constants();
    SmallMod64(low);
  }

  lemma {:induction false} SmallMod64(z: nat)
    requires z < TWO_64
    ensures z % TWO_64 == z
  {
  }

  lemma {:induction false} Grows(low: nat, x: nat, n: nat) returns (next: nat)
    requires low < Pow2(n) && x < 128
    ensures next == low + x * Pow2(n) < Pow2(n + 7)
  {
    Pow2Sum(7, n);
    assert Pow2(7) == 128;
    next := low + x * Pow2(n);
    LessTimes(low, x, Pow2(n), 128);
  }
}
