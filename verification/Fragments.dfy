/** DTLS handshake messages and fragments on the wire: section 4.2.2 of RFC 6347. */
module Fragments {
  import opened Wrappers
  import opened Bytes

  const HM_HEADER_LENGTH: nat := 12

  /** The 12-byte header of a fragment. */
  datatype Header = Header(typ: Byte, msgLen: Uint24, seqNo: Uint16, fragOff: Uint24, fragLen: Uint24)

  datatype Fragment = Fragment(header: Header, body: seq<Byte>)

  function HeaderBytes(h: Header): (bs: seq<Byte>)
    ensures |bs| == HM_HEADER_LENGTH
  {
    [h.typ] + U24Bytes(h.msgLen) + U16Bytes(h.seqNo) + U24Bytes(h.fragOff) + U24Bytes(h.fragLen)
  }

  function FragmentBytes(f: Fragment): seq<Byte> {
    HeaderBytes(f.header) + f.body
  }

  /** Reads one fragment off the front; None when the bytes run out. */
  function ParseFragment(bs: seq<Byte>): (r: Option<(Fragment, seq<Byte>)>)
    ensures r.Some? ==> |r.value.1| < |bs| && |r.value.0.body| == r.value.0.header.fragLen
  {
    if |bs| < HM_HEADER_LENGTH then None else
    var h := Header(bs[0], U24(bs[1..4]), U16(bs[4..6]), U24(bs[6..9]), U24(bs[9..12]));
    if |bs| < HM_HEADER_LENGTH + h.fragLen then None
    else Some((Fragment(h, bs[HM_HEADER_LENGTH..HM_HEADER_LENGTH + h.fragLen]),
               bs[HM_HEADER_LENGTH + h.fragLen..]))
  }

  lemma HeaderParts(h: Header, tail: seq<Byte>)
    ensures var bs := HeaderBytes(h) + tail;
      && bs[0] == h.typ && bs[1..4] == U24Bytes(h.msgLen) && bs[4..6] == U16Bytes(h.seqNo)
      && bs[6..9] == U24Bytes(h.fragOff) && bs[9..12] == U24Bytes(h.fragLen)
      && bs[..HM_HEADER_LENGTH] == HeaderBytes(h) && bs[HM_HEADER_LENGTH..] == tail
  {
  }

  /** Parsing inverts writing. */
  lemma ParseWritten(f: Fragment, rest: seq<Byte>)
    requires |f.body| == f.header.fragLen
    ensures ParseFragment(FragmentBytes(f) + rest) == Some((f, rest))
  {
    var h := f.header;
    assert FragmentBytes(f) + rest == HeaderBytes(h) + (f.body + rest);
    HeaderParts(h, f.body + rest);
    U24RoundTrip(h.msgLen, [0, 0, 0]);
    U24RoundTrip(h.fragOff, [0, 0, 0]);
    U24RoundTrip(h.fragLen, [0, 0, 0]);
    U16RoundTrip(h.seqNo, [0, 0]);
    var bs := FragmentBytes(f) + rest;
    assert bs[HM_HEADER_LENGTH..HM_HEADER_LENGTH + h.fragLen] == bs[HM_HEADER_LENGTH..][..h.fragLen];
  }

  /** Writing inverts parsing. */
  lemma WriteParsed(bs: seq<Byte>)
    requires ParseFragment(bs).Some?
    ensures bs == FragmentBytes(ParseFragment(bs).value.0) + ParseFragment(bs).value.1
  {
    var (f, rest) := ParseFragment(bs).value;
    U24RoundTrip(0, bs[1..4]);
    U16RoundTrip(0, bs[4..6]);
    U24RoundTrip(0, bs[6..9]);
    U24RoundTrip(0, bs[9..12]);
    assert HeaderBytes(f.header) == [bs[0]] + bs[1..4] + bs[4..6] + bs[6..9] + bs[9..12] == bs[..12];
  }

  // ----- Messages -----

  /** A handshake message before fragmentation. */
  datatype Message = Message(typ: Byte, body: seq<Byte>)

  /** The message as one fragment, the form in which the source keeps and hashes it. */
  function Whole(m: Message, seqNo: Uint16): Fragment
    requires |m.body| < 0x100_0000
  {
    Fragment(Header(m.typ, |m.body|, seqNo, 0, |m.body|), m.body)
  }

  /** The stretch of the message that starts at off. */
  function Slice(m: Message, seqNo: Uint16, off: nat, len: nat): Fragment
    requires off + len <= |m.body| < 0x100_0000
  {
    Fragment(Header(m.typ, |m.body|, seqNo, off, len), m.body[off..off + len])
  }

  /** What the message builder leaves behind: the total length still zero, the fragment length set. */
  function InitMessage(typ: Byte, seqNo: Uint16, body: seq<Byte>): seq<Byte>
    requires |body| < 0x100_0000
  {
    [typ] + U24Bytes(0) + U16Bytes(seqNo) + U24Bytes(0) + U24Bytes(|body|) + body
  }

  lemma {:induction false} LengthMoved(x: seq<Byte>, z: seq<Byte>, q: seq<Byte>, o: seq<Byte>, l: seq<Byte>, tail: seq<Byte>)
    requires |x| == 1 && |z| == 3 && |q| == 2 && |o| == 3 && |l| == 3
    ensures var was := x + z + q + o + l + tail; was[..1] + was[9..12] + was[4..] == (x + l + q + o + l) + tail
  {
  }

  /** The fragment length copied over the total length makes the finished message of what was begun. */
  lemma {:induction false} FinishedIsWhole(was: seq<Byte>, now: seq<Byte>, m: Message, seqNo: Uint16)
    requires |m.body| < 0x100_0000 && was == InitMessage(m.typ, seqNo, m.body)
    requires |was| >= HM_HEADER_LENGTH && now == was[..1] + was[9..12] + was[4..]
    ensures now == FragmentBytes(Whole(m, seqNo))
  {
    LengthMoved([m.typ], U24Bytes(0), U16Bytes(seqNo), U24Bytes(0), U24Bytes(|m.body|), m.body);
  }

  /** The first i length bytes copied. */
  function LengthCopied(was: seq<Byte>, i: nat): (r: seq<Byte>)
    requires i <= 3 && |was| >= HM_HEADER_LENGTH
    ensures |r| == |was| && r[9 + i..] == was[9 + i..]
  {
    was[..1] + was[9..9 + i] + was[1 + i..]
  }

  lemma CopyOneMore(was: seq<Byte>, i: nat)
    requires i < 3 && |was| >= HM_HEADER_LENGTH
    ensures LengthCopied(was, i)[9 + i] == was[9 + i]
    ensures LengthCopied(was, i)[1 + i := was[9 + i]] == LengthCopied(was, i + 1)
  {
    var r := LengthCopied(was, i);
    assert r[9 + i] == r[9 + i..][0] == was[9 + i..][0];
    assert was[9..10 + i] == was[9..9 + i] + [was[9 + i]];
    assert was[1 + i..] == [was[1 + i]] + was[2 + i..];
  }

  /** Copies the fragment length over the total length, in place. */
  method FinishMessage(msg: array<Byte>) returns (ok: bool)
    modifies msg
    ensures ok <==> msg.Length >= HM_HEADER_LENGTH
    ensures !ok ==> msg[..] == old(msg[..])
    ensures forall m: Message, seqNo: Uint16 ::
      |m.body| < 0x100_0000 && old(msg[..]) == InitMessage(m.typ, seqNo, m.body) ==>
        ok && msg[..] == FragmentBytes(Whole(m, seqNo))
  {
    if msg.Length < HM_HEADER_LENGTH {
      return false;
    }
    ghost var was := msg[..];
    for i := 0 to 3
      invariant msg[..] == LengthCopied(was, i)
    {
      CopyOneMore(was, i);
      assert msg[..][9 + i] == was[9 + i];
      msg[1 + i] := msg[9 + i];
    }
    forall m: Message, seqNo: Uint16 | |m.body| < 0x100_0000 && was == InitMessage(m.typ, seqNo, m.body)
      ensures msg[..] == FragmentBytes(Whole(m, seqNo))
    {
      FinishedIsWhole(was, msg[..], m, seqNo);
    }
    return true;
  }
}
