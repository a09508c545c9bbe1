/** The decoder of nanopb, reading from a stream: each method against what the bytes mean. The cursor and
    the bytes left keep their sum, but for what a failure loses. */
module Decoder {
  import opened Wrappers
  import opened Bytes
  import opened Words
  import opened Varints
  import opened Streams
  import opened Messages
  import opened Decoding
  import opened Conservation
  import FieldIter

  // ----- Skipping -----

  method SkipVarintBytes(s: IStream) returns (ok: bool)
    requires s.Valid()
    modifies s
    ensures s.Valid() && s.Limit() == old(s.Limit())
    ensures match SkipVarint(old(s.Rest()))
      case None => !ok
      case Some(rest) => ok && s.Rest() == rest
  {
    while true
      invariant s.Valid() && s.Limit() == old(s.Limit())
      invariant SkipVarint(old(s.Rest())) == SkipVarint(s.Rest())
      decreases s.left
    {
      var b := s.ReadByte();
      if b.None? {
        return false;
      }
      if b.value < 0x80 {
        return true;
      }
    }
  }

  method SkipString(s: IStream) returns (ok: bool)
    requires s.Valid()
    modifies s
    ensures s.Valid() && s.Limit() == old(s.Limit())
    ensures match TakeString(old(s.Rest()))
      case None => !ok
      case Some((_, rest)) => ok && s.Rest() == rest
  {
    var length, _ := s.DecodeVarint32();
    if length.None? {
      return false;
    }
    var bytes := s.Read(length.value);
    return bytes.Some?;
  }

  method Skip(s: IStream, wireType: nat) returns (ok: bool)
    requires s.Valid()
    modifies s
    ensures s.Valid() && s.Limit() == old(s.Limit())
    ensures match SkipField(wireType, old(s.Rest()))
      case None => !ok
      case Some(rest) => ok && s.Rest() == rest
  {
    match wireType
    case 0 =>
      ok := SkipVarintBytes(s);
    case 1 =>
      var bytes := s.Read(8);
      ok := bytes.Some?;
    case 2 =>
      ok := SkipString(s);
    case 5 =>
      var bytes := s.Read(4);
      ok := bytes.Some?;
    case _ =>
      ok := false;
  }

  method ReadTag(s: IStream) returns (t: TagResult)
    requires s.Valid()
    modifies s
    ensures s.Valid() && s.Limit() == old(s.Limit())
    ensures old(s.Rest()) != [] ==> t == DecodeTag(old(s.Rest()))
    ensures old(s.Rest()) == [] ==> t.EndTag?
    ensures t.Tag? ==> s.Rest() == t.rest
  {
    var temp, eof := s.DecodeVarint32();
    if temp.None? {
      return if eof then EndTag else BadTag;
    }
    if temp.value == 0 {
      return EndTag;
    }
    return Tag(temp.value / 8, temp.value % 8, s.Rest());
  }

  // ----- Substreams -----

  /** Cuts off the next length-delimited value as a stream of its own. Until it is closed the parent has
      that many bytes less, and stays where the value starts. */
  method MakeSubstream(s: IStream) returns (sub: Option<IStream>)
    requires s.Valid()
    modifies s
    ensures s.Valid() && (sub.None? ==> s.Limit() == old(s.Limit()))
    ensures match TakeString(old(s.Rest()))
      case None => sub.None?
      case Some((bytes, rest)) =>
        && sub.Some? && fresh(sub.value) && sub.value.Valid() && sub.value.data == s.data && sub.value.Rest() == bytes
        && sub.value.at == s.at && s.Limit() + |bytes| == old(s.Limit())
        && s.left == |rest| && s.data[sub.value.Limit()..old(s.Limit())] == rest
  {
    var size, _ := s.DecodeVarint32();
    if size.None? {
      return None;
    }
    if s.left < size.value {
      return None;
    }
    ghost var bytes := s.Rest();
    var stream := new IStream(s.data);
    stream.at, stream.left := s.at, size.value;
    s.left := s.left - size.value;
    assert bytes[..size.value] == stream.Rest();
    assert bytes[size.value..] == s.data[stream.Limit()..old(s.Limit())];
    return Some(stream);
  }

  /** Skips what is left of the substream; the parent goes on where it ends, by exactly its length. */
  method CloseSubstream(s: IStream, sub: IStream)
    requires s.Valid() && sub.Valid() && s != sub && sub.data == s.data
    requires sub.Limit() + s.left <= |s.data|
    modifies s, sub
    ensures s.Valid() && s.at == old(sub.Limit()) && s.left == old(s.left)
    ensures s.Rest() == s.data[old(sub.Limit())..s.Limit()]
  {
    if sub.left > 0 {
      var skipped := sub.Read(sub.left);
    }
    s.at := sub.at;
  }

  // ----- Values -----

  method ReadString(s: IStream, capacity: nat) returns (blob: Option<seq<Byte>>)
    requires s.Valid()
    modifies s
    ensures s.Valid() && s.Limit() == old(s.Limit())
    ensures match TakeString(old(s.Rest()))
      case None => blob.None?
      case Some((bytes, rest)) =>
        if |bytes| > capacity then blob.None? else blob == Some(bytes) && s.Rest() == rest
  {
    var size, _ := s.DecodeVarint32();
    if size.None? || size.value > capacity {
      return None;
    }
    blob := s.Read(size.value);
  }

  /** The numbers, by the clamping of each kind. */
  method DecodeNumber(s: IStream, kind: Kind) returns (item: Option<Item>)
    requires s.Valid() && Packable(kind)
    modifies s
    ensures s.Valid() && s.Limit() == old(s.Limit()) && s.Rest() == NumberEnd(kind, old(s.Rest()))
    ensures match DecodeItem(kind, old(s.Rest()), ZeroOf(kind))
      case None => item.None?
      case Some((x, rest)) => item == Some(x) && s.Rest() == rest
  {
    match kind
    case IntKind(size) =>
      var w := s.DecodeVarint();
      if w.None? || !InSigned(size, Narrow(size, w.value)) {
        return None;
      }
      return Some(Number(Narrow(size, w.value)));
    case UIntKind(size) =>
      var w := s.DecodeVarint();
      if w.None? || !InUnsigned(size, w.value) {
        return None;
      }
      return Some(Number(w.value));
    case SIntKind(size) =>
      var w := s.DecodeVarint();
      if w.None? || !InSigned(size, UnZigZag(w.value)) {
        return None;
      }
      return Some(Number(UnZigZag(w.value)));
    case Fixed32Kind =>
      var bytes := s.Read(4);
      return if bytes.None? then None else Some(Number(LittleEndian(bytes.value)));
    case Fixed64Kind =>
      var bytes := s.Read(8);
      return if bytes.None? then None else Some(Number(LittleEndian(bytes.value)));
  }

  method DecodeBlob(s: IStream, kind: Kind) returns (item: Option<Item>)
    requires s.Valid() && !Packable(kind) && !kind.MessageKind?
    modifies s
    ensures s.Valid() && s.Limit() == old(s.Limit())
    ensures match DecodeItem(kind, old(s.Rest()), ZeroOf(kind))
      case None => item.None?
      case Some((x, rest)) => item == Some(x) && s.Rest() == rest
  {
    match kind
    case BytesKind(capacity) =>
      var blob := ReadString(s, capacity);
      return if blob.None? then None else Some(Blob(blob.value));
    case StringKind(capacity) =>
      if capacity == 0 {
        return None;
      }
      var blob := ReadString(s, capacity - 1);
      return if blob.None? then None else Some(Blob(blob.value));
    case FixedBytesKind(size) =>
      var blob := ReadString(s, size);
      if blob.None? || (|blob.value| != 0 && |blob.value| != size) {
        return None;
      }
      return Some(Blob(if |blob.value| == 0 then Zeros(size) else blob.value));
  }

  /** The field decoders, by kind. `current` is what a nested message is merged into. */
  method DecodeValue(s: IStream, kind: Kind, current: Item) returns (item: Option<Item>)
    requires s.Valid() && (kind.MessageKind? ==> Distinct(kind.fields))
    modifies s
    ensures s.Valid() && s.Limit() + LostItem(kind, old(s.Rest()), current) == old(s.Limit())
    ensures item.Some? ==> s.Limit() == old(s.Limit())
    ensures match DecodeItem(kind, old(s.Rest()), current)
      case None => item.None?
      case Some((x, rest)) => item == Some(x) && s.Rest() == rest
    decreases s.left, 0
  {
    if Packable(kind) {
      item := DecodeNumber(s, kind);
    } else if !kind.MessageKind? {
      item := DecodeBlob(s, kind);
    } else {
      var sub := MakeSubstream(s);
      if sub.None? {
        return None;
      }
      var slots := DecodeNoInit(sub.value, kind.fields, SlotsOf(kind.fields, current));
      CloseSubstream(s, sub.value);
      return if slots.None? then None else Some(Nested(slots.value));
    }
  }

  // ----- Fields -----

  /** The entries of a packed array; false when one is bad, or some are left over. */
  method DecodePackedArray(sub: IStream, kind: Kind, items: seq<Item>, arraySize: nat) returns (all: Option<seq<Item>>)
    requires sub.Valid() && Packable(kind)
    modifies sub
    ensures sub.Valid() && sub.Limit() == old(sub.Limit())
    ensures all == DecodePacked(kind, old(sub.Rest()), items, arraySize)
    ensures sub.left != 0 <==> LeftOver(kind, old(sub.Rest()), items, arraySize)
    ensures all.Some? ==> sub.left == 0
  {
    var got := items;
    while sub.left > 0 && |got| < arraySize
      invariant sub.Valid() && sub.Limit() == old(sub.Limit())
      invariant DecodePacked(kind, old(sub.Rest()), items, arraySize) == DecodePacked(kind, sub.Rest(), got, arraySize)
      invariant LeftOver(kind, old(sub.Rest()), items, arraySize) == LeftOver(kind, sub.Rest(), got, arraySize)
      decreases sub.left
    {
      ghost var before := sub.Rest();
      var item := DecodeNumber(sub, kind);
      if item.None? {
        return None;
      }
      got := got + [item.value];
      assert |sub.Rest()| < |before|;
    }
    return if sub.left != 0 then None else Some(got);
  }

  /** One field. When bytes of a packed array are left over, its substream is not closed, and the parent has
      lost all of its length: the one failure after which cursor and bytes left no longer have their sum. */
  method DecodeStaticField(s: IStream, wireType: nat, f: Field, slot: Slot) returns (r: Option<Slot>)
    requires s.Valid() && DistinctBelow(f)
    modifies s
    ensures s.Valid() && s.Limit() + LostField(f, wireType, old(s.Rest()), slot) == old(s.Limit())
    ensures r.Some? ==> s.Limit() == old(s.Limit())
    ensures match DecodeField(f, wireType, old(s.Rest()), slot)
      case None => r.None?
      case Some((x, rest)) => r == Some(x) && s.Rest() == rest
    decreases s.left, 1
  {
    match f.rule
    case Repeated(arraySize) =>
      if wireType == 2 && Packable(f.kind) {
        var sub := MakeSubstream(s);
        if sub.None? {
          return None;
        }
        var items := DecodePackedArray(sub.value, f.kind, slot.items, arraySize);
        if sub.value.left != 0 {
          return None;
        }
        CloseSubstream(s, sub.value);
        return if items.None? then None else Some(Slot(slot.flag, items.value));
      }
      if |slot.items| >= arraySize {
        return None;
      }
      var item := DecodeValue(s, f.kind, ZeroOf(f.kind));
      return if item.None? then None else Some(Slot(slot.flag, slot.items + [item.value]));
    case OneOf =>
      var item := DecodeValue(s, f.kind, ZeroOf(f.kind));
      return if item.None? then None else Some(Slot(f.tag, [item.value]));
    case _ =>
      var item := DecodeValue(s, f.kind, Held(f, slot));
      return if item.None? then None else Some(Slot(if f.rule.Optional? then 1 else slot.flag, [item.value]));
  }

  // ----- The message -----

  /** Runs the iterator to the end of the fields to count the required ones. */
  method CountRequired(iter: FieldIter.Iterator) returns (count: nat)
    requires iter.Valid()
    modifies iter
    ensures count == RequiredBefore(iter.fields, |iter.fields|)
  {
    count := iter.requiredIndex;
    var last := iter.pos < |iter.fields| && iter.fields[iter.pos].rule.Required?;
    var more := iter.Next();
    while more
      invariant iter.Valid() && (more ==> iter.pos < |iter.fields|)
      invariant if more then iter.pos > 0 && count + (if last then 1 else 0) == RequiredBefore(iter.fields, iter.pos)
                else count + (if last then 1 else 0) == RequiredBefore(iter.fields, |iter.fields|)
      decreases more, |iter.fields| - iter.pos
    {
      count, last := iter.requiredIndex, iter.fields[iter.pos].rule.Required?;
      more := iter.Next();
    }
    if last {
      count := count + 1;
    }
  }

  ghost predicate SeenBelow(fields: seq<Field>, seen: set<nat>) {
    forall index :: index in seen ==> index < MAX_REQUIRED_FIELDS && index < RequiredBefore(fields, |fields|)
  }

  lemma {:induction false} MarkBelow(fields: seq<Field>, seen: set<nat>, i: nat)
    requires i < |fields| && SeenBelow(fields, seen)
    ensures SeenBelow(fields, MarkSeen(fields, seen, i))
  {
    RequiredGrows(fields, i, |fields|);
  }

  /** Every required field among the first 64 was seen. */
  method CheckRequired(iter: FieldIter.Iterator, fieldsSeen: FieldIter.RequiredSeen, ghost seen: set<nat>)
    returns (ok: bool)
    requires iter.Valid() && fieldsSeen.Valid() && fieldsSeen.Represents(seen) && SeenBelow(iter.fields, seen)
    modifies iter
    ensures ok <==> HasAll(iter.fields, seen)
  {
    var count := CountRequired(iter);
    if count > MAX_REQUIRED_FIELDS {
      count := MAX_REQUIRED_FIELDS;
    }
    ok := fieldsSeen.HasAllOf(count, seen);
  }

  /** What is lost at the field a tag leads to. */
  function LostOne(fields: seq<Field>, tag: nat, wireType: nat, bs: seq<Byte>, slots: seq<Slot>): nat {
    match Find(fields, tag)
    case None => 0
    case Some(i) => LostField(fields[i], wireType, bs, At(slots, fields[i].slot))
  }

  /** The field a tag leads to, or the skipping of an unknown one; false for anything bad. */
  method DecodeOne(s: IStream, iter: FieldIter.Iterator, fieldsSeen: FieldIter.RequiredSeen, tag: nat, wireType: nat,
                   slots: seq<Slot>, ghost seen: set<nat>)
    returns (ok: bool, after: seq<Slot>, ghost now: set<nat>)
    requires s.Valid() && iter.Valid() && Distinct(iter.fields) && fieldsSeen.Valid() && fieldsSeen.Represents(seen)
    modifies s, iter, fieldsSeen.words
    ensures s.Valid() && iter.Valid() && fieldsSeen.Valid()
    ensures s.Limit() + LostOne(iter.fields, tag, wireType, old(s.Rest()), slots) == old(s.Limit())
    ensures ok ==> fieldsSeen.Represents(now) && s.Limit() == old(s.Limit()) && s.left <= old(s.left)
    ensures iter.fields == [] && tag == 0 ==> !ok
    ensures iter.fields != [] || tag != 0 ==>
      match Find(iter.fields, tag)
      case None => (match SkipField(wireType, old(s.Rest()))
                    case None => !ok
                    case Some(rest) => ok && s.Rest() == rest && after == slots && now == seen)
      case Some(i) => (match DecodeField(iter.fields[i], wireType, old(s.Rest()), At(slots, iter.fields[i].slot))
                       case None => !ok
                       case Some((x, rest)) =>
                         && ok && s.Rest() == rest && after == Put(slots, iter.fields[i].slot, x)
                         && now == MarkSeen(iter.fields, seen, i))
    decreases s.left, 2
  {
    after, now := slots, seen;
    var found := iter.FindTag(tag);
    if !found {
      ok := Skip(s, wireType);
      return;
    }
    if iter.fields == [] {
      return false, slots, seen;
    }
    var f := iter.fields[iter.pos];
    ghost var fd := Find(iter.fields, tag);
    assert fd == Some(iter.pos);
    if f.rule.Required? && iter.requiredIndex < MAX_REQUIRED_FIELDS {
      fieldsSeen.Mark(iter.requiredIndex, seen);
    }
    now := MarkSeen(iter.fields, seen, iter.pos);
    var r := DecodeStaticField(s, wireType, f, At(slots, f.slot));
    if r.None? {
      return false, slots, now;
    }
    ok, after := true, Put(slots, f.slot, r.value);
  }

  /** Fields until the bytes end or a zero tag, then the check of the required ones. */
  method DecodeNoInit(s: IStream, fields: seq<Field>, slots: seq<Slot>) returns (r: Option<seq<Slot>>)
    requires s.Valid() && Distinct(fields)
    modifies s
    ensures s.Valid() && s.Limit() + LostFields(fields, old(s.Rest()), slots) == old(s.Limit())
    ensures r.Some? ==> s.Limit() == old(s.Limit())
    ensures r == DecodeMessage(fields, old(s.Rest()), slots)
    decreases s.left, 3
  {
    var fieldsSeen := new FieldIter.RequiredSeen();
    var iter := new FieldIter.Iterator(fields);
    var got := slots;
    ghost var seen: set<nat> := {};
    while s.left > 0
      invariant s.Valid() && s.Limit() == old(s.Limit()) && s.left <= old(s.left)
      invariant fresh(iter) && iter.Valid() && iter.fields == fields && fresh(fieldsSeen.words)
      invariant fieldsSeen.Valid() && fieldsSeen.Represents(seen) && SeenBelow(fields, seen)
      invariant DecodeFields(fields, old(s.Rest()), slots, {}) == DecodeFields(fields, s.Rest(), got, seen)
      invariant LostFields(fields, old(s.Rest()), slots) == LostFields(fields, s.Rest(), got)
      decreases s.left
    {
      ghost var before, was := s.left, seen;
      var t := ReadTag(s);
      if t.BadTag? {
        return None;
      }
      if t.EndTag? {
        break;
      }
      var ok;
      ok, got, seen := DecodeOne(s, iter, fieldsSeen, t.tag, t.wireType, got, seen);
      if !ok {
        return None;
      }
      if Find(fields, t.tag).Some? {
        MarkBelow(fields, was, Find(fields, t.tag).value);
      }
    }
    var all := CheckRequired(iter, fieldsSeen, seen);
    return if all then Some(got) else None;
  }

  /** Decoding into a fresh message, from the whole of some bytes. */
  method DecodeBytes(data: seq<Byte>, fields: seq<Field>) returns (r: Option<seq<Slot>>)
    requires Distinct(fields)
    ensures r == Decode(fields, data)
  {
    var s := new IStream(data);
    r := DecodeNoInit(s, fields, Defaults(fields));
  }
}
