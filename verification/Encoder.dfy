/** The encoder of nanopb, writing to a stream: each method against the wire form it has to produce. */
module Encoder {
  import opened Wrappers
  import opened Bytes
  import opened Words
  import opened Varints
  import opened Streams
  import opened Messages
  import FieldIter

  // ----- Primitives -----

  method EncodeTag(s: OStream, tag: nat, wireType: nat) returns (ok: bool)
    requires s.State().Valid()
    modifies s, s.buffer
    ensures ok <==> old(s.State()).Emit(Some(TagBytes(tag, wireType))).Some?
    ensures ok ==> Some(s.State()) == old(s.State()).Emit(Some(TagBytes(tag, wireType))) && s.State().Valid()
  {
    ok := s.EncodeVarint(Cast64(8 * tag + wireType));
  }

  method EncodeString(s: OStream, bytes: seq<Byte>) returns (ok: bool)
    requires s.State().Valid()
    modifies s, s.buffer
    ensures ok <==> old(s.State()).Emit(Some(WithLength(bytes))).Some?
    ensures ok ==> Some(s.State()) == old(s.State()).Emit(Some(WithLength(bytes))) && s.State().Valid()
  {
    EmitBoth(s.State(), Some(Varint(Cast64(|bytes|))), Some(bytes));
    ok := s.EncodeVarint(Cast64(|bytes|));
    if ok {
      ok := s.Write(bytes);
    }
  }

  /** The length of the text in a buffer of that capacity. */
  method TextLength(bs: seq<Byte>, capacity: nat) returns (size: nat)
    ensures size <= |bs| && bs[..size] == Text(bs, capacity)
  {
    size := 0;
    while size < capacity && size < |bs| && bs[size] != 0
      invariant size <= |bs| && size <= capacity
      invariant TextFrom(bs, capacity, size)
    {
      TextOn(bs, capacity, size);
      size := size + 1;
    }
  }

  /** The first n characters belong to the text. */
  predicate TextFrom(bs: seq<Byte>, capacity: nat, n: nat) {
    n <= |bs| && n <= capacity && Text(bs, capacity) == bs[..n] + Text(bs[n..], capacity - n)
  }

  lemma {:induction false} TextOn(bs: seq<Byte>, capacity: nat, n: nat)
    requires TextFrom(bs, capacity, n) && n < |bs| && n < capacity && bs[n] != 0
    ensures TextFrom(bs, capacity, n + 1)
  {
    assert bs[n..][1..] == bs[n + 1..];
    assert bs[..n + 1] == bs[..n] + [bs[n]];
  }

  // ----- Items -----

  /** The field encoders, by kind. */
  method EncodeValue(s: OStream, kind: Kind, item: Item) returns (ok: bool)
    requires s.State().Valid()
    modifies s, s.buffer
    ensures ok <==> old(s.State()).Emit(EncodeItem(kind, item)).Some?
    ensures ok ==> Some(s.State()) == old(s.State()).Emit(EncodeItem(kind, item)) && s.State().Valid()
    decreases kind, 2, 0
  {
    match kind
    case IntKind(size) =>
      if !IntSize(size) {
        return false;
      }
      ok := s.EncodeVarint(Unsigned(SignedOf(item)));
    case UIntKind(size) =>
      if !IntSize(size) {
        return false;
      }
      ok := s.EncodeVarint(WordOf(item));
    case SIntKind(size) =>
      if !IntSize(size) {
        return false;
      }
      ok := s.EncodeVarint(ZigZag(SignedOf(item)));
    case Fixed32Kind =>
      ok := s.Write(LittleBytes(WordOf(item), 4));
    case Fixed64Kind =>
      ok := s.Write(LittleBytes(WordOf(item), 8));
    case BytesKind(capacity) =>
      if |BlobOf(item)| > capacity {
        return false;
      }
      ok := EncodeString(s, BlobOf(item));
    case StringKind(capacity) =>
      var size := TextLength(BlobOf(item), capacity);
      ok := EncodeString(s, BlobOf(item)[..size]);
    case FixedBytesKind(size) =>
      ok := EncodeString(s, FixedBlob(item, size));
    case MessageKind(fields) =>
      ok := EncodeSubmessage(s, fields, SlotsOf(fields, item));
  }

  function Submessage(fields: seq<Field>, slots: seq<Slot>): Option<seq<Byte>> {
    match EncodeMessage(fields, slots)
    case None => None
    case Some(bs) => Some(WithLength(bs))
  }

  /** A nested message: sized first on a stream that only counts, then written to a stream of exactly that
      size over the same buffer. The two sizes cannot differ. */
  method EncodeSubmessage(s: OStream, fields: seq<Field>, slots: seq<Slot>) returns (ok: bool)
    requires s.State().Valid()
    modifies s, s.buffer
    ensures ok <==> old(s.State()).Emit(Submessage(fields, slots)).Some?
    ensures ok ==> Some(s.State()) == old(s.State()).Emit(Submessage(fields, slots)) && s.State().Valid()
    decreases fields, 9, 0
  {
    var none := new Byte[0];
    var sizing := new OStream(true, none, 0, 0);
    ok := EncodeFieldsOf(sizing, fields, slots);
    if !ok {
      return false;
    }
    var size := sizing.written;
    ghost var bs := EncodeMessage(fields, slots).value;
    assert size == |bs|;
    EmitBoth(s.State(), Some(Varint(Cast64(size))), Some(bs));
    ok := s.EncodeVarint(Cast64(size));
    if !ok {
      return false;
    }
    if s.sizing {
      s.Count(size, bs);
      return true;
    }
    if s.written + size > s.maxSize {
      return false;
    }
    var sub := new OStream(false, s.buffer, size, s.at);
    var status := EncodeFieldsOf(sub, fields, slots);
    s.written := s.written + sub.written;
    s.at := sub.at;
    assert status && sub.written == size;
    if sub.written != size {
      return false;
    }
    return status;
  }

  // ----- Fields -----

  method EncodeTaggedValue(s: OStream, tag: nat, kind: Kind, item: Item) returns (ok: bool)
    requires s.State().Valid()
    modifies s, s.buffer
    ensures ok <==> old(s.State()).Emit(EncodeTagged(tag, kind, item)).Some?
    ensures ok ==> Some(s.State()) == old(s.State()).Emit(EncodeTagged(tag, kind, item)) && s.State().Valid()
    decreases kind, 3, 0
  {
    EmitBoth(s.State(), Some(TagBytes(tag, WireType(kind))), EncodeItem(kind, item));
    ok := EncodeTag(s, tag, WireType(kind));
    if ok {
      ok := EncodeValue(s, kind, item);
    }
  }

  /** The entries of an array one after the other. */
  method EncodeEntries(s: OStream, kind: Kind, items: seq<Item>) returns (ok: bool)
    requires s.State().Valid()
    modifies s, s.buffer
    ensures ok <==> old(s.State()).Emit(EncodeItems(kind, items)).Some?
    ensures ok ==> Some(s.State()) == old(s.State()).Emit(EncodeItems(kind, items)) && s.State().Valid()
    decreases kind, 3, 1
  {
    ghost var start := s.State();
    EmitNothing(start);
    for i := 0 to |items|
      invariant s.State().Valid() && Some(s.State()) == start.Emit(EncodeItems(kind, items[..i]))
    {
      assert items[..i + 1][..i] == items[..i];
      EmitBoth(start, EncodeItems(kind, items[..i]), EncodeItem(kind, items[i]));
      ok := EncodeValue(s, kind, items[i]);
      if !ok {
        EmitItemsPrefix(start, kind, items, i + 1);
        return false;
      }
    }
    assert items[..|items|] == items;
    return true;
  }

  /** What cannot be written cannot be written with more after it. */
  lemma {:induction false} EmitItemsPrefix(s: Sink, kind: Kind, items: seq<Item>, i: nat)
    requires s.Valid() && i <= |items| && s.Emit(EncodeItems(kind, items[..i])).None?
    ensures s.Emit(EncodeItems(kind, items)).None?
    decreases |items| - i
  {
    if i == |items| {
      assert items[..i] == items;
    } else {
      assert items[..i + 1][..i] == items[..i];
      EmitBoth(s, EncodeItems(kind, items[..i]), EncodeItem(kind, items[i]));
      EmitItemsPrefix(s, kind, items, i + 1);
    }
  }

  lemma {:induction false} EmitEachPrefix(s: Sink, tag: nat, kind: Kind, items: seq<Item>, i: nat)
    requires s.Valid() && i <= |items| && s.Emit(EncodeEach(tag, kind, items[..i])).None?
    ensures s.Emit(EncodeEach(tag, kind, items)).None?
    decreases |items| - i
  {
    if i == |items| {
      assert items[..i] == items;
    } else {
      assert items[..i + 1][..i] == items[..i];
      EmitBoth(s, EncodeEach(tag, kind, items[..i]), EncodeTagged(tag, kind, items[i]));
      EmitEachPrefix(s, tag, kind, items, i + 1);
    }
  }

  lemma {:induction false} FixedSize(kind: Kind, items: seq<Item>)
    requires kind.Fixed32Kind? || kind.Fixed64Kind?
    ensures EncodeItems(kind, items).Some?
    ensures |EncodeItems(kind, items).value| == (if kind.Fixed32Kind? then 4 else 8) * |items|
  {
    if items != [] {
      FixedSize(kind, items[..|items| - 1]);
    }
  }

  /** The size of a packed array: computed for fixed words, otherwise measured. */
  method PackedSize(kind: Kind, items: seq<Item>) returns (size: Option<nat>)
    ensures size.Some? <==> EncodeItems(kind, items).Some?
    ensures size.Some? ==> size.value == |EncodeItems(kind, items).value|
    decreases kind, 4, 0
  {
    if kind.Fixed32Kind? {
      FixedSize(kind, items);
      return Some(4 * |items|);
    } else if kind.Fixed64Kind? {
      FixedSize(kind, items);
      return Some(8 * |items|);
    }
    var none := new Byte[0];
    var sizing := new OStream(true, none, 0, 0);
    var ok := EncodeEntries(sizing, kind, items);
    return if ok then Some(sizing.written) else None;
  }

  /** An array: packed when its kind allows it, otherwise one tag per entry. */
  method EncodeArrayField(s: OStream, tag: nat, kind: Kind, arraySize: nat, items: seq<Item>) returns (ok: bool)
    requires s.State().Valid()
    modifies s, s.buffer
    ensures ok <==> old(s.State()).Emit(EncodeArray(tag, kind, arraySize, items)).Some?
    ensures ok ==> Some(s.State()) == old(s.State()).Emit(EncodeArray(tag, kind, arraySize, items)) && s.State().Valid()
    decreases kind, 5, 0
  {
    EmitNothing(s.State());
    if |items| == 0 {
      return true;
    }
    if |items| > arraySize {
      return false;
    }
    if Packable(kind) {
      ok := EncodePacked(s, tag, kind, items);
    } else {
      ok := EncodeUnpacked(s, tag, kind, items);
    }
  }

  function Packed(tag: nat, kind: Kind, items: seq<Item>): Option<seq<Byte>> {
    match EncodeItems(kind, items)
    case None => None
    case Some(bs) => Some(TagBytes(tag, 2) + WithLength(bs))
  }

  method EncodePacked(s: OStream, tag: nat, kind: Kind, items: seq<Item>) returns (ok: bool)
    requires s.State().Valid()
    modifies s, s.buffer
    ensures ok <==> old(s.State()).Emit(Packed(tag, kind, items)).Some?
    ensures ok ==> Some(s.State()) == old(s.State()).Emit(Packed(tag, kind, items)) && s.State().Valid()
    decreases kind, 4, 1
  {
    ghost var start := s.State();
    ok := EncodeTag(s, tag, 2);
    var size := PackedSize(kind, items);
    if size.None? {
      return false;
    }
    ghost var bs := EncodeItems(kind, items).value;
    EmitBoth(start, Some(TagBytes(tag, 2)), Some(WithLength(bs)));
    if !ok {
      return false;
    }
    EmitBoth(s.State(), Some(Varint(Cast64(size.value))), Some(bs));
    ok := s.EncodeVarint(Cast64(size.value));
    if !ok {
      return false;
    }
    if s.sizing {
      s.Count(size.value, bs);
      return true;
    }
    ok := EncodeEntries(s, kind, items);
  }

  method EncodeUnpacked(s: OStream, tag: nat, kind: Kind, items: seq<Item>) returns (ok: bool)
    requires s.State().Valid()
    modifies s, s.buffer
    ensures ok <==> old(s.State()).Emit(EncodeEach(tag, kind, items)).Some?
    ensures ok ==> Some(s.State()) == old(s.State()).Emit(EncodeEach(tag, kind, items)) && s.State().Valid()
    decreases kind, 4, 1
  {
    ghost var start := s.State();
    EmitNothing(start);
    for i := 0 to |items|
      invariant s.State().Valid() && Some(s.State()) == start.Emit(EncodeEach(tag, kind, items[..i]))
    {
      assert items[..i + 1][..i] == items[..i];
      EmitBoth(start, EncodeEach(tag, kind, items[..i]), EncodeTagged(tag, kind, items[i]));
      ok := EncodeTaggedValue(s, tag, kind, items[i]);
      if !ok {
        EmitEachPrefix(start, tag, kind, items, i + 1);
        return false;
      }
    }
    assert items[..|items|] == items;
    return true;
  }

  /** The check for a default value: false at the first field that is set. */
  method CheckDefault(f: Field, slot: Slot) returns (unset: bool)
    ensures unset == Unset(f, slot)
    decreases f, 2
  {
    match f.rule
    case Required => unset := false;
    case Repeated(_) => unset := |slot.items| == 0;
    case OneOf => unset := slot.flag == 0;
    case Optional => unset := slot.flag == 0;
    case Singular => unset := CheckZero(f.kind, Held(f, slot));
  }

  method CheckZero(kind: Kind, item: Item) returns (zero: bool)
    ensures zero == ZeroItem(kind, item)
    decreases kind, 1
  {
    if kind.MessageKind? {
      zero := CheckFields(kind.fields, SlotsOf(kind.fields, item));
    } else {
      zero := ZeroItem(kind, item);
    }
  }

  method CheckFields(fields: seq<Field>, slots: seq<Slot>) returns (unset: bool)
    ensures unset <==> forall i :: 0 <= i < |fields| ==> Unset(fields[i], At(slots, fields[i].slot))
    decreases fields, 0
  {
    var iter := new FieldIter.Iterator(fields);
    if fields == [] {
      return true;
    }
    var more := true;
    ghost var k := 0;
    while more
      invariant iter.Valid() && iter.fields == fields && fresh(iter)
      invariant k <= |fields| && (if more then iter.pos == k && k < |fields| else k == |fields|)
      invariant forall i :: 0 <= i < k ==> Unset(fields[i], At(slots, fields[i].slot))
      decreases |fields| - k, more
    {
      var f := fields[iter.pos];
      unset := CheckDefault(f, At(slots, f.slot));
      if !unset {
        return false;
      }
      more := iter.Next();
      k := k + 1;
    }
    return true;
  }

  method EncodeBasicField(s: OStream, f: Field, slot: Slot) returns (ok: bool)
    requires s.State().Valid()
    modifies s, s.buffer
    ensures ok <==> old(s.State()).Emit(EncodeField(f, slot)).Some?
    ensures ok ==> Some(s.State()) == old(s.State()).Emit(EncodeField(f, slot)) && s.State().Valid()
    decreases f, 6, 0
  {
    EmitNothing(s.State());
    match f.rule
    case Required =>
      ok := EncodeTaggedValue(s, f.tag, f.kind, Held(f, slot));
    case Optional =>
      ok := true;
      if slot.flag != 0 {
        ok := EncodeTaggedValue(s, f.tag, f.kind, Held(f, slot));
      }
    case Singular =>
      ok := true;
      var unset := CheckDefault(f, slot);
      if !unset {
        ok := EncodeTaggedValue(s, f.tag, f.kind, Held(f, slot));
      }
    case Repeated(arraySize) =>
      ok := EncodeArrayField(s, f.tag, f.kind, arraySize, slot.items);
    case OneOf =>
      ok := true;
      if slot.flag == f.tag {
        ok := EncodeTaggedValue(s, f.tag, f.kind, Held(f, slot));
      }
  }

  lemma {:induction false} EmitFieldsPrefix(s: Sink, fields: seq<Field>, slots: seq<Slot>, k: nat)
    requires s.Valid() && k <= |fields| && s.Emit(EncodeFields(fields, slots, k)).None?
    ensures s.Emit(EncodeMessage(fields, slots)).None?
    decreases |fields| - k
  {
    if k < |fields| {
      EmitBoth(s, EncodeFields(fields, slots, k), EncodeField(fields[k], At(slots, fields[k].slot)));
      EmitFieldsPrefix(s, fields, slots, k + 1);
    }
  }

  /** All fields in the order of the descriptor. A stream that counts gets exactly the size; a buffer
      stream takes the message if and only if there is room for all of it. */
  method EncodeFieldsOf(s: OStream, fields: seq<Field>, slots: seq<Slot>) returns (ok: bool)
    requires s.State().Valid()
    modifies s, s.buffer
    ensures ok <==> old(s.State()).Emit(EncodeMessage(fields, slots)).Some?
    ensures ok ==> Some(s.State()) == old(s.State()).Emit(EncodeMessage(fields, slots)) && s.State().Valid()
    decreases fields, 8, 0
  {
    ghost var start := s.State();
    EmitNothing(start);
    var iter := new FieldIter.Iterator(fields);
    if fields == [] {
      return true;
    }
    var more := true;
    ghost var k := 0;
    while more
      invariant iter.Valid() && iter.fields == fields && fresh(iter)
      invariant k <= |fields| && (if more then iter.pos == k && k < |fields| else k == |fields|)
      invariant s.State().Valid() && Some(s.State()) == start.Emit(EncodeFields(fields, slots, k))
      decreases |fields| - k, more
    {
      var f := fields[iter.pos];
      EmitBoth(start, EncodeFields(fields, slots, k), EncodeField(f, At(slots, f.slot)));
      ok := EncodeBasicField(s, f, At(slots, f.slot));
      if !ok {
        EmitFieldsPrefix(start, fields, slots, k + 1);
        return false;
      }
      more := iter.Next();
      k := k + 1;
    }
    return true;
  }

  // ----- Entry points -----

  method EncodedSize(fields: seq<Field>, slots: seq<Slot>) returns (size: Option<nat>)
    ensures size == match EncodeMessage(fields, slots) case None => None case Some(bs) => Some(|bs|)
  {
    var none := new Byte[0];
    var sizing := new OStream(true, none, 0, 0);
    var ok := EncodeFieldsOf(sizing, fields, slots);
    return if ok then Some(sizing.written) else None;
  }

  /** Encoding into a buffer succeeds if and only if the size that was counted fits, and then the buffer
      starts with the wire form. */
  method EncodeToBuffer(buffer: array<Byte>, fields: seq<Field>, slots: seq<Slot>) returns (written: Option<nat>)
    modifies buffer
    ensures match EncodeMessage(fields, slots)
      case None => written.None?
      case Some(bs) =>
        && (written.Some? <==> |bs| <= buffer.Length)
        && (written.Some? ==> written.value == |bs| && buffer[..] == bs + old(buffer[|bs|..]))
  {
    var s := new OStream(false, buffer, buffer.Length, 0);
    var ok := EncodeFieldsOf(s, fields, slots);
    return if ok then Some(s.written) else None;
  }
}
