/** What nanopb promises about a message that was encoded and decoded again. */
module RoundTrip {
  import opened Wrappers
  import opened Bytes
  import opened Words
  import opened Varints
  import opened Streams
  import opened Messages
  import opened Decoding

  // ----- The value that comes back -----

  /** The item as it comes back: the absent fields of nested messages are at their defaults. */
  ghost function NormalItem(kind: Kind, item: Item): Item
    decreases kind, 0
  {
    if kind.MessageKind? then Nested(Normal(kind.fields, SlotsOf(kind.fields, item))) else item
  }

  ghost function NormalItems(kind: Kind, items: seq<Item>): (r: seq<Item>)
    ensures |r| == |items|
    decreases kind, 1
  {
    seq(|items|, i requires 0 <= i < |items| => NormalItem(kind, items[i]))
  }

  /** A field that is present keeps its value, and one that is absent is at its default. */
  ghost function NormalSlot(f: Field, s: Slot): Slot
    decreases f, 2
  {
    match f.rule
    case Optional => if s.flag == 0 then DefaultSlot(f) else Slot(s.flag, NormalItems(f.kind, s.items))
    case OneOf => if s.flag == f.tag then Slot(s.flag, NormalItems(f.kind, s.items)) else DefaultSlot(f)
    case _ => Slot(s.flag, NormalItems(f.kind, s.items))
  }

  /** The member of a oneof that is present. */
  ghost predicate Present(fields: seq<Field>, slots: seq<Slot>, slot: nat, j: nat) {
    j < |fields| && fields[j].rule.OneOf? && fields[j].slot == slot && fields[j].tag == At(slots, slot).flag
  }

  /** Slot i, given only the first k fields. */
  ghost function SlotAfter(fields: seq<Field>, slots: seq<Slot>, i: nat, k: nat): Slot
    requires i < |fields| && k <= |fields|
    decreases fields, 3
  {
    if fields[i].rule.OneOf? then
      if j: nat :| j < k && Present(fields, slots, i, j) then NormalSlot(fields[j], At(slots, i))
      else DefaultSlot(fields[i])
    else if i < k then NormalSlot(fields[i], At(slots, i))
    else DefaultSlot(fields[i])
  }

  /** The message with the first k fields taken over and the others at their defaults. */
  ghost function After(fields: seq<Field>, slots: seq<Slot>, k: nat): (r: seq<Slot>)
    requires k <= |fields|
    ensures |r| == |fields|
    decreases fields, 4
  {
    seq(|fields|, i requires 0 <= i < |fields| => SlotAfter(fields, slots, i, k))
  }

  ghost function Normal(fields: seq<Field>, slots: seq<Slot>): (r: seq<Slot>)
    ensures |r| == |fields|
    decreases fields, 5
  {
    After(fields, slots, |fields|)
  }

  // ----- A field more -----

  /** Absent fields leave nothing on the wire. */
  predicate Emitted(f: Field, s: Slot) {
    match f.rule
    case Required => true
    case Optional => s.flag != 0
    case Singular => !ZeroItem(f.kind, Held(f, s))
    case Repeated(_) => s.items != []
    case OneOf => s.flag == f.tag
  }

  lemma {:induction false} AfterNone(fields: seq<Field>, slots: seq<Slot>)
    ensures After(fields, slots, 0) == Defaults(fields)
  {
  }

  /** A submessage all of whose fields are unset is the default one. */
  lemma {:induction false} ZeroIsDefault(kind: Kind, item: Item)
    requires ItemInBounds(kind, item) && ZeroItem(kind, item)
    requires kind.MessageKind? ==> WellFormed(kind.fields)
    ensures NormalItem(kind, item) == ZeroOf(kind)
    decreases kind, 0
  {
    if kind.MessageKind? {
      var fields, slots := kind.fields, item.slots;
      forall i | 0 <= i < |fields|
        ensures SlotAfter(fields, slots, i, |fields|) == DefaultSlot(fields[i])
      {
        assert OwnSlot(fields, i);
        UnsetIsDefault(fields[i], At(slots, fields[i].slot));
      }
      assert Normal(fields, slots) == Defaults(fields);
    }
  }

  lemma {:induction false} UnsetIsDefault(f: Field, s: Slot)
    requires WellFormedField(f) && SlotInBounds(f, s) && Unset(f, s)
    ensures NormalSlot(f, s) == DefaultSlot(f)
    ensures f.rule.OneOf? ==> s.flag != f.tag
    decreases f, 1
  {
    if f.rule.Singular? {
      ZeroIsDefault(f.kind, s.items[0]);
    }
  }

  lemma {:induction false} SkippedIsDefault(f: Field, s: Slot)
    requires WellFormedField(f) && SlotInBounds(f, s) && !Emitted(f, s)
    ensures NormalSlot(f, s) == DefaultSlot(f)
  {
    if !f.rule.OneOf? {
      UnsetIsDefault(f, s);
    }
  }

  lemma {:induction false} OnePresent(fields: seq<Field>, slots: seq<Slot>, slot: nat, j: nat, k: nat)
    requires WellFormed(fields) && Present(fields, slots, slot, j) && Present(fields, slots, slot, k)
    ensures j == k
  {
  }

  /** Taking over one more field changes its own slot only, and not even that when it is absent. */
  lemma {:induction false} AfterOneMore(fields: seq<Field>, slots: seq<Slot>, k: nat)
    requires WellFormed(fields) && InBounds(fields, slots) && k < |fields|
    ensures var f := fields[k];
      var s := At(slots, f.slot);
      After(fields, slots, k + 1) ==
        if Emitted(f, s) then Put(After(fields, slots, k), f.slot, NormalSlot(f, s)) else After(fields, slots, k)
  {
    var f := fields[k];
    var s := At(slots, f.slot);
    assert OwnSlot(fields, k) && WellFormedField(f);
    forall i | 0 <= i < |fields|
      ensures SlotAfter(fields, slots, i, k + 1) ==
        if Emitted(f, s) && i == f.slot then NormalSlot(f, s) else SlotAfter(fields, slots, i, k)
    {
      if fields[i].rule.OneOf? {
        if Present(fields, slots, i, k) {
          forall j: nat | Present(fields, slots, i, j)
            ensures j == k
          {
            OnePresent(fields, slots, i, j, k);
          }
        } else if j: nat :| j < k && Present(fields, slots, i, j) {
          forall j': nat | Present(fields, slots, i, j')
            ensures j' == j
          {
            OnePresent(fields, slots, i, j', j);
          }
        }
      } else if i == k && !Emitted(f, s) {
        SkippedIsDefault(f, s);
      }
    }
    var before, after := After(fields, slots, k), After(fields, slots, k + 1);
    assert forall i :: 0 <= i < |fields| ==>
        before[i] == SlotAfter(fields, slots, i, k) && after[i] == SlotAfter(fields, slots, i, k + 1);
    assert f.slot < |fields|;
    assert after == if Emitted(f, s) then before[f.slot := NormalSlot(f, s)] else before;
  }

  /** Which required fields the first k fields show. */
  ghost function SeenAfter(fields: seq<Field>, k: nat): set<nat>
    requires k <= |fields|
  {
    if k == 0 then {} else MarkSeen(fields, SeenAfter(fields, k - 1), k - 1)
  }

  lemma {:induction false} AllAreSeen(fields: seq<Field>, k: nat, index: nat)
    requires k <= |fields| && index < RequiredBefore(fields, k) && index < MAX_REQUIRED_FIELDS
    ensures index in SeenAfter(fields, k)
  {
    if index < RequiredBefore(fields, k - 1) {
      AllAreSeen(fields, k - 1, index);
    }
  }

  // ----- Lengths the decoder can read -----

  /** The decoder reads a length as a 32-bit number. */
  predicate Fits32(bytes: Option<seq<Byte>>) {
    bytes.Some? ==> |bytes.value| < TWO_32
  }

  /** Every length written for the item is below 2^32. Only a submessage can be longer: bytes and strings
      are bounded by their size in the descriptor. */
  ghost predicate ShortItem(kind: Kind, item: Item)
    decreases kind, 0
  {
    kind.MessageKind? ==>
      ShortMessage(kind.fields, SlotsOf(kind.fields, item)) && Fits32(EncodeMessage(kind.fields, SlotsOf(kind.fields, item)))
  }

  ghost predicate ShortItems(kind: Kind, items: seq<Item>)
    decreases kind, 1
  {
    if Packable(kind) then Fits32(EncodeItems(kind, items))
    else forall j :: 0 <= j < |items| ==> ShortItem(kind, items[j])
  }

  ghost predicate ShortSlot(f: Field, s: Slot)
    decreases f, 2
  {
    Emitted(f, s) && s.items != [] ==> if f.rule.Repeated? then ShortItems(f.kind, s.items) else ShortItem(f.kind, s.items[0])
  }

  /** Every length in the wire form of the message, at any depth, is below 2^32. */
  ghost predicate ShortMessage(fields: seq<Field>, slots: seq<Slot>)
    decreases fields, 3
  {
    forall i :: 0 <= i < |fields| ==> ShortSlot(fields[i], At(slots, fields[i].slot))
  }

  // ----- What was written is read back -----

  lemma {:induction false} FindOwn(fields: seq<Field>, k: nat)
    requires WellFormed(fields) && k < |fields|
    ensures Find(fields, fields[k].tag) == Some(k)
  {
    var i := Find(fields, fields[k].tag);
    assert i.Some? && fields[i.value].tag == fields[k].tag;
  }

  lemma {:induction false} TagRoundTrip(tag: nat, wireType: nat, rest: seq<Byte>)
    requires 0 < tag < 0x2000_0000 && wireType < 8
    ensures DecodeTag(TagBytes(tag, wireType) + rest) == Tag(tag, wireType, rest)
  {
    TagParts(tag, wireType);
    Varint32RoundTrip(8 * tag + wireType, rest);
  }

  lemma {:induction false} TagParts(tag: nat, wireType: nat)
    requires wireType < 8
    ensures (8 * tag + wireType) / 8 == tag && (8 * tag + wireType) % 8 == wireType
  {
  }

  lemma {:induction false} StringRoundTrip(bs: seq<Byte>, rest: seq<Byte>)
    requires |bs| < TWO_32
    ensures TakeString(WithLength(bs) + rest) == Some((bs, rest))
  {
    Varint32RoundTrip(|bs|, bs + rest);
    assert WithLength(bs) + rest == Varint(|bs|) + (bs + rest);
    assert (bs + rest)[..|bs|] == bs && (bs + rest)[|bs|..] == rest;
  }

  lemma {:induction false} TextIsAll(bs: seq<Byte>, capacity: nat)
    requires |bs| < capacity && 0 !in bs
    ensures Text(bs, capacity) == bs
  {
    if bs != [] {
      TextIsAll(bs[1..], capacity - 1);
    }
  }

  lemma {:induction false} NarrowSigned(size: nat, v: int)
    requires InSigned(size, v)
    ensures IsInt64(v) && Narrow(size, Unsigned(v)) == v
  {
  }

  lemma {:induction false} WordRoundTrip(v: nat, n: nat, rest: seq<Byte>)
    requires v < Pow256(n)
    ensures Take(LittleBytes(v, n) + rest, n) == Some((LittleBytes(v, n), rest))
    ensures LittleEndian(LittleBytes(v, n)) == v
  {
    var bs := LittleBytes(v, n) + rest;
    assert bs[..n] == LittleBytes(v, n) && bs[n..] == rest;
    LittleRoundTrip(v, n);
  }

  lemma {:induction false} PlainRoundTrip(kind: Kind, item: Item, rest: seq<Byte>, current: Item)
    requires !kind.MessageKind? && ItemInBounds(kind, item)
    ensures EncodeItem(kind, item).Some?
    ensures DecodeItem(kind, EncodeItem(kind, item).value + rest, current) == Some((item, rest))
  {
    match kind
    case IntKind(size) =>
      NarrowSigned(size, item.v);
      VarintRoundTrip(Unsigned(item.v), rest);
    case UIntKind(_) => VarintRoundTrip(item.v, rest);
    case SIntKind(size) =>
      NarrowSigned(size, item.v);
      ZigZagRoundTrip(item.v, 0);
      VarintRoundTrip(ZigZag(item.v), rest);
    case Fixed32Kind =>
      assert Pow256(4) == TWO_32;
      WordRoundTrip(item.v, 4, rest);
    case Fixed64Kind =>
      assert Pow256(4) == TWO_32 && Pow256(8) == TWO_64;
      WordRoundTrip(item.v, 8, rest);
    case BytesKind(_) =>
      StringRoundTrip(item.bytes, rest);
    case StringKind(capacity) =>
      TextIsAll(item.bytes, capacity);
      StringRoundTrip(item.bytes, rest);
    case FixedBytesKind(size) =>
      assert item.bytes == [] ==> item.bytes == Zeros(size);
      StringRoundTrip(item.bytes, rest);
  }

  /** A tag leads to the field it belongs to. */
  lemma {:induction false} TagLeads(fields: seq<Field>, k: nat, wireType: nat, payload: seq<Byte>, state: seq<Slot>,
                                    seen: set<nat>)
    requires WellFormed(fields) && k < |fields| && wireType < 8
    ensures DecodeFields(fields, TagBytes(fields[k].tag, wireType) + payload, state, seen) ==
      match DecodeField(fields[k], wireType, payload, At(state, fields[k].slot))
      case None => None
      case Some((s, rest)) => DecodeFields(fields, rest, Put(state, fields[k].slot, s), MarkSeen(fields, seen, k))
  {
    assert WellFormedField(fields[k]);
    TagRoundTrip(fields[k].tag, wireType, payload);
    FindOwn(fields, k);
  }

  /** Joined encodings are read one after the other. */
  lemma {:induction false} Reassociate(a: seq<Byte>, b: seq<Byte>, rest: seq<Byte>)
    ensures (a + b) + rest == a + (b + rest)
  {
  }

  lemma {:induction false} ItemRoundTrip(kind: Kind, item: Item, rest: seq<Byte>, current: Item)
    requires ItemInBounds(kind, item)
    requires kind.MessageKind? ==> WellFormed(kind.fields) && current == ZeroOf(kind)
    ensures EncodeItem(kind, item).Some?
    ensures ShortItem(kind, item) ==>
      DecodeItem(kind, EncodeItem(kind, item).value + rest, current) == Some((NormalItem(kind, item), rest))
    decreases kind, 0
  {
    if kind.MessageKind? {
      MessageRoundTrip(kind.fields, item.slots);
      var bs := EncodeMessage(kind.fields, item.slots).value;
      if |bs| < TWO_32 {
        StringRoundTrip(bs, rest);
      }
    } else {
      PlainRoundTrip(kind, item, rest, current);
    }
  }

  ghost predicate AllInBounds(kind: Kind, items: seq<Item>) {
    && (forall j :: 0 <= j < |items| ==> ItemInBounds(kind, items[j]))
    && (kind.MessageKind? ==> WellFormed(kind.fields))
  }

  /** Stands for DecodePacked in the induction over the entries. */
  type PackedReader = (seq<Byte>, seq<Item>) -> Option<seq<Item>>

  ghost predicate ReadsPacked(dec: PackedReader, kind: Kind, arraySize: nat) {
    forall bs, items {:trigger DecodePacked(kind, bs, items, arraySize)} ::
      dec(bs, items) == DecodePacked(kind, bs, items, arraySize)
  }

  /** One more entry of a packed array. */
  lemma {:induction false} PackedEntry(dec: PackedReader, kind: Kind, item: Item, done: seq<Item>, arraySize: nat,
                                       rest: seq<Byte>)
    requires ReadsPacked(dec, kind, arraySize) && Packable(kind) && ItemInBounds(kind, item) && |done| < arraySize
    ensures EncodeItem(kind, item).Some?
    ensures dec(EncodeItem(kind, item).value + rest, done) == dec(rest, done + [item])
  {
    PlainRoundTrip(kind, item, rest, ZeroOf(kind));
    assert dec(EncodeItem(kind, item).value + rest, done) ==
        DecodePacked(kind, EncodeItem(kind, item).value + rest, done, arraySize);
    assert dec(rest, done + [item]) == DecodePacked(kind, rest, done + [item], arraySize);
  }

  lemma {:induction false} PackedRoundTrip(dec: PackedReader, kind: Kind, items: seq<Item>, done: seq<Item>,
                                           arraySize: nat, rest: seq<Byte>)
    requires ReadsPacked(dec, kind, arraySize)
    requires Packable(kind) && AllInBounds(kind, items) && |done| + |items| <= arraySize
    ensures EncodeItems(kind, items).Some?
    ensures dec(EncodeItems(kind, items).value + rest, done) == dec(rest, done + items)
    decreases |items|
  {
    if items == [] {
      assert done + items == done && [] + rest == rest;
    } else {
      var init, last := items[..|items| - 1], items[|items| - 1];
      PackedEntry(dec, kind, last, done + init, arraySize, rest);
      PackedRoundTrip(dec, kind, init, done, arraySize, EncodeItem(kind, last).value + rest);
      Reassociate(EncodeItems(kind, init).value, EncodeItem(kind, last).value, rest);
      assert (done + init) + [last] == done + items;
    }
  }

  /** Stands for DecodeFields in the inductions over the fields, which need not look inside. */
  type Reader = (seq<Byte>, seq<Slot>, set<nat>) -> Option<(seq<Slot>, set<nat>)>

  ghost predicate Reads(dec: Reader, fields: seq<Field>) {
    forall bs, slots, seen {:trigger DecodeFields(fields, bs, slots, seen)} ::
      dec(bs, slots, seen) == DecodeFields(fields, bs, slots, seen)
  }

  /** One more entry of an array that is not packed. */
  lemma {:induction false} EntryRoundTrip(dec: Reader, fields: seq<Field>, k: nat, item: Item, got: seq<Item>,
                                          state: seq<Slot>, seen: set<nat>, rest: seq<Byte>)
    requires Reads(dec, fields) && WellFormed(fields) && k < |fields| && |state| == |fields|
    requires fields[k].rule.Repeated? && !Packable(fields[k].kind) && |got| < fields[k].rule.arraySize
    requires ItemInBounds(fields[k].kind, item) && state[k] == Slot(0, got)
    ensures EncodeTagged(fields[k].tag, fields[k].kind, item).Some?
    ensures ShortItem(fields[k].kind, item) ==>
      dec(EncodeTagged(fields[k].tag, fields[k].kind, item).value + rest, state, seen) ==
      dec(rest, state[k := Slot(0, got + [NormalItem(fields[k].kind, item)])], seen)
    decreases fields[k], 1
  {
    var f := fields[k];
    assert OwnSlot(fields, k) && WellFormedField(f);
    ItemRoundTrip(f.kind, item, rest, ZeroOf(f.kind));
    var a, b := TagBytes(f.tag, WireType(f.kind)), EncodeItem(f.kind, item).value;
    Reassociate(a, b, rest);
    TagLeads(fields, k, WireType(f.kind), b + rest, state, seen);
  }

  lemma {:induction false} NormalItemsOneMore(kind: Kind, items: seq<Item>)
    requires items != []
    ensures var n := |items| - 1;
      NormalItems(kind, items) == NormalItems(kind, items[..n]) + [NormalItem(kind, items[n])]
  {
  }

  /** The entries of an array that is not packed come back one tag at a time. */
  lemma {:induction false} EachRoundTrip(dec: Reader, fields: seq<Field>, k: nat, items: seq<Item>, state: seq<Slot>,
                                         seen: set<nat>, rest: seq<Byte>)
    requires Reads(dec, fields) && WellFormed(fields) && k < |fields| && |state| == |fields|
    requires fields[k].rule.Repeated? && !Packable(fields[k].kind) && |items| <= fields[k].rule.arraySize
    requires AllInBounds(fields[k].kind, items) && state[k] == Slot(0, [])
    ensures EncodeEach(fields[k].tag, fields[k].kind, items).Some?
    ensures ShortItems(fields[k].kind, items) ==>
      dec(EncodeEach(fields[k].tag, fields[k].kind, items).value + rest, state, seen) ==
      dec(rest, state[k := Slot(0, NormalItems(fields[k].kind, items))], seen)
    decreases fields[k], 2, |items|
  {
    var tag, kind := fields[k].tag, fields[k].kind;
    if items == [] {
      assert [] + rest == rest && NormalItems(kind, items) == [] && state[k := Slot(0, [])] == state;
    } else {
      var n := |items| - 1;
      var got := NormalItems(kind, items[..n]);
      var mid := state[k := Slot(0, got)];
      EntryRoundTrip(dec, fields, k, items[n], got, mid, seen, rest);
      var b := EncodeTagged(tag, kind, items[n]).value;
      EachRoundTrip(dec, fields, k, items[..n], state, seen, b + rest);
      Reassociate(EncodeEach(tag, kind, items[..n]).value, b, rest);
      NormalItemsOneMore(kind, items);
      assert mid[k := Slot(0, NormalItems(kind, items))] == state[k := Slot(0, NormalItems(kind, items))];
    }
  }

  /** A packed array is read back whole from its length and its bytes. */
  lemma {:induction false} PackedReads(f: Field, items: seq<Item>, rest: seq<Byte>)
    requires f.rule.Repeated? && Packable(f.kind) && |items| <= f.rule.arraySize && AllInBounds(f.kind, items)
    ensures EncodeItems(f.kind, items).Some?
    ensures var bs := EncodeItems(f.kind, items).value;
      |bs| < TWO_32 ==> DecodeField(f, 2, WithLength(bs) + rest, Slot(0, [])) == Some((Slot(0, items), rest))
  {
    PackedRoundTrip((x, y) => DecodePacked(f.kind, x, y, f.rule.arraySize), f.kind, items, [], f.rule.arraySize, []);
    var bs := EncodeItems(f.kind, items).value;
    assert [] + items == items && bs + [] == bs;
    if |bs| < TWO_32 {
      StringRoundTrip(bs, rest);
    }
  }

  lemma {:induction false} PackedFieldRoundTrip(fields: seq<Field>, k: nat, items: seq<Item>, state: seq<Slot>,
                                                seen: set<nat>, rest: seq<Byte>)
    requires WellFormed(fields) && k < |fields| && |state| == |fields|
    requires fields[k].rule.Repeated? && Packable(fields[k].kind) && |items| <= fields[k].rule.arraySize
    requires AllInBounds(fields[k].kind, items) && state[k] == Slot(0, [])
    ensures EncodeItems(fields[k].kind, items).Some?
    ensures var bs := EncodeItems(fields[k].kind, items).value;
      ShortItems(fields[k].kind, items) ==>
        DecodeFields(fields, TagBytes(fields[k].tag, 2) + (WithLength(bs) + rest), state, seen) ==
        DecodeFields(fields, rest, state[k := Slot(0, items)], seen)
  {
    assert OwnSlot(fields, k);
    PackedReads(fields[k], items, rest);
    TagLeads(fields, k, 2, WithLength(EncodeItems(fields[k].kind, items).value) + rest, state, seen);
  }

  lemma {:induction false} ArrayRoundTrip(fields: seq<Field>, k: nat, items: seq<Item>, state: seq<Slot>,
                                          seen: set<nat>, rest: seq<Byte>)
    requires WellFormed(fields) && k < |fields| && |state| == |fields|
    requires fields[k].rule.Repeated? && 0 < |items| <= fields[k].rule.arraySize
    requires AllInBounds(fields[k].kind, items) && state[k] == Slot(0, [])
    ensures EncodeArray(fields[k].tag, fields[k].kind, fields[k].rule.arraySize, items).Some?
    ensures ShortItems(fields[k].kind, items) ==>
      DecodeFields(fields, EncodeArray(fields[k].tag, fields[k].kind, fields[k].rule.arraySize, items).value + rest, state, seen) ==
      DecodeFields(fields, rest, state[k := Slot(0, NormalItems(fields[k].kind, items))], seen)
    decreases fields[k], 3
  {
    var f := fields[k];
    if Packable(f.kind) {
      PackedFieldRoundTrip(fields, k, items, state, seen, rest);
      Reassociate(TagBytes(f.tag, 2), WithLength(EncodeItems(f.kind, items).value), rest);
      assert NormalItems(f.kind, items) == items;
    } else {
      EachRoundTrip((x, y, z) => DecodeFields(fields, x, y, z), fields, k, items, state, seen, rest);
    }
  }

  lemma {:induction false} TaggedRoundTrip(fields: seq<Field>, k: nat, item: Item, state: seq<Slot>, seen: set<nat>,
                                           rest: seq<Byte>)
    requires WellFormed(fields) && k < |fields| && |state| == |fields| && fields[k].slot < |fields|
    requires !fields[k].rule.Repeated? && ItemInBounds(fields[k].kind, item)
    requires !fields[k].rule.OneOf? ==> state[fields[k].slot] == DefaultSlot(fields[k])
    ensures EncodeTagged(fields[k].tag, fields[k].kind, item).Some?
    ensures ShortItem(fields[k].kind, item) ==>
      var flag := if fields[k].rule.Optional? then 1 else if fields[k].rule.OneOf? then fields[k].tag else 0;
      DecodeFields(fields, EncodeTagged(fields[k].tag, fields[k].kind, item).value + rest, state, seen) ==
      DecodeFields(fields, rest, state[fields[k].slot := Slot(flag, [NormalItem(fields[k].kind, item)])], MarkSeen(fields, seen, k))
    decreases fields[k], 1
  {
    var f := fields[k];
    assert WellFormedField(f);
    var current := if f.rule.OneOf? then ZeroOf(f.kind) else DefaultItem(f);
    ItemRoundTrip(f.kind, item, rest, current);
    var a, b := TagBytes(f.tag, WireType(f.kind)), EncodeItem(f.kind, item).value;
    Reassociate(a, b, rest);
    TagLeads(fields, k, WireType(f.kind), b + rest, state, seen);
  }

  /** One field: decoding what was written for it takes it over and goes on with the rest. */
  lemma {:induction false} FieldRoundTrip(fields: seq<Field>, slots: seq<Slot>, k: nat, rest: seq<Byte>)
    requires WellFormed(fields) && InBounds(fields, slots) && k < |fields|
    ensures EncodeField(fields[k], At(slots, fields[k].slot)).Some?
    ensures ShortSlot(fields[k], At(slots, fields[k].slot)) ==>
      DecodeFields(fields, EncodeField(fields[k], At(slots, fields[k].slot)).value + rest, After(fields, slots, k), SeenAfter(fields, k)) ==
      DecodeFields(fields, rest, After(fields, slots, k + 1), SeenAfter(fields, k + 1))
    decreases fields, 0
  {
    var f := fields[k];
    var s, state, seen := At(slots, f.slot), After(fields, slots, k), SeenAfter(fields, k);
    assert OwnSlot(fields, k) && WellFormedField(f) && SlotInBounds(f, s);
    AfterOneMore(fields, slots, k);
    if !Emitted(f, s) {
      assert EncodeField(f, s) == Some([]) && [] + rest == rest;
    } else if f.rule.Repeated? {
      ArrayRoundTrip(fields, k, s.items, state, seen, rest);
    } else {
      TaggedRoundTrip(fields, k, s.items[0], state, seen, rest);
      assert NormalItems(f.kind, s.items) == [NormalItem(f.kind, s.items[0])];
    }
  }

  lemma {:induction false} FieldsEncode(fields: seq<Field>, slots: seq<Slot>, k: nat)
    requires WellFormed(fields) && InBounds(fields, slots) && k <= |fields|
    ensures EncodeFields(fields, slots, k).Some?
    decreases fields, 1, k
  {
    if k > 0 {
      FieldRoundTrip(fields, slots, k - 1, []);
      FieldsEncode(fields, slots, k - 1);
    }
  }

  /** One more field, given that the fields before it, which wrote a, were read back. */
  lemma {:induction false} FieldsStep(dec: Reader, fields: seq<Field>, slots: seq<Slot>, k: nat, a: seq<Byte>, b: seq<Byte>,
                                      fresh0: seq<Slot>, none: set<nat>, rest: seq<Byte>)
    requires Reads(dec, fields) && WellFormed(fields) && InBounds(fields, slots) && k < |fields|
    requires EncodeField(fields[k], At(slots, fields[k].slot)) == Some(b) && ShortSlot(fields[k], At(slots, fields[k].slot))
    requires dec(a + (b + rest), fresh0, none) == dec(b + rest, After(fields, slots, k), SeenAfter(fields, k))
    ensures dec((a + b) + rest, fresh0, none) == dec(rest, After(fields, slots, k + 1), SeenAfter(fields, k + 1))
    decreases fields, 1, 0
  {
    FieldRoundTrip(fields, slots, k, rest);
    Reassociate(a, b, rest);
  }

  lemma {:induction false} FieldsRoundTrip(dec: Reader, fields: seq<Field>, slots: seq<Slot>, k: nat, bytes: seq<Byte>,
                                           fresh0: seq<Slot>, none: set<nat>, rest: seq<Byte>)
    requires Reads(dec, fields) && WellFormed(fields) && InBounds(fields, slots) && k <= |fields|
    requires EncodeFields(fields, slots, k) == Some(bytes)
    requires forall i :: 0 <= i < k ==> ShortSlot(fields[i], At(slots, fields[i].slot))
    requires fresh0 == Defaults(fields) && none == {}
    ensures dec(bytes + rest, fresh0, none) == dec(rest, After(fields, slots, k), SeenAfter(fields, k))
    decreases fields, 2, k
  {
    if k == 0 {
      AfterNone(fields, slots);
      assert [] + rest == rest;
    } else {
      var a, b := EncodeFields(fields, slots, k - 1).value, EncodeField(fields[k - 1], At(slots, fields[k - 1].slot)).value;
      FieldsRoundTrip(dec, fields, slots, k - 1, a, fresh0, none, b + rest);
      FieldsStep(dec, fields, slots, k - 1, a, b, fresh0, none, rest);
    }
  }

  /** The round trip: every message within bounds can be encoded, and decoding the bytes gives it back
      up to the contents of absent fields, as long as no length among them reaches 2^32. */
  lemma {:induction false} MessageRoundTrip(fields: seq<Field>, slots: seq<Slot>)
    requires WellFormed(fields) && InBounds(fields, slots)
    ensures EncodeMessage(fields, slots).Some?
    ensures ShortMessage(fields, slots) ==>
      Decode(fields, EncodeMessage(fields, slots).value) == Some(Normal(fields, slots))
    decreases fields, 3
  {
    var n := |fields|;
    FieldsEncode(fields, slots, n);
    var bs := EncodeMessage(fields, slots).value;
    if ShortMessage(fields, slots) {
      FieldsRoundTrip((x, y, z) => DecodeFields(fields, x, y, z), fields, slots, n, bs, Defaults(fields), {}, []);
      assert bs + [] == bs;
    }
    forall index: nat | index < RequiredBefore(fields, n) && index < MAX_REQUIRED_FIELDS
      ensures index in SeenAfter(fields, n)
    {
      AllAreSeen(fields, n, index);
    }
  }

  /** A well-formed descriptor is one the decoder can search. */
  lemma {:induction false} WellFormedIsDistinct(fields: seq<Field>)
    requires WellFormed(fields)
    ensures Distinct(fields)
    decreases fields, 1
  {
    forall i | 0 <= i < |fields|
      ensures fields[i].tag != 0 && DistinctBelow(fields[i])
    {
      FieldIsDistinct(fields[i]);
    }
  }

  lemma {:induction false} FieldIsDistinct(f: Field)
    requires WellFormedField(f)
    ensures DistinctBelow(f)
    decreases f, 0
  {
    if f.kind.MessageKind? {
      WellFormedIsDistinct(f.kind.fields);
    }
  }

  // ----- What comes back is the same message -----

  /** The message that comes back is written as the same bytes. */
  lemma {:induction false} NormalEncodesSame(fields: seq<Field>, slots: seq<Slot>, k: nat)
    requires WellFormed(fields) && InBounds(fields, slots) && k <= |fields|
    ensures EncodeFields(fields, Normal(fields, slots), k) == EncodeFields(fields, slots, k)
    decreases fields, 4, k
  {
    if k > 0 {
      NormalEncodesSame(fields, slots, k - 1);
      FieldEncodesSame(fields, slots, k - 1);
    }
  }

  lemma {:induction false} FieldEncodesSame(fields: seq<Field>, slots: seq<Slot>, k: nat)
    requires WellFormed(fields) && InBounds(fields, slots) && k < |fields|
    ensures EncodeField(fields[k], At(Normal(fields, slots), fields[k].slot)) ==
        EncodeField(fields[k], At(slots, fields[k].slot))
    decreases fields, 3
  {
    var f := fields[k];
    var s, n := At(slots, f.slot), At(Normal(fields, slots), f.slot);
    assert OwnSlot(fields, k) && WellFormedField(f) && SlotInBounds(f, s);
    NormalAt(fields, slots, f.slot);
    if f.rule.OneOf? {
      WhichComesBack(fields, slots, k);
    }
    if Emitted(f, s) {
      SlotEncodesSame(f, s);
    } else if f.rule.Singular? {
      SingularComesBack(f, s);
    }
  }

  lemma {:induction false} NormalAt(fields: seq<Field>, slots: seq<Slot>, i: nat)
    requires i < |fields|
    ensures At(Normal(fields, slots), i) == SlotAfter(fields, slots, i, |fields|)
  {
  }

  /** A oneof comes back with the same member present. */
  lemma {:induction false} WhichComesBack(fields: seq<Field>, slots: seq<Slot>, k: nat)
    requires WellFormed(fields) && InBounds(fields, slots) && k < |fields| && fields[k].rule.OneOf?
    ensures var s, n := At(slots, fields[k].slot), At(Normal(fields, slots), fields[k].slot);
      n.flag == s.flag && (s.flag == fields[k].tag ==> n == NormalSlot(fields[k], s))
  {
    var f := fields[k];
    var s := At(slots, f.slot);
    assert OwnSlot(fields, k) && WellFormedField(f);
    NormalAt(fields, slots, f.slot);
    if s.flag == 0 {
      forall j: nat
        ensures !Present(fields, slots, f.slot, j)
      {
        assert j < |fields| ==> WellFormedField(fields[j]);
      }
    } else {
      assert WhichKnown(fields, slots, f.slot);
      var j: nat :| j < |fields| && fields[j].rule.OneOf? && fields[j].slot == f.slot && fields[j].tag == s.flag;
      assert Present(fields, slots, f.slot, j);
      forall i: nat | Present(fields, slots, f.slot, i)
        ensures i == j
      {
        OnePresent(fields, slots, f.slot, i, j);
      }
      assert s.flag == f.tag ==> Present(fields, slots, f.slot, k);
    }
  }

  lemma {:induction false} SlotEncodesSame(f: Field, s: Slot)
    requires WellFormedField(f) && SlotInBounds(f, s) && Emitted(f, s)
    ensures EncodeField(f, NormalSlot(f, s)) == EncodeField(f, s)
    decreases f, 2
  {
    match f.rule
    case Repeated(_) => ItemsEncodeSame(f.kind, s.items, f.tag);
    case Singular =>
      ItemEncodesSame(f.kind, s.items[0]);
      assert Held(f, NormalSlot(f, s)) == NormalItem(f.kind, s.items[0]);
    case _ =>
      ItemEncodesSame(f.kind, s.items[0]);
      assert Held(f, NormalSlot(f, s)) == NormalItem(f.kind, s.items[0]);
  }

  lemma {:induction false} ItemsEncodeSame(kind: Kind, items: seq<Item>, tag: nat)
    requires AllInBounds(kind, items)
    ensures EncodeItems(kind, NormalItems(kind, items)) == EncodeItems(kind, items)
    ensures EncodeEach(tag, kind, NormalItems(kind, items)) == EncodeEach(tag, kind, items)
    decreases kind, 1, |items|
  {
    if items != [] {
      var n := |items| - 1;
      ItemsEncodeSame(kind, items[..n], tag);
      ItemEncodesSame(kind, items[n]);
      NormalItemsOneMore(kind, items);
      assert NormalItems(kind, items)[..n] == NormalItems(kind, items[..n]);
    }
  }

  lemma {:induction false} ItemEncodesSame(kind: Kind, item: Item)
    requires ItemInBounds(kind, item) && (kind.MessageKind? ==> WellFormed(kind.fields))
    ensures EncodeItem(kind, NormalItem(kind, item)) == EncodeItem(kind, item)
    ensures ZeroItem(kind, NormalItem(kind, item)) == ZeroItem(kind, item)
    decreases kind, 0
  {
    if kind.MessageKind? {
      var fields, slots := kind.fields, item.slots;
      NormalEncodesSame(fields, slots, |fields|);
      forall i | 0 <= i < |fields|
        ensures Unset(fields[i], At(Normal(fields, slots), fields[i].slot)) ==
            Unset(fields[i], At(slots, fields[i].slot))
      {
        UnsetComesBack(fields, slots, i);
      }
    }
  }

  lemma {:induction false} UnsetComesBack(fields: seq<Field>, slots: seq<Slot>, i: nat)
    requires WellFormed(fields) && InBounds(fields, slots) && i < |fields|
    ensures Unset(fields[i], At(Normal(fields, slots), fields[i].slot)) == Unset(fields[i], At(slots, fields[i].slot))
    decreases fields, 3
  {
    var f := fields[i];
    var s := At(slots, f.slot);
    assert OwnSlot(fields, i) && WellFormedField(f) && SlotInBounds(f, s);
    NormalAt(fields, slots, f.slot);
    if f.rule.OneOf? {
      WhichComesBack(fields, slots, i);
    } else if f.rule.Singular? {
      SingularComesBack(f, s);
    }
  }

  lemma {:induction false} SingularComesBack(f: Field, s: Slot)
    requires WellFormedField(f) && SlotInBounds(f, s) && f.rule.Singular?
    ensures Unset(f, NormalSlot(f, s)) == Unset(f, s)
    decreases f, 2
  {
    ItemEncodesSame(f.kind, s.items[0]);
    assert Held(f, NormalSlot(f, s)) == NormalItem(f.kind, s.items[0]);
  }
}
