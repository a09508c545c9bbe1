/** Messages with a length of 2^32 or more: nanopb writes them, and refuses to read them back. */
module LongLengths {
  import opened Wrappers
  import opened Bytes
  import opened Words
  import opened Varints
  import opened Streams
  import opened Messages
  import opened Decoding
  import opened RoundTrip
  import Encoder

  /** More bytes than any buffer holds. */
  const TOO_MANY: nat := 0x8000_0000_0000_0000

  lemma {:induction false} StringRefused(bs: seq<Byte>, rest: seq<Byte>)
    requires TWO_32 <= |bs| < TOO_MANY
    ensures TakeString(WithLength(bs) + rest).None?
  {
    Read32RefusesLong(|bs|, bs + rest);
    assert WithLength(bs) + rest == Varint(|bs|) + (bs + rest);
  }

  lemma {:induction false} ItemRefused(kind: Kind, item: Item, rest: seq<Byte>, current: Item)
    requires ItemInBounds(kind, item) && !ShortItem(kind, item)
    requires kind.MessageKind? ==> WellFormed(kind.fields) && current == ZeroOf(kind)
    requires EncodeItem(kind, item).Some? && |EncodeItem(kind, item).value| < TOO_MANY
    ensures DecodeItem(kind, EncodeItem(kind, item).value + rest, current).None?
    decreases kind, 0
  {
    var bs := EncodeMessage(kind.fields, item.slots).value;
    if |bs| >= TWO_32 {
      StringRefused(bs, rest);
    } else {
      StringRoundTrip(bs, rest);
      MessageRefused(kind.fields, item.slots);
    }
  }

  lemma {:induction false} EntryRefused(dec: Reader, fields: seq<Field>, k: nat, item: Item, got: seq<Item>,
                                        state: seq<Slot>, seen: set<nat>, rest: seq<Byte>)
    requires Reads(dec, fields) && WellFormed(fields) && k < |fields| && |state| == |fields|
    requires fields[k].rule.Repeated? && !Packable(fields[k].kind) && state[k] == Slot(0, got)
    requires ItemInBounds(fields[k].kind, item) && !ShortItem(fields[k].kind, item)
    requires var bytes := EncodeTagged(fields[k].tag, fields[k].kind, item); bytes.Some? && |bytes.value| < TOO_MANY
    ensures dec(EncodeTagged(fields[k].tag, fields[k].kind, item).value + rest, state, seen).None?
    decreases fields[k], 1
  {
    var f := fields[k];
    assert OwnSlot(fields, k) && WellFormedField(f);
    ItemRefused(f.kind, item, rest, ZeroOf(f.kind));
    var a, b := TagBytes(f.tag, WireType(f.kind)), EncodeItem(f.kind, item).value;
    Reassociate(a, b, rest);
    TagLeads(fields, k, WireType(f.kind), b + rest, state, seen);
  }

  /** The first n entries are short, and the next one is not. */
  lemma {:induction false} EachRefused(dec: Reader, fields: seq<Field>, k: nat, items: seq<Item>, n: nat,
                                       state: seq<Slot>, seen: set<nat>, rest: seq<Byte>)
    requires Reads(dec, fields) && WellFormed(fields) && k < |fields| && |state| == |fields|
    requires fields[k].rule.Repeated? && !Packable(fields[k].kind) && |items| <= fields[k].rule.arraySize
    requires AllInBounds(fields[k].kind, items) && state[k] == Slot(0, [])
    requires n < |items| && !ShortItem(fields[k].kind, items[n]) && ShortItems(fields[k].kind, items[..n])
    requires var bytes := EncodeEach(fields[k].tag, fields[k].kind, items); bytes.Some? && |bytes.value| < TOO_MANY
    ensures dec(EncodeEach(fields[k].tag, fields[k].kind, items).value + rest, state, seen).None?
    decreases fields[k], 2, |items|
  {
    var tag, kind, last := fields[k].tag, fields[k].kind, |items| - 1;
    var a, b := EncodeEach(tag, kind, items[..last]).value, EncodeTagged(tag, kind, items[last]).value;
    Reassociate(a, b, rest);
    if n < last {
      assert items[..last][..n] == items[..n];
      EachRefused(dec, fields, k, items[..last], n, state, seen, b + rest);
    } else {
      var got := NormalItems(kind, items[..n]);
      EachRoundTrip(dec, fields, k, items[..n], state, seen, b + rest);
      EntryRefused(dec, fields, k, items[n], got, state[k := Slot(0, got)], seen, rest);
    }
  }

  lemma {:induction false} FirstLongItem(kind: Kind, items: seq<Item>) returns (n: nat)
    requires !Packable(kind) && !ShortItems(kind, items)
    ensures n < |items| && !ShortItem(kind, items[n]) && ShortItems(kind, items[..n])
  {
    n := |items| - 1;
    if !ShortItems(kind, items[..n]) {
      n := FirstLongItem(kind, items[..n]);
      assert items[..|items| - 1][..n] == items[..n];
    }
  }

  lemma {:induction false} ArrayRefused(fields: seq<Field>, k: nat, items: seq<Item>, state: seq<Slot>, seen: set<nat>,
                                        rest: seq<Byte>)
    requires WellFormed(fields) && k < |fields| && |state| == |fields|
    requires fields[k].rule.Repeated? && 0 < |items| <= fields[k].rule.arraySize
    requires AllInBounds(fields[k].kind, items) && state[k] == Slot(0, []) && !ShortItems(fields[k].kind, items)
    requires var bytes := EncodeArray(fields[k].tag, fields[k].kind, fields[k].rule.arraySize, items);
      bytes.Some? && |bytes.value| < TOO_MANY
    ensures var bytes := EncodeArray(fields[k].tag, fields[k].kind, fields[k].rule.arraySize, items).value;
      DecodeFields(fields, bytes + rest, state, seen).None?
    decreases fields[k], 3
  {
    var f := fields[k];
    if Packable(f.kind) {
      assert OwnSlot(fields, k);
      var bs := EncodeItems(f.kind, items).value;
      Reassociate(TagBytes(f.tag, 2), WithLength(bs), rest);
      TagLeads(fields, k, 2, WithLength(bs) + rest, state, seen);
      StringRefused(bs, rest);
    } else {
      var n := FirstLongItem(f.kind, items);
      EachRefused((x, y, z) => DecodeFields(fields, x, y, z), fields, k, items, n, state, seen, rest);
    }
  }

  lemma {:induction false} TaggedRefused(fields: seq<Field>, k: nat, item: Item, state: seq<Slot>, seen: set<nat>,
                                         rest: seq<Byte>)
    requires WellFormed(fields) && k < |fields| && |state| == |fields| && fields[k].slot < |fields|
    requires !fields[k].rule.Repeated? && ItemInBounds(fields[k].kind, item) && !ShortItem(fields[k].kind, item)
    requires !fields[k].rule.OneOf? ==> state[fields[k].slot] == DefaultSlot(fields[k])
    requires var bytes := EncodeTagged(fields[k].tag, fields[k].kind, item); bytes.Some? && |bytes.value| < TOO_MANY
    ensures DecodeFields(fields, EncodeTagged(fields[k].tag, fields[k].kind, item).value + rest, state, seen).None?
    decreases fields[k], 1
  {
    var f := fields[k];
    assert WellFormedField(f);
    ItemRefused(f.kind, item, rest, if f.rule.OneOf? then ZeroOf(f.kind) else DefaultItem(f));
    var a, b := TagBytes(f.tag, WireType(f.kind)), EncodeItem(f.kind, item).value;
    Reassociate(a, b, rest);
    TagLeads(fields, k, WireType(f.kind), b + rest, state, seen);
  }

  lemma {:induction false} FieldRefused(fields: seq<Field>, slots: seq<Slot>, k: nat, rest: seq<Byte>)
    requires WellFormed(fields) && InBounds(fields, slots) && k < |fields|
    requires !ShortSlot(fields[k], At(slots, fields[k].slot))
    requires var bytes := EncodeField(fields[k], At(slots, fields[k].slot)); bytes.Some? && |bytes.value| < TOO_MANY
    ensures var bytes := EncodeField(fields[k], At(slots, fields[k].slot)).value;
      DecodeFields(fields, bytes + rest, After(fields, slots, k), SeenAfter(fields, k)).None?
    decreases fields, 0
  {
    var f := fields[k];
    var s, state, seen := At(slots, f.slot), After(fields, slots, k), SeenAfter(fields, k);
    assert OwnSlot(fields, k) && WellFormedField(f) && SlotInBounds(f, s);
    assert f.slot < |fields| && (!f.rule.OneOf? ==> state[f.slot] == SlotAfter(fields, slots, f.slot, k) == DefaultSlot(f));
    if f.rule.Repeated? {
      assert EncodeField(f, s) == EncodeArray(f.tag, f.kind, f.rule.arraySize, s.items);
      ArrayRefused(fields, k, s.items, state, seen, rest);
    } else {
      assert EncodeField(f, s) == EncodeTagged(f.tag, f.kind, s.items[0]);
      TaggedRefused(fields, k, s.items[0], state, seen, rest);
    }
  }

  lemma {:induction false} LastRefused(dec: Reader, fields: seq<Field>, slots: seq<Slot>, k: nat, a: seq<Byte>, b: seq<Byte>,
                                       fresh0: seq<Slot>, none: set<nat>, rest: seq<Byte>)
    requires Reads(dec, fields) && WellFormed(fields) && InBounds(fields, slots) && k < |fields|
    requires EncodeField(fields[k], At(slots, fields[k].slot)) == Some(b) && |b| < TOO_MANY
    requires !ShortSlot(fields[k], At(slots, fields[k].slot))
    requires dec(a + (b + rest), fresh0, none) == dec(b + rest, After(fields, slots, k), SeenAfter(fields, k))
    ensures dec((a + b) + rest, fresh0, none).None?
    decreases fields, 1, 0
  {
    FieldRefused(fields, slots, k, rest);
    Reassociate(a, b, rest);
  }

  /** The fields before i are short, and field i is not. */
  lemma {:induction false} FieldsRefused(dec: Reader, fields: seq<Field>, slots: seq<Slot>, i: nat, k: nat, bytes: seq<Byte>,
                                         fresh0: seq<Slot>, none: set<nat>, rest: seq<Byte>)
    requires Reads(dec, fields) && WellFormed(fields) && InBounds(fields, slots) && i < k <= |fields|
    requires EncodeFields(fields, slots, k) == Some(bytes) && |bytes| < TOO_MANY
    requires !ShortSlot(fields[i], At(slots, fields[i].slot))
    requires forall j :: 0 <= j < i ==> ShortSlot(fields[j], At(slots, fields[j].slot))
    requires fresh0 == Defaults(fields) && none == {}
    ensures dec(bytes + rest, fresh0, none).None?
    decreases fields, 2, k
  {
    var a, b := EncodeFields(fields, slots, k - 1).value, EncodeField(fields[k - 1], At(slots, fields[k - 1].slot)).value;
    if i < k - 1 {
      FieldsRefused(dec, fields, slots, i, k - 1, a, fresh0, none, b + rest);
      Reassociate(a, b, rest);
    } else {
      FieldsRoundTrip(dec, fields, slots, k - 1, a, fresh0, none, b + rest);
      LastRefused(dec, fields, slots, k - 1, a, b, fresh0, none, rest);
    }
  }

  lemma {:induction false} FirstLongField(fields: seq<Field>, slots: seq<Slot>, k: nat) returns (i: nat)
    requires k <= |fields| && exists j :: 0 <= j < k && !ShortSlot(fields[j], At(slots, fields[j].slot))
    ensures i < k && !ShortSlot(fields[i], At(slots, fields[i].slot))
    ensures forall j :: 0 <= j < i ==> ShortSlot(fields[j], At(slots, fields[j].slot))
  {
    i := k - 1;
    if exists j :: 0 <= j < k - 1 && !ShortSlot(fields[j], At(slots, fields[j].slot)) {
      i := FirstLongField(fields, slots, k - 1);
    }
  }

  /** A message with a length of 2^32 or more anywhere in it is refused. */
  lemma {:induction false} MessageRefused(fields: seq<Field>, slots: seq<Slot>)
    requires WellFormed(fields) && InBounds(fields, slots) && !ShortMessage(fields, slots)
    requires EncodeMessage(fields, slots).Some? && |EncodeMessage(fields, slots).value| < TOO_MANY
    ensures Decode(fields, EncodeMessage(fields, slots).value).None?
    decreases fields, 3
  {
    var bs := EncodeMessage(fields, slots).value;
    var i := FirstLongField(fields, slots, |fields|);
    FieldsRefused((x, y, z) => DecodeFields(fields, x, y, z), fields, slots, i, |fields|, bs, Defaults(fields), {}, []);
    assert bs + [] == bs;
  }

  /** The condition of the round trip is exact: a message comes back if and only if every length in its
      wire form is below 2^32, and the decoder refuses it otherwise. */
  lemma {:induction false} RoundTripIsExact(fields: seq<Field>, slots: seq<Slot>, bytes: seq<Byte>)
    requires WellFormed(fields) && InBounds(fields, slots)
    requires EncodeMessage(fields, slots) == Some(bytes) && |bytes| < TOO_MANY
    ensures ShortMessage(fields, slots) <==> Decode(fields, bytes) == Some(Normal(fields, slots))
    ensures !ShortMessage(fields, slots) <==> Decode(fields, bytes).None?
  {
    MessageRoundTrip(fields, slots);
    if !ShortMessage(fields, slots) {
      MessageRefused(fields, slots);
    }
  }

  // ----- A message that is lost -----

  /** One packed array of fixed 64-bit words. */
  function WordsField(n: PbSize): seq<Field> {
    [Field(1, Repeated(n), Fixed64Kind, 0, Number(0), Place(8, -8, 8))]
  }

  function WordsMessage(n: PbSize): seq<Slot> {
    [Slot(0, seq(n, _ => Number(0)))]
  }

  lemma {:induction false} WordsInBounds(n: PbSize)
    ensures WellFormed(WordsField(n)) && InBounds(WordsField(n), WordsMessage(n))
  {
    assert OwnSlot(WordsField(n), 0) && WellFormedField(WordsField(n)[0]);
    assert SlotInBounds(WordsField(n)[0], WordsMessage(n)[0]);
  }

  lemma {:induction false} WordsSize(n: PbSize)
    requires n > 0
    ensures EncodeItems(Fixed64Kind, WordsMessage(n)[0].items).Some?
    ensures |EncodeItems(Fixed64Kind, WordsMessage(n)[0].items).value| == 8 * n
    ensures EncodeMessage(WordsField(n), WordsMessage(n)).Some?
    ensures |EncodeMessage(WordsField(n), WordsMessage(n)).value| < 8 * n + 20
  {
    var items, fields, slots := WordsMessage(n)[0].items, WordsField(n), WordsMessage(n);
    Encoder.FixedSize(Fixed64Kind, items);
    Pow128Ten();
    ShortVarint(Cast64(8 * n), 10);
    ShortVarint(Cast64(10), 1);
    assert EncodeField(fields[0], At(slots, 0)) == EncodeArray(1, Fixed64Kind, n, items);
    assert EncodeFields(fields, slots, 0) == Some([]);
    assert EncodeMessage(fields, slots) == Join(Some([]), EncodeArray(1, Fixed64Kind, n, items));
  }

  /** The condition bites: an array of n fixed 64-bit words is written, and is read back if and only if there
      are fewer than 2^29 of them. */
  lemma {:induction false} LongArrayIsLost(n: PbSize, bytes: seq<Byte>)
    requires n > 0 && EncodeMessage(WordsField(n), WordsMessage(n)) == Some(bytes)
    ensures Decode(WordsField(n), bytes).None? <==> n >= 0x2000_0000
  {
    var fields, slots := WordsField(n), WordsMessage(n);
    WordsInBounds(n);
    WordsSize(n);
    RoundTripIsExact(fields, slots, bytes);
    assert ShortMessage(fields, slots) <==> ShortSlot(fields[0], At(slots, 0));
  }
}
