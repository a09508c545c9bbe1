/** A packed array with more entries than its field has room for: the decoder refuses it and loses its bytes. */
module OverfullArrays {
  import opened Wrappers
  import opened Bytes
  import opened Varints
  import opened Messages
  import opened Decoding
  import opened Conservation
  import opened RoundTrip

  /** Stands for LeftOver in the induction over the entries. */
  type Watcher = (seq<Byte>, seq<Item>) -> bool

  ghost predicate Watches(left: Watcher, kind: Kind, arraySize: nat) {
    forall bs, items {:trigger LeftOver(kind, bs, items, arraySize)} ::
      left(bs, items) == LeftOver(kind, bs, items, arraySize)
  }

  lemma {:induction false} OneEntryTaken(left: Watcher, kind: Kind, item: Item, done: seq<Item>, arraySize: nat,
                                         rest: seq<Byte>)
    requires Watches(left, kind, arraySize) && Packable(kind) && ItemInBounds(kind, item)
    ensures EncodeItem(kind, item).Some?
    ensures left(EncodeItem(kind, item).value + rest, done) == (|done| >= arraySize || left(rest, done + [item]))
  {
    PlainRoundTrip(kind, item, rest, ZeroOf(kind));
    var bs := EncodeItem(kind, item).value + rest;
    assert bs != [];
    assert left(bs, done) == LeftOver(kind, bs, done, arraySize);
    assert left(rest, done + [item]) == LeftOver(kind, rest, done + [item], arraySize);
  }

  /** Behind the entries there is room for, one more is left over. */
  lemma {:induction false} EntriesTaken(left: Watcher, kind: Kind, items: seq<Item>, done: seq<Item>, arraySize: nat,
                                        rest: seq<Byte>)
    requires Watches(left, kind, arraySize) && Packable(kind) && AllInBounds(kind, items) && |done| <= arraySize
    ensures EncodeItems(kind, items).Some?
    ensures left(EncodeItems(kind, items).value + rest, done) ==
      (|done| + |items| > arraySize || left(rest, done + items))
    decreases |items|
  {
    if items == [] {
      assert done + items == done && [] + rest == rest;
    } else {
      var init, last := items[..|items| - 1], items[|items| - 1];
      OneEntryTaken(left, kind, last, done + init, arraySize, rest);
      EntriesTaken(left, kind, init, done, arraySize, EncodeItem(kind, last).value + rest);
      Reassociate(EncodeItems(kind, init).value, EncodeItem(kind, last).value, rest);
      assert (done + init) + [last] == done + items;
    }
  }

  /** The bytes of a packed array of valid entries are left over if and only if there is no room for all. */
  lemma {:induction false} LeftOverIsOverfull(kind: Kind, items: seq<Item>, arraySize: nat)
    requires Packable(kind) && AllInBounds(kind, items)
    ensures EncodeItems(kind, items).Some?
    ensures LeftOver(kind, EncodeItems(kind, items).value, [], arraySize) <==> |items| > arraySize
  {
    var left := (x, y) => LeftOver(kind, x, y, arraySize);
    EntriesTaken(left, kind, items, [], arraySize, []);
    assert EncodeItems(kind, items).value + [] == EncodeItems(kind, items).value;
    assert left([], items) == LeftOver(kind, [], items, arraySize);
  }

  lemma {:induction false} TagLeadsToLoss(fields: seq<Field>, k: nat, wireType: nat, payload: seq<Byte>, state: seq<Slot>)
    requires WellFormed(fields) && k < |fields| && wireType < 8
    requires DecodeField(fields[k], wireType, payload, At(state, fields[k].slot)).None?
    ensures LostFields(fields, TagBytes(fields[k].tag, wireType) + payload, state) ==
      LostField(fields[k], wireType, payload, At(state, fields[k].slot))
  {
    assert WellFormedField(fields[k]);
    TagRoundTrip(fields[k].tag, wireType, payload);
    FindOwn(fields, k);
  }

  /** What becomes of a packed array of valid entries, too many for the field: decoding fails, and the stream
      has lost exactly the declared length. */
  lemma {:induction false} OverfullArrayIsLost(fields: seq<Field>, k: nat, items: seq<Item>, state: seq<Slot>,
                                               seen: set<nat>, rest: seq<Byte>)
    requires WellFormed(fields) && k < |fields| && |state| == |fields|
    requires fields[k].rule.Repeated? && Packable(fields[k].kind) && |items| > fields[k].rule.arraySize
    requires AllInBounds(fields[k].kind, items) && state[k] == Slot(0, [])
    ensures EncodeItems(fields[k].kind, items).Some?
    ensures var bs := EncodeItems(fields[k].kind, items).value;
      |bs| < TWO_32 ==>
        && DecodeFields(fields, TagBytes(fields[k].tag, 2) + (WithLength(bs) + rest), state, seen).None?
        && LostFields(fields, TagBytes(fields[k].tag, 2) + (WithLength(bs) + rest), state) == |bs| > 0
  {
    var f := fields[k];
    assert OwnSlot(fields, k);
    LeftOverIsOverfull(f.kind, items, f.rule.arraySize);
    var bs := EncodeItems(f.kind, items).value;
    if |bs| < TWO_32 {
      StringRoundTrip(bs, rest);
      if DecodePacked(f.kind, bs, [], f.rule.arraySize).Some? {
        PackedLosesNothing(f.kind, bs, [], f.rule.arraySize);
      }
      TagLeads(fields, k, 2, WithLength(bs) + rest, state, seen);
      TagLeadsToLoss(fields, k, 2, WithLength(bs) + rest, state);
    }
  }
}
