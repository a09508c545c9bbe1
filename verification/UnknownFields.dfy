/** Fields a descriptor does not know may stand anywhere between the others. */
module UnknownFields {
  import opened Wrappers
  import opened Bytes
  import opened Varints
  import opened Messages
  import opened Decoding
  import opened RoundTrip
  import opened WireFormat

  // ----- What is read does not depend on what follows -----

  lemma {:induction false} TakeStringLocal(bs: seq<Byte>, more: seq<Byte>)
    requires TakeString(bs).Some?
    ensures TakeString(bs + more) == Some((TakeString(bs).value.0, TakeString(bs).value.1 + more))
  {
    Read32Local(bs, more);
    var (n, rest) := Read32(bs).value;
    assert (rest + more)[..n] == rest[..n] && (rest + more)[n..] == rest[n..] + more;
  }

  lemma {:induction false} SkipVarintLocal(bs: seq<Byte>, more: seq<Byte>)
    requires SkipVarint(bs).Some?
    ensures SkipVarint(bs + more) == Some(SkipVarint(bs).value + more)
    decreases |bs|
  {
    assert (bs + more)[1..] == bs[1..] + more;
    if bs[0] >= 128 {
      SkipVarintLocal(bs[1..], more);
    }
  }

  lemma {:induction false} SkipFieldLocal(wireType: nat, bs: seq<Byte>, more: seq<Byte>)
    requires SkipField(wireType, bs).Some?
    ensures SkipField(wireType, bs + more) == Some(SkipField(wireType, bs).value + more)
  {
    match wireType
    case 0 => SkipVarintLocal(bs, more);
    case 1 => assert (bs + more)[8..] == bs[8..] + more;
    case 2 => TakeStringLocal(bs, more);
    case 5 => assert (bs + more)[4..] == bs[4..] + more;
  }

  lemma {:induction false} ReadVarintLocal(bs: seq<Byte>, more: seq<Byte>)
    requires ReadVarint(bs).Some?
    ensures ReadVarint(bs + more) == Some((ReadVarint(bs).value.0, ReadVarint(bs).value.1 + more))
  {
    GroupsLocal(bs, 0, more);
  }

  lemma {:induction false} TakeLocal(bs: seq<Byte>, n: nat, more: seq<Byte>)
    requires Take(bs, n).Some?
    ensures Take(bs + more, n) == Some((Take(bs, n).value.0, Take(bs, n).value.1 + more))
  {
    assert (bs + more)[..n] == bs[..n] && (bs + more)[n..] == bs[n..] + more;
  }

  lemma {:induction false} ItemLocal(kind: Kind, bs: seq<Byte>, current: Item, more: seq<Byte>)
    requires DecodeItem(kind, bs, current).Some?
    ensures var (item, rest) := DecodeItem(kind, bs, current).value;
      DecodeItem(kind, bs + more, current) == Some((item, rest + more))
  {
    match kind
    case IntKind(_) => ReadVarintLocal(bs, more);
    case UIntKind(_) => ReadVarintLocal(bs, more);
    case SIntKind(_) => ReadVarintLocal(bs, more);
    case Fixed32Kind => TakeLocal(bs, 4, more);
    case Fixed64Kind => TakeLocal(bs, 8, more);
    case BytesKind(_) => TakeStringLocal(bs, more);
    case StringKind(_) => TakeStringLocal(bs, more);
    case FixedBytesKind(_) => TakeStringLocal(bs, more);
    case MessageKind(_) => TakeStringLocal(bs, more);
  }

  lemma {:induction false} FieldLocal(f: Field, wireType: nat, bs: seq<Byte>, s: Slot, more: seq<Byte>)
    requires DecodeField(f, wireType, bs, s).Some?
    ensures var (after, rest) := DecodeField(f, wireType, bs, s).value;
      DecodeField(f, wireType, bs + more, s) == Some((after, rest + more))
  {
    match f.rule
    case Repeated(_) =>
      if wireType == 2 && Packable(f.kind) {
        TakeStringLocal(bs, more);
      } else {
        ItemLocal(f.kind, bs, ZeroOf(f.kind), more);
      }
    case OneOf => ItemLocal(f.kind, bs, ZeroOf(f.kind), more);
    case _ => ItemLocal(f.kind, bs, Held(f, s), more);
  }

  lemma {:induction false} TagLocal(bs: seq<Byte>, more: seq<Byte>)
    requires DecodeTag(bs).Tag?
    ensures var t := DecodeTag(bs); DecodeTag(bs + more) == Tag(t.tag, t.wireType, t.rest + more)
  {
    Read32Local(bs, more);
  }

  // ----- Whole fields -----

  /** One field off the front: the slots and the seen set after it, and the rest; None when there is no
      whole field, or a zero tag. */
  function Step(fields: seq<Field>, bs: seq<Byte>, slots: seq<Slot>,
                seen: set<nat>): (r: Option<(seq<Byte>, seq<Slot>, set<nat>)>)
    ensures r.Some? ==> |r.value.0| < |bs|
  {
    match DecodeTag(bs)
    case Tag(tag, wireType, rest) => (
      if fields == [] && tag == 0 then None else
      match Find(fields, tag)
      case None => (
        match SkipField(wireType, rest)
        case None => None
        case Some(end) => Some((end, slots, seen)))
      case Some(i) => (
        match DecodeField(fields[i], wireType, rest, At(slots, fields[i].slot))
        case None => None
        case Some((s, end)) => Some((end, Put(slots, fields[i].slot, s), MarkSeen(fields, seen, i)))))
    case _ => None
  }

  /** Whole fields only, no zero tag among them: the slots and the seen set they lead to. */
  function Fields(fields: seq<Field>, bs: seq<Byte>, slots: seq<Slot>, seen: set<nat>): Option<(seq<Slot>, set<nat>)>
    decreases |bs|
  {
    if bs == [] then Some((slots, seen)) else
    match Step(fields, bs, slots, seen)
    case None => None
    case Some((rest, slots', seen')) => Fields(fields, rest, slots', seen')
  }

  lemma {:induction false} StepLocal(fields: seq<Field>, bs: seq<Byte>, slots: seq<Slot>, seen: set<nat>,
                                     more: seq<Byte>)
    requires Step(fields, bs, slots, seen).Some?
    ensures var (rest, slots', seen') := Step(fields, bs, slots, seen).value;
      Step(fields, bs + more, slots, seen) == Some((rest + more, slots', seen'))
  {
    TagLocal(bs, more);
    var t := DecodeTag(bs);
    match Find(fields, t.tag)
    case None => SkipFieldLocal(t.wireType, t.rest, more);
    case Some(i) => FieldLocal(fields[i], t.wireType, t.rest, At(slots, fields[i].slot), more);
  }

  lemma {:induction false} StepDecodes(fields: seq<Field>, bs: seq<Byte>, slots: seq<Slot>, seen: set<nat>)
    requires Step(fields, bs, slots, seen).Some?
    ensures var (rest, slots', seen') := Step(fields, bs, slots, seen).value;
      bs != [] && DecodeFields(fields, bs, slots, seen) == DecodeFields(fields, rest, slots', seen')
  {
  }

  /** Whole fields in front of anything are taken over first, then the rest is decoded. */
  lemma {:induction false} FieldsFirst(fields: seq<Field>, a: seq<Byte>, b: seq<Byte>, slots: seq<Slot>, seen: set<nat>)
    requires Fields(fields, a, slots, seen).Some?
    ensures var (slots', seen') := Fields(fields, a, slots, seen).value;
      DecodeFields(fields, a + b, slots, seen) == DecodeFields(fields, b, slots', seen')
    decreases |a|
  {
    if a == [] {
      assert a + b == b;
    } else {
      var (rest, slots', seen') := Step(fields, a, slots, seen).value;
      StepLocal(fields, a, slots, seen, b);
      StepDecodes(fields, a + b, slots, seen);
      FieldsFirst(fields, rest, b, slots', seen');
    }
  }

  /** A well-formed field whose number no field of the descriptor has. Number zero with wire type zero is
      not a field: it ends the message. */
  ghost predicate Unknown(fields: seq<Field>, tag: nat, wireType: nat, payload: seq<Byte>) {
    && tag < 0x2000_0000 && wireType < 8 && (tag > 0 || wireType > 0)
    && (forall i :: 0 <= i < |fields| ==> fields[i].tag != tag)
    && WholePayload(wireType, payload)
  }

  lemma {:induction false} SkippedStep(fields: seq<Field>, bs: seq<Byte>, tag: nat, wireType: nat, rest: seq<Byte>,
                                       end: seq<Byte>, slots: seq<Slot>, seen: set<nat>)
    requires bs != [] && DecodeTag(bs) == Tag(tag, wireType, rest) && SkipField(wireType, rest) == Some(end)
    requires forall i :: 0 <= i < |fields| ==> fields[i].tag != tag
    ensures DecodeFields(fields, bs, slots, seen) ==
        if fields == [] && tag == 0 then None else DecodeFields(fields, end, slots, seen)
  {
    assert Find(fields, tag).None?;
  }

  /** Exactly what an unknown field does: it is skipped, except that in a message type without fields number
      zero counts as known, by the terminator, and is refused. */
  lemma {:induction false} UnknownIsSkipped(fields: seq<Field>, tag: nat, wireType: nat, payload: seq<Byte>, b: seq<Byte>,
                                            slots: seq<Slot>, seen: set<nat>)
    requires Unknown(fields, tag, wireType, payload)
    ensures DecodeFields(fields, TagBytes(tag, wireType) + payload + b, slots, seen) ==
        if fields == [] && tag == 0 then None else DecodeFields(fields, b, slots, seen)
  {
    var bs := TagBytes(tag, wireType) + (payload + b);
    assert DecodeTag(bs) == Tag(tag, wireType, payload + b) by {
      TagParts(tag, wireType);
      Varint32RoundTrip(8 * tag + wireType, payload + b);
    }
    PayloadIsSkipped(wireType, payload, b);
    Reassociate(TagBytes(tag, wireType), payload, b);
    SkippedStep(fields, bs, tag, wireType, payload + b, b, slots, seen);
  }

  /** The same between the fields of a message, or around them. */
  lemma {:induction false} UnknownFieldIsExact(fields: seq<Field>, a: seq<Byte>, tag: nat, wireType: nat,
                                               payload: seq<Byte>, b: seq<Byte>, slots: seq<Slot>)
    requires Unknown(fields, tag, wireType, payload) && Fields(fields, a, slots, {}).Some?
    ensures DecodeMessage(fields, a + (TagBytes(tag, wireType) + payload + b), slots) ==
        if fields == [] && tag == 0 then None else DecodeMessage(fields, a + b, slots)
  {
    var (slots', seen') := Fields(fields, a, slots, {}).value;
    FieldsFirst(fields, a, TagBytes(tag, wireType) + payload + b, slots, {});
    FieldsFirst(fields, a, b, slots, {});
    UnknownIsSkipped(fields, tag, wireType, payload, b, slots', seen');
  }

  /** An unknown field leaves any message that decodes as it is if and only if it does not have number zero
      in a message type without fields. */
  lemma {:induction false} UnknownFieldIsIgnored(fields: seq<Field>, a: seq<Byte>, tag: nat, wireType: nat,
                                                 payload: seq<Byte>, b: seq<Byte>, slots: seq<Slot>)
    requires Unknown(fields, tag, wireType, payload) && Fields(fields, a, slots, {}).Some?
    requires DecodeMessage(fields, a + b, slots).Some?
    ensures DecodeMessage(fields, a + (TagBytes(tag, wireType) + payload + b), slots) == DecodeMessage(fields, a + b, slots)
      <==> tag != 0 || fields != []
  {
    UnknownFieldIsExact(fields, a, tag, wireType, payload, b, slots);
  }

  // ----- Readers that lack fields -----

  /** No field of the reader has that number. */
  predicate Lacks(reader: seq<Field>, number: nat) {
    forall i :: 0 <= i < |reader| ==> reader[i].tag != number
  }

  /** Any field on the wire that the reader lacks is skipped, however its tag is padded. */
  lemma {:induction false} OneFieldIsSkipped(reader: seq<Field>, number: nat, wireType: nat, p: seq<Byte>, bs: seq<Byte>,
                                             rest: seq<Byte>, slots: seq<Slot>, seen: set<nat>)
    requires 0 < number < 0x2000_0000 && wireType < 8 && Lacks(reader, number)
    requires OneField(number, wireType, p, bs) && WholePayload(wireType, p)
    ensures DecodeFields(reader, bs + rest, slots, seen) == DecodeFields(reader, rest, slots, seen)
  {
    var tag :| WholeVarint(tag) && Weigh(tag) == 8 * number + wireType && bs == tag + p;
    Reassociate(tag, p, rest);
    GroupsOf(tag, p + rest);
    PaddedIsRead(tag + (p + rest));
    TagParts(number, wireType);
    PayloadIsSkipped(wireType, p, rest);
    SkippedStep(reader, tag + (p + rest), number, wireType, p + rest, rest, slots, seen);
  }

  lemma {:induction false} SingleIsSkipped(reader: seq<Field>, number: nat, kind: Kind, item: Item, bs: seq<Byte>,
                                           rest: seq<Byte>, slots: seq<Slot>, seen: set<nat>)
    requires 0 < number < 0x2000_0000 && Lacks(reader, number) && Single(number, kind, item, bs)
    ensures DecodeFields(reader, bs + rest, slots, seen) == DecodeFields(reader, rest, slots, seen)
  {
    var p :| OneField(number, WireType(kind), p, bs) && Means(kind, item, p);
    WireTypeIsRight(kind, item, p);
    OneFieldIsSkipped(reader, number, WireType(kind), p, bs, rest, slots, seen);
  }

  lemma {:induction false} EachIsSkipped(reader: seq<Field>, number: nat, kind: Kind, items: seq<Item>, bs: seq<Byte>,
                                         rest: seq<Byte>, slots: seq<Slot>, seen: set<nat>)
    requires 0 < number < 0x2000_0000 && Lacks(reader, number) && Each(number, kind, items, bs)
    ensures DecodeFields(reader, bs + rest, slots, seen) == DecodeFields(reader, rest, slots, seen)
    decreases |items|
  {
    if items == [] {
      assert bs + rest == rest;
    } else {
      var n := |items| - 1;
      var a, b :| bs == a + b && Each(number, kind, items[..n], a) && Single(number, kind, items[n], b);
      Reassociate(a, b, rest);
      EachIsSkipped(reader, number, kind, items[..n], a, b + rest, slots, seen);
      SingleIsSkipped(reader, number, kind, items[n], b, rest, slots, seen);
    }
  }

  lemma {:induction false} FieldIsSkipped(reader: seq<Field>, f: Field, s: Slot, bs: seq<Byte>, rest: seq<Byte>,
                                          slots: seq<Slot>, seen: set<nat>)
    requires 0 < f.tag < 0x2000_0000 && Lacks(reader, f.tag) && FieldWritten(f, s, bs)
    ensures DecodeFields(reader, bs + rest, slots, seen) == DecodeFields(reader, rest, slots, seen)
  {
    if !Written(f, s) {
      assert bs + rest == rest;
    } else if !f.rule.Repeated? {
      SingleIsSkipped(reader, f.tag, f.kind, s.items[0], bs, rest, slots, seen);
    } else if Packable(f.kind) {
      var p, body :| OneField(f.tag, 2, p, bs) && Delimited(p, body) && Entries(f.kind, s.items, body);
      OneFieldIsSkipped(reader, f.tag, 2, p, bs, rest, slots, seen);
    } else {
      EachIsSkipped(reader, f.tag, f.kind, s.items, bs, rest, slots, seen);
    }
  }

  lemma {:induction false} FieldsAreSkipped(reader: seq<Field>, fields: seq<Field>, mine: seq<Slot>, k: nat, bs: seq<Byte>,
                                            rest: seq<Byte>, slots: seq<Slot>, seen: set<nat>)
    requires WellFormed(fields) && k <= |fields| && FieldsWritten(fields, mine, k, bs)
    requires forall i :: 0 <= i < k ==> Lacks(reader, fields[i].tag)
    ensures DecodeFields(reader, bs + rest, slots, seen) == DecodeFields(reader, rest, slots, seen)
    decreases k
  {
    if k == 0 {
      assert bs + rest == rest;
    } else {
      var f := fields[k - 1];
      var a, b :| bs == a + b && FieldsWritten(fields, mine, k - 1, a) && FieldWritten(f, At(mine, f.slot), b);
      assert WellFormedField(f);
      Reassociate(a, b, rest);
      FieldsAreSkipped(reader, fields, mine, k - 1, a, b + rest, slots, seen);
      FieldIsSkipped(reader, f, At(mine, f.slot), b, rest, slots, seen);
    }
  }

  /** What was written for a message of one type is nothing to a reader of another type that has none of its
      fields: in front of anything, and whatever the reader has taken over so far. */
  lemma {:induction false} ForeignMessageIsSkipped(reader: seq<Field>, fields: seq<Field>, mine: seq<Slot>, bs: seq<Byte>,
                                                   rest: seq<Byte>, slots: seq<Slot>, seen: set<nat>)
    requires WellFormed(fields) && InBounds(fields, mine) && ShortMessage(fields, mine)
    requires EncodeMessage(fields, mine) == Some(bs)
    requires forall i :: 0 <= i < |fields| ==> Lacks(reader, fields[i].tag)
    ensures DecodeFields(reader, bs + rest, slots, seen) == DecodeFields(reader, rest, slots, seen)
  {
    MessageIsWritten(fields, mine, |fields|, bs);
    FieldsAreSkipped(reader, fields, mine, |fields|, bs, rest, slots, seen);
  }

  // ----- The required fields -----

  /** The fields the bytes hold, by position. */
  function Appearing(fields: seq<Field>, bs: seq<Byte>, slots: seq<Slot>): set<nat>
    decreases |bs|
  {
    match Step(fields, bs, slots, {})
    case None => {}
    case Some((rest, slots', _)) =>
      var own := match Find(fields, DecodeTag(bs).tag) case Some(i) => {i} case None => {};
      own + Appearing(fields, rest, slots')
  }

  /** Position i shows the required field of that index. */
  predicate Shows(fields: seq<Field>, i: nat, index: nat) {
    i < |fields| && fields[i].rule.Required? && RequiredBefore(fields, i) == index
  }

  lemma {:induction false} SeenIsAppearing(fields: seq<Field>, bs: seq<Byte>, slots: seq<Slot>, seen: set<nat>,
                                           index: nat)
    requires DecodeFields(fields, bs, slots, seen).Some? && index < MAX_REQUIRED_FIELDS
    ensures index in DecodeFields(fields, bs, slots, seen).value.1 <==>
      index in seen || exists i :: i in Appearing(fields, bs, slots) && Shows(fields, i, index)
    decreases |bs|
  {
    if bs != [] && DecodeTag(bs).Tag? {
      var t := DecodeTag(bs);
      var (rest, slots', seen') := Step(fields, bs, slots, seen).value;
      assert Step(fields, bs, slots, {}).value.0 == rest && Step(fields, bs, slots, {}).value.1 == slots';
      StepDecodes(fields, bs, slots, seen);
      SeenIsAppearing(fields, rest, slots', seen', index);
      var later := Appearing(fields, rest, slots');
      match Find(fields, t.tag) {
        case None =>
          assert Appearing(fields, bs, slots) == later;
        case Some(own) =>
          assert Appearing(fields, bs, slots) == {own} + later;
          assert index in seen' <==> index in seen || Shows(fields, own, index);
      }
    } else {
      assert Appearing(fields, bs, slots) == {};
    }
  }

  lemma {:induction false} RequiredAt(fields: seq<Field>, n: nat, index: nat) returns (i: nat)
    requires n <= |fields| && index < RequiredBefore(fields, n)
    ensures i < n && Shows(fields, i, index)
  {
    i := n - 1;
    if index < RequiredBefore(fields, n - 1) {
      i := RequiredAt(fields, n - 1, index);
    }
  }

  lemma {:induction false} ShowsOnce(fields: seq<Field>, i: nat, j: nat, index: nat)
    requires Shows(fields, i, index) && Shows(fields, j, index)
    ensures i == j
  {
    if i < j {
      RequiredGrows(fields, i, j);
    } else if j < i {
      RequiredGrows(fields, j, i);
    }
  }

  /** The required-field check is exact: fields that could be decoded are refused if and only if one of
      the first 64 required fields is not among them. */
  lemma {:induction false} RequiredCheckIsExact(fields: seq<Field>, bs: seq<Byte>, slots: seq<Slot>)
    requires DecodeFields(fields, bs, slots, {}).Some?
    ensures DecodeMessage(fields, bs, slots).Some? <==>
      forall i :: 0 <= i < |fields| && fields[i].rule.Required? && RequiredBefore(fields, i) < MAX_REQUIRED_FIELDS ==>
        i in Appearing(fields, bs, slots)
  {
    var seen, n := DecodeFields(fields, bs, slots, {}).value.1, |fields|;
    var all := Appearing(fields, bs, slots);
    forall i | 0 <= i < n && fields[i].rule.Required? && RequiredBefore(fields, i) < MAX_REQUIRED_FIELDS
      ensures RequiredBefore(fields, i) < RequiredBefore(fields, n)
      ensures RequiredBefore(fields, i) in seen <==> i in all
    { // each required field has an index of its own
      var index := RequiredBefore(fields, i);
      RequiredGrows(fields, i, n);
      SeenIsAppearing(fields, bs, slots, {}, index);
      assert Shows(fields, i, index);
      forall j | j in all && Shows(fields, j, index)
        ensures j == i
      {
        ShowsOnce(fields, i, j, index);
      }
    }
    if forall i :: 0 <= i < n && fields[i].rule.Required? && RequiredBefore(fields, i) < MAX_REQUIRED_FIELDS ==>
      i in all {
      forall index: nat | index < RequiredBefore(fields, n) && index < MAX_REQUIRED_FIELDS
        ensures index in seen
      {
        var i := RequiredAt(fields, n, index);
      }
    }
  }
}
