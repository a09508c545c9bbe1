/** Cursor and bytes left: decoding keeps their sum, except after one kind of failure. */
module Conservation {
  import opened Wrappers
  import opened Bytes
  import opened Messages
  import opened Decoding

  // ----- Success -----

  lemma {:induction false} PackedLosesNothing(kind: Kind, bs: seq<Byte>, items: seq<Item>, arraySize: nat)
    requires DecodePacked(kind, bs, items, arraySize).Some?
    ensures !LeftOver(kind, bs, items, arraySize)
    decreases |bs|
  {
    if bs != [] {
      var (item, rest) := DecodeItem(kind, bs, ZeroOf(kind)).value;
      PackedLosesNothing(kind, rest, items + [item], arraySize);
    }
  }

  lemma {:induction false} ItemLosesNothing(kind: Kind, bs: seq<Byte>, current: Item)
    requires DecodeItem(kind, bs, current).Some?
    ensures LostItem(kind, bs, current) == 0
    decreases |bs|, 0
  {
    if kind.MessageKind? {
      var (sub, _) := TakeString(bs).value;
      MessageLosesNothing(kind.fields, sub, SlotsOf(kind.fields, current), {});
    }
  }

  lemma {:induction false} FieldLosesNothing(f: Field, wireType: nat, bs: seq<Byte>, s: Slot)
    requires DecodeField(f, wireType, bs, s).Some?
    ensures LostField(f, wireType, bs, s) == 0
    decreases |bs|, 2
  {
    match f.rule
    case Repeated(arraySize) =>
      if wireType == 2 && Packable(f.kind) {
        PackedLosesNothing(f.kind, TakeString(bs).value.0, s.items, arraySize);
      } else {
        ItemLosesNothing(f.kind, bs, ZeroOf(f.kind));
      }
    case OneOf => ItemLosesNothing(f.kind, bs, ZeroOf(f.kind));
    case _ => ItemLosesNothing(f.kind, bs, Held(f, s));
  }

  /** Fields that can be decoded lose nothing, whether or not a required one is missing. */
  lemma {:induction false} MessageLosesNothing(fields: seq<Field>, bs: seq<Byte>, slots: seq<Slot>, seen: set<nat>)
    requires DecodeFields(fields, bs, slots, seen).Some?
    ensures LostFields(fields, bs, slots) == 0
    decreases |bs|, 3
  {
    if bs != [] && DecodeTag(bs).Tag? {
      var Tag(tag, wireType, rest) := DecodeTag(bs);
      match Find(fields, tag)
      case None =>
        MessageLosesNothing(fields, SkipField(wireType, rest).value, slots, seen);
      case Some(i) =>
        var f := fields[i];
        var (s, rest') := DecodeField(f, wireType, rest, At(slots, f.slot)).value;
        MessageLosesNothing(fields, rest', Put(slots, f.slot, s), MarkSeen(fields, seen, i));
    }
  }

  // ----- Failure -----

  /** A field at which decoding fails: what follows its tag, and its slot at that moment. */
  datatype Failure = Failure(f: Field, wireType: nat, bs: seq<Byte>, slot: Slot)
  {
    /** It is a packed array with bytes left over. */
    predicate Abandons() {
      && f.rule.Repeated? && wireType == 2 && Packable(f.kind) && TakeString(bs).Some?
      && LeftOver(f.kind, TakeString(bs).value.0, slot.items, f.rule.arraySize)
    }
  }

  /** The failing field inside a nested message, at whatever depth. */
  function FailsInside(kind: Kind, bs: seq<Byte>, current: Item): Option<Failure>
    decreases |bs|, 0
  {
    match kind
    case MessageKind(fields) => (
      match TakeString(bs)
      case None => None
      case Some((sub, _)) => FirstFailure(fields, sub, SlotsOf(fields, current)))
    case _ => None
  }

  /** The innermost failing field of a field that fails. */
  function Innermost(f: Field, wireType: nat, bs: seq<Byte>, s: Slot): (x: Failure)
    decreases |bs|, 2
  {
    var inside :=
      match f.rule
      case Repeated(arraySize) =>
        if (wireType == 2 && Packable(f.kind)) || |s.items| >= arraySize then None
        else FailsInside(f.kind, bs, ZeroOf(f.kind))
      case OneOf => FailsInside(f.kind, bs, ZeroOf(f.kind))
      case _ => FailsInside(f.kind, bs, Held(f, s));
    if inside.Some? then inside.value else Failure(f, wireType, bs, s)
  }

  /** The first field at which decoding fails, and of nested ones the innermost. None when every known field
      can be decoded: then at most a tag, an unknown field or the check of the required ones fails. */
  function FirstFailure(fields: seq<Field>, bs: seq<Byte>, slots: seq<Slot>): Option<Failure>
    decreases |bs|, 3
  {
    if bs == [] then None else
    match DecodeTag(bs)
    case BadTag => None
    case EndTag => None
    case Tag(tag, wireType, rest) =>
      if fields == [] && tag == 0 then None else
      match Find(fields, tag)
      case None => (
        match SkipField(wireType, rest)
        case None => None
        case Some(rest') => FirstFailure(fields, rest', slots))
      case Some(i) =>
        var f := fields[i];
        match DecodeField(f, wireType, rest, At(slots, f.slot))
        case None => Some(Innermost(f, wireType, rest, At(slots, f.slot)))
        case Some((s, rest')) => FirstFailure(fields, rest', Put(slots, f.slot, s))
  }

  lemma {:induction false} InsideFails(kind: Kind, bs: seq<Byte>, current: Item)
    requires FailsInside(kind, bs, current).Some?
    ensures var x := FailsInside(kind, bs, current).value; DecodeField(x.f, x.wireType, x.bs, x.slot).None?
    ensures DecodeItem(kind, bs, current).None?
    decreases |bs|, 0
  {
    FirstFailureFails(kind.fields, TakeString(bs).value.0, SlotsOf(kind.fields, current), {});
  }

  lemma {:induction false} InnermostFails(f: Field, wireType: nat, bs: seq<Byte>, s: Slot)
    requires DecodeField(f, wireType, bs, s).None?
    ensures var x := Innermost(f, wireType, bs, s); DecodeField(x.f, x.wireType, x.bs, x.slot).None?
    decreases |bs|, 2
  {
    if Innermost(f, wireType, bs, s) != Failure(f, wireType, bs, s) {
      match f.rule
      case Repeated(_) => InsideFails(f.kind, bs, ZeroOf(f.kind));
      case OneOf => InsideFails(f.kind, bs, ZeroOf(f.kind));
      case _ => InsideFails(f.kind, bs, Held(f, s));
    }
  }

  /** The first failure is one: its field cannot be decoded, and so neither can the message. */
  lemma {:induction false} FirstFailureFails(fields: seq<Field>, bs: seq<Byte>, slots: seq<Slot>, seen: set<nat>)
    requires FirstFailure(fields, bs, slots).Some?
    ensures var x := FirstFailure(fields, bs, slots).value; DecodeField(x.f, x.wireType, x.bs, x.slot).None?
    ensures DecodeFields(fields, bs, slots, seen).None?
    decreases |bs|, 3
  {
    var Tag(tag, wireType, rest) := DecodeTag(bs);
    match Find(fields, tag)
    case None =>
      FirstFailureFails(fields, SkipField(wireType, rest).value, slots, seen);
    case Some(i) =>
      var f := fields[i];
      match DecodeField(f, wireType, rest, At(slots, f.slot))
      case None => InnermostFails(f, wireType, rest, At(slots, f.slot));
      case Some((s, rest')) =>
        FirstFailureFails(fields, rest', Put(slots, f.slot, s), MarkSeen(fields, seen, i));
  }

  /** What a failure costs the streams it happens in. */
  function Cost(x: Option<Failure>): nat {
    if x.Some? && x.value.Abandons() then |TakeString(x.value.bs).value.0| else 0
  }

  lemma {:induction false} ItemLoss(kind: Kind, bs: seq<Byte>, current: Item)
    ensures LostItem(kind, bs, current) == Cost(FailsInside(kind, bs, current))
    decreases |bs|, 0
  {
    if kind.MessageKind? && TakeString(bs).Some? {
      MessageLoss(kind.fields, TakeString(bs).value.0, SlotsOf(kind.fields, current));
    }
  }

  lemma {:induction false} FieldLoss(f: Field, wireType: nat, bs: seq<Byte>, s: Slot)
    ensures LostField(f, wireType, bs, s) == Cost(Some(Innermost(f, wireType, bs, s)))
    decreases |bs|, 2
  {
    match f.rule
    case Repeated(arraySize) =>
      if !(wireType == 2 && Packable(f.kind)) && |s.items| < arraySize {
        ItemLoss(f.kind, bs, ZeroOf(f.kind));
      }
    case OneOf => ItemLoss(f.kind, bs, ZeroOf(f.kind));
    case _ => ItemLoss(f.kind, bs, Held(f, s));
  }

  /** The loss of a message is the declared length of the packed array it fails at, if it does. */
  lemma {:induction false} MessageLoss(fields: seq<Field>, bs: seq<Byte>, slots: seq<Slot>)
    ensures LostFields(fields, bs, slots) == Cost(FirstFailure(fields, bs, slots))
    decreases |bs|, 3
  {
    if bs != [] && DecodeTag(bs).Tag? {
      var Tag(tag, wireType, rest) := DecodeTag(bs);
      if fields != [] || tag != 0 {
        match Find(fields, tag)
        case None =>
          if SkipField(wireType, rest).Some? {
            MessageLoss(fields, SkipField(wireType, rest).value, slots);
          }
        case Some(i) =>
          var f := fields[i];
          match DecodeField(f, wireType, rest, At(slots, f.slot))
          case None => FieldLoss(f, wireType, rest, At(slots, f.slot));
          case Some((s, rest')) => MessageLoss(fields, rest', Put(slots, f.slot, s));
      }
    }
  }

  /** The sum of cursor and bytes left is kept if and only if the first failing field, at whatever depth, is
      not a packed array with bytes left over. */
  lemma {:induction false} SumIsKept(fields: seq<Field>, bs: seq<Byte>, slots: seq<Slot>)
    ensures var x := FirstFailure(fields, bs, slots);
      LostFields(fields, bs, slots) == 0 <==> !(x.Some? && x.value.Abandons())
  {
    MessageLoss(fields, bs, slots);
  }
}
