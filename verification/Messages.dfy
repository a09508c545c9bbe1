/** nanopb's field descriptors, the messages they describe, and what a message is on the wire. */
module Messages {
  import opened Wrappers
  import opened Bytes
  import opened Words
  import opened Varints
  import opened Streams

  // ----- Descriptors -----

  /** Sizes in a descriptor have 32 bits. */
  type PbSize = n: nat | n < TWO_32

  /** How a value is kept and written, with its data_size; bytes and strings keep a capacity. */
  datatype Kind =
    | IntKind(size: PbSize)
    | UIntKind(size: PbSize)
    | SIntKind(size: PbSize)
    | Fixed32Kind
    | Fixed64Kind
    | BytesKind(capacity: PbSize)
    | StringKind(capacity: PbSize)
    | MessageKind(fields: seq<Field>)
    | FixedBytesKind(size: PbSize)

  /** Optional fields have a has-flag; Singular ones are the proto3 fields without. */
  datatype Rule = Required | Optional | Singular | Repeated(arraySize: PbSize) | OneOf

  /** Where a member lies in the struct: its offset from the end of the member before it, that of its flag
      or count from itself, and its data_size. */
  datatype Place = Place(dataOffset: PbSize, sizeOffset: int, dataSize: PbSize)

  /** One field of a message. Its value lives in slot `slot`, which the members of a oneof share;
      `initial` is the default value, or zero. */
  datatype Field = Field(tag: nat, rule: Rule, kind: Kind, slot: nat, initial: Item, place: Place)

  // ----- Messages -----

  datatype Item = Number(v: int) | Blob(bytes: seq<Byte>) | Nested(slots: seq<Slot>)

  /** What a field's slot holds: the has-flag or the which-tag, and the values. */
  datatype Slot = Slot(flag: nat, items: seq<Item>)

  function At(slots: seq<Slot>, i: nat): Slot {
    if i < |slots| then slots[i] else Slot(0, [])
  }

  function Zeros(n: nat): seq<Byte> {
    seq(n, _ => 0)
  }

  function ZeroOf(kind: Kind): Item
    decreases kind, 1
  {
    match kind
    case MessageKind(fields) => Nested(Defaults(fields))
    case BytesKind(_) => Blob([])
    case StringKind(_) => Blob([])
    case FixedBytesKind(n) => Blob(Zeros(n))
    case _ => Number(0)
  }

  function DefaultItem(f: Field): Item
    decreases f, 2
  {
    if f.kind.MessageKind? then ZeroOf(f.kind) else f.initial
  }

  function DefaultSlot(f: Field): Slot
    decreases f, 3
  {
    if f.rule.Repeated? || f.rule.OneOf? then Slot(0, []) else Slot(0, [DefaultItem(f)])
  }

  function Defaults(fields: seq<Field>): (slots: seq<Slot>)
    ensures |slots| == |fields|
    decreases fields, 4
  {
    seq(|fields|, i requires 0 <= i < |fields| => DefaultSlot(fields[i]))
  }

  // ----- Reading a value as its kind -----

  function SignedOf(item: Item): (v: int)
    ensures IsInt64(v)
  {
    if item.Number? && IsInt64(item.v) then item.v else 0
  }

  function WordOf(item: Item): Word {
    if item.Number? && 0 <= item.v < TWO_64 then item.v else 0
  }

  function BlobOf(item: Item): seq<Byte> {
    if item.Blob? then item.bytes else []
  }

  function FixedBlob(item: Item, n: nat): (bs: seq<Byte>)
    ensures |bs| == n
  {
    if |BlobOf(item)| == n then BlobOf(item) else Zeros(n)
  }

  function SlotsOf(fields: seq<Field>, item: Item): seq<Slot> {
    if item.Nested? then item.slots else Defaults(fields)
  }

  function Held(f: Field, s: Slot): Item {
    if s.items != [] then s.items[0] else DefaultItem(f)
  }

  /** The text up to its terminator, or the whole buffer. */
  function Text(bs: seq<Byte>, capacity: nat): seq<Byte> {
    if bs == [] || capacity == 0 || bs[0] == 0 then [] else [bs[0]] + Text(bs[1..], capacity - 1)
  }

  predicate IntSize(n: nat) {
    n == 1 || n == 2 || n == 4 || n == 8
  }

  // ----- Implicit presence -----

  /** The proto3 check: is this field at its default? */
  predicate Unset(f: Field, s: Slot)
    decreases f, 1
  {
    match f.rule
    case Required => false
    case Repeated(_) => s.items == []
    case OneOf => s.flag == 0
    case Optional => s.flag == 0
    case Singular => ZeroItem(f.kind, Held(f, s))
  }

  predicate ZeroItem(kind: Kind, item: Item)
    decreases kind, 0
  {
    match kind
    case BytesKind(_) => BlobOf(item) == []
    case StringKind(_) => BlobOf(item) == [] || BlobOf(item)[0] == 0
    case FixedBytesKind(n) => n == 0
    case MessageKind(fields) =>
      forall i :: 0 <= i < |fields| ==> Unset(fields[i], At(SlotsOf(fields, item), fields[i].slot))
    case UIntKind(_) => WordOf(item) == 0
    case Fixed32Kind => WordOf(item) == 0
    case Fixed64Kind => WordOf(item) == 0
    case _ => SignedOf(item) == 0
  }

  // ----- The wire form -----

  function WireType(kind: Kind): nat {
    match kind
    case IntKind(_) => 0
    case UIntKind(_) => 0
    case SIntKind(_) => 0
    case Fixed32Kind => 5
    case Fixed64Kind => 1
    case _ => 2
  }

  predicate Packable(kind: Kind) {
    kind.IntKind? || kind.UIntKind? || kind.SIntKind? || kind.Fixed32Kind? || kind.Fixed64Kind?
  }

  /** A size as the 64-bit number the source casts it to. */
  function Cast64(n: nat): Word {
    if n < TWO_64 then n else n % TWO_64
  }

  function TagBytes(tag: nat, wireType: nat): seq<Byte> {
    Varint(Cast64(8 * tag + wireType))
  }

  function WithLength(bs: seq<Byte>): seq<Byte> {
    Varint(Cast64(|bs|)) + bs
  }

  function EncodeItem(kind: Kind, item: Item): Option<seq<Byte>>
    decreases kind, 2, 0
  {
    match kind
    case IntKind(size) => if IntSize(size) then Some(Varint(Unsigned(SignedOf(item)))) else None
    case UIntKind(size) => if IntSize(size) then Some(Varint(WordOf(item))) else None
    case SIntKind(size) => if IntSize(size) then Some(Varint(ZigZag(SignedOf(item)))) else None
    case Fixed32Kind => Some(LittleBytes(WordOf(item), 4))
    case Fixed64Kind => Some(LittleBytes(WordOf(item), 8))
    case BytesKind(capacity) => if |BlobOf(item)| > capacity then None else Some(WithLength(BlobOf(item)))
    case StringKind(capacity) => Some(WithLength(Text(BlobOf(item), capacity)))
    case FixedBytesKind(size) => Some(WithLength(FixedBlob(item, size)))
    case MessageKind(fields) =>
      match EncodeMessage(fields, SlotsOf(fields, item))
      case None => None
      case Some(bs) => Some(WithLength(bs))
  }

  function EncodeItems(kind: Kind, items: seq<Item>): Option<seq<Byte>>
    decreases kind, 3, |items|
  {
    if items == [] then Some([])
    else Join(EncodeItems(kind, items[..|items| - 1]), EncodeItem(kind, items[|items| - 1]))
  }

  /** A tag and the item. */
  function EncodeTagged(tag: nat, kind: Kind, item: Item): Option<seq<Byte>>
    decreases kind, 3, 0
  {
    Join(Some(TagBytes(tag, WireType(kind))), EncodeItem(kind, item))
  }

  function EncodeEach(tag: nat, kind: Kind, items: seq<Item>): Option<seq<Byte>>
    decreases kind, 4, |items|
  {
    if items == [] then Some([])
    else Join(EncodeEach(tag, kind, items[..|items| - 1]), EncodeTagged(tag, kind, items[|items| - 1]))
  }

  /** Arrays are packed when their kind allows it. */
  function EncodeArray(tag: nat, kind: Kind, arraySize: nat, items: seq<Item>): Option<seq<Byte>>
    decreases kind, 5, 0
  {
    if items == [] then Some([])
    else if |items| > arraySize then None
    else if Packable(kind) then
      match EncodeItems(kind, items)
      case None => None
      case Some(bs) => Some(TagBytes(tag, 2) + WithLength(bs))
    else EncodeEach(tag, kind, items)
  }

  function EncodeField(f: Field, s: Slot): Option<seq<Byte>>
    decreases f, 6, 0
  {
    match f.rule
    case Required => EncodeTagged(f.tag, f.kind, Held(f, s))
    case Optional => if s.flag != 0 then EncodeTagged(f.tag, f.kind, Held(f, s)) else Some([])
    case Singular => if ZeroItem(f.kind, Held(f, s)) then Some([]) else EncodeTagged(f.tag, f.kind, Held(f, s))
    case Repeated(arraySize) => EncodeArray(f.tag, f.kind, arraySize, s.items)
    case OneOf => if s.flag == f.tag then EncodeTagged(f.tag, f.kind, Held(f, s)) else Some([])
  }

  /** The first k fields of a message, in descriptor order. */
  function EncodeFields(fields: seq<Field>, slots: seq<Slot>, k: nat): Option<seq<Byte>>
    requires k <= |fields|
    decreases fields, 7, k
  {
    if k == 0 then Some([])
    else Join(EncodeFields(fields, slots, k - 1), EncodeField(fields[k - 1], At(slots, fields[k - 1].slot)))
  }

  function EncodeMessage(fields: seq<Field>, slots: seq<Slot>): Option<seq<Byte>>
    decreases fields, 8, 0
  {
    EncodeFields(fields, slots, |fields|)
  }

  // ----- Well-formed descriptors and messages within bounds -----

  /** Tags are distinct and fit the wire; the members of a oneof share the slot of the first of them. */
  ghost predicate WellFormed(fields: seq<Field>)
    decreases fields, 1
  {
    && (forall i :: 0 <= i < |fields| ==> OwnSlot(fields, i) && WellFormedField(fields[i]))
    && (forall i, j :: 0 <= i < j < |fields| ==> fields[i].tag != fields[j].tag)
  }

  ghost predicate OwnSlot(fields: seq<Field>, i: nat)
    requires i < |fields|
  {
    var f := fields[i];
    if f.rule.OneOf? then f.slot <= i && fields[f.slot].rule.OneOf? && fields[f.slot].slot == f.slot else f.slot == i
  }

  ghost predicate WellFormedField(f: Field)
    decreases f, 0
  {
    && 0 < f.tag < 0x2000_0000
    && (f.rule.Singular? ==> DefaultItem(f) == ZeroOf(f.kind))
    && (f.kind.MessageKind? ==> WellFormed(f.kind.fields))
  }

  /** No two fields have the same tag, and none has the terminator's. */
  ghost predicate Distinct(fields: seq<Field>)
    decreases fields, 1
  {
    && (forall i :: 0 <= i < |fields| ==> fields[i].tag != 0 && DistinctBelow(fields[i]))
    && (forall i, j :: 0 <= i < j < |fields| ==> fields[i].tag != fields[j].tag)
  }

  ghost predicate DistinctBelow(f: Field)
    decreases f, 0
  {
    f.kind.MessageKind? ==> Distinct(f.kind.fields)
  }

  predicate InSigned(size: nat, v: int) {
    match size
    case 1 => -0x80 <= v < 0x80
    case 2 => -0x8000 <= v < 0x8000
    case 4 => -0x8000_0000 <= v < 0x8000_0000
    case 8 => IsInt64(v)
    case _ => false
  }

  predicate InUnsigned(size: nat, v: int) {
    match size
    case 1 => 0 <= v < 0x100
    case 2 => 0 <= v < 0x1_0000
    case 4 => 0 <= v < TWO_32
    case 8 => 0 <= v < TWO_64
    case _ => false
  }

  /** A value its C type can hold; a string is terminated within its buffer. */
  ghost predicate ItemInBounds(kind: Kind, item: Item)
    decreases kind, 0
  {
    match kind
    case IntKind(size) => item.Number? && InSigned(size, item.v)
    case UIntKind(size) => item.Number? && InUnsigned(size, item.v)
    case SIntKind(size) => item.Number? && InSigned(size, item.v)
    case Fixed32Kind => item.Number? && 0 <= item.v < TWO_32
    case Fixed64Kind => item.Number? && 0 <= item.v < TWO_64
    case BytesKind(capacity) => item.Blob? && |item.bytes| <= capacity
    case StringKind(capacity) => item.Blob? && |item.bytes| < capacity && 0 !in item.bytes
    case FixedBytesKind(size) => item.Blob? && |item.bytes| == size
    case MessageKind(fields) => item.Nested? && InBounds(fields, item.slots)
  }

  ghost predicate SlotInBounds(f: Field, s: Slot)
    decreases f, 0
  {
    match f.rule
    case Required => s.flag == 0 && |s.items| == 1 && ItemInBounds(f.kind, s.items[0])
    case Singular => s.flag == 0 && |s.items| == 1 && ItemInBounds(f.kind, s.items[0])
    case Optional => s.flag == 0 || (s.flag == 1 && |s.items| == 1 && ItemInBounds(f.kind, s.items[0]))
    case Repeated(arraySize) =>
      s.flag == 0 && |s.items| <= arraySize && forall j :: 0 <= j < |s.items| ==> ItemInBounds(f.kind, s.items[j])
    case OneOf => s.flag == f.tag ==> |s.items| == 1 && ItemInBounds(f.kind, s.items[0])
  }

  ghost predicate InBounds(fields: seq<Field>, slots: seq<Slot>)
    decreases fields, 1
  {
    && |slots| == |fields|
    && (forall i :: 0 <= i < |fields| ==> SlotInBounds(fields[i], At(slots, fields[i].slot)))
    && (forall i :: 0 <= i < |fields| && fields[i].rule.OneOf? ==> WhichKnown(fields, slots, fields[i].slot))
  }

  /** The which-tag of a oneof is zero or the tag of one of its members. */
  ghost predicate WhichKnown(fields: seq<Field>, slots: seq<Slot>, slot: nat) {
    At(slots, slot).flag == 0 ||
    exists j :: 0 <= j < |fields| && fields[j].rule.OneOf? && fields[j].slot == slot
        && fields[j].tag == At(slots, slot).flag
  }
}
