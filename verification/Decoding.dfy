/** Reading a message off the wire into its slots. */
module Decoding {
  import opened Wrappers
  import opened Bytes
  import opened Words
  import opened Varints
  import opened Messages

  const MAX_REQUIRED_FIELDS: nat := 64

  // ----- Pieces -----

  function Take(bs: seq<Byte>, n: nat): (r: Option<(seq<Byte>, seq<Byte>)>)
    ensures r.Some? ==> |r.value.0| == n && |r.value.1| == |bs| - n
  {
    if |bs| < n then None else Some((bs[..n], bs[n..]))
  }

  /** A length and that many bytes. */
  function TakeString(bs: seq<Byte>): (r: Option<(seq<Byte>, seq<Byte>)>)
    ensures r.Some? ==> |r.value.0| + |r.value.1| < |bs|
  {
    match Read32(bs)
    case None => None
    case Some((n, rest)) => Take(rest, n)
  }

  function SkipVarint(bs: seq<Byte>): (r: Option<seq<Byte>>)
    ensures r.Some? ==> |r.value| < |bs|
    decreases |bs|
  {
    if bs == [] then None
    else if bs[0] >= 128 then SkipVarint(bs[1..])
    else Some(bs[1..])
  }

  /** The rest after a field of that wire type; None for a bad or cut-off one. */
  function SkipField(wireType: nat, bs: seq<Byte>): (r: Option<seq<Byte>>)
    ensures r.Some? ==> |r.value| <= |bs|
  {
    match wireType
    case 0 => SkipVarint(bs)
    case 1 => if |bs| < 8 then None else Some(bs[8..])
    case 2 => (match TakeString(bs)
               case None => None
               case Some((_, rest)) => Some(rest))
    case 5 => if |bs| < 4 then None else Some(bs[4..])
    case _ => None
  }

  datatype TagResult = BadTag | EndTag | Tag(tag: nat, wireType: nat, rest: seq<Byte>)

  /** A zero tag ends a message. */
  function DecodeTag(bs: seq<Byte>): (r: TagResult)
    ensures r.Tag? ==> |r.rest| < |bs|
  {
    match Read32(bs)
    case None => BadTag
    case Some((t, rest)) => if t == 0 then EndTag else Tag(t / 8, t % 8, rest)
  }

  // ----- One value -----

  /** A 64-bit word read as a signed number of `size` bytes: up to four bytes only the low 32 bits count. */
  function Narrow(size: nat, w: Word): int {
    if size == 8 then Signed(w)
    else if w % TWO_32 < 0x8000_0000 then w % TWO_32 else w % TWO_32 - TWO_32
  }

  function DecodeItem(kind: Kind, bs: seq<Byte>, current: Item): (r: Option<(Item, seq<Byte>)>)
    ensures r.Some? ==> |r.value.1| < |bs|
    decreases |bs|, 0
  {
    match kind
    case IntKind(size) => (
      match ReadVarint(bs)
      case None => None
      case Some((w, rest)) => if InSigned(size, Narrow(size, w)) then Some((Number(Narrow(size, w)), rest)) else None)
    case UIntKind(size) => (
      match ReadVarint(bs)
      case None => None
      case Some((w, rest)) => if InUnsigned(size, w) then Some((Number(w), rest)) else None)
    case SIntKind(size) => (
      match ReadVarint(bs)
      case None => None
      case Some((w, rest)) => if InSigned(size, UnZigZag(w)) then Some((Number(UnZigZag(w)), rest)) else None)
    case Fixed32Kind => (
      match Take(bs, 4)
      case None => None
      case Some((word, rest)) => Some((Number(LittleEndian(word)), rest)))
    case Fixed64Kind => (
      match Take(bs, 8)
      case None => None
      case Some((word, rest)) => Some((Number(LittleEndian(word)), rest)))
    case BytesKind(capacity) => (
      match TakeString(bs)
      case None => None
      case Some((blob, rest)) => if |blob| > capacity then None else Some((Blob(blob), rest)))
    case StringKind(capacity) => (
      match TakeString(bs)
      case None => None
      case Some((blob, rest)) => if |blob| + 1 > capacity then None else Some((Blob(blob), rest)))
    case FixedBytesKind(size) => (
      match TakeString(bs)
      case None => None
      case Some((blob, rest)) =>
        if |blob| == 0 then Some((Blob(Zeros(size)), rest))
        else if |blob| != size then None
        else Some((Blob(blob), rest)))
    case MessageKind(fields) => (
      match TakeString(bs)
      case None => None
      case Some((sub, rest)) =>
        match DecodeMessage(fields, sub, SlotsOf(fields, current))
        case None => None
        case Some(slots) => Some((Nested(slots), rest)))
  }

  // ----- One field -----

  /** The entries of a packed array, as long as there is room; bytes left over are an error. */
  function DecodePacked(kind: Kind, bs: seq<Byte>, items: seq<Item>, arraySize: nat): Option<seq<Item>>
    decreases |bs|, 1
  {
    if bs == [] then Some(items)
    else if |items| >= arraySize then None
    else
      match DecodeItem(kind, bs, ZeroOf(kind))
      case None => None
      case Some((item, rest)) => DecodePacked(kind, rest, items + [item], arraySize)
  }

  /** Puts what follows a field's tag into its slot. The wire type only tells a packed array. */
  function DecodeField(f: Field, wireType: nat, bs: seq<Byte>, s: Slot): (r: Option<(Slot, seq<Byte>)>)
    ensures r.Some? ==> |r.value.1| < |bs|
    decreases |bs|, 2
  {
    match f.rule
    case Repeated(arraySize) =>
      if wireType == 2 && Packable(f.kind) then
        match TakeString(bs)
        case None => None
        case Some((sub, rest)) =>
          match DecodePacked(f.kind, sub, s.items, arraySize)
          case None => None
          case Some(items) => Some((Slot(s.flag, items), rest))
      else if |s.items| >= arraySize then None
      else
        (match DecodeItem(f.kind, bs, ZeroOf(f.kind))
         case None => None
         case Some((item, rest)) => Some((Slot(s.flag, s.items + [item]), rest)))
    case OneOf =>
      (match DecodeItem(f.kind, bs, ZeroOf(f.kind))
       case None => None
       case Some((item, rest)) => Some((Slot(f.tag, [item]), rest)))
    case _ =>
      match DecodeItem(f.kind, bs, Held(f, s))
      case None => None
      case Some((item, rest)) => Some((Slot(if f.rule.Optional? then 1 else s.flag, [item]), rest))
  }

  // ----- The whole message -----

  /** The field with that tag. */
  function Find(fields: seq<Field>, tag: nat): (i: Option<nat>)
    ensures i.Some? ==> i.value < |fields| && fields[i.value].tag == tag
    ensures i.None? ==> forall j :: 0 <= j < |fields| ==> fields[j].tag != tag
  {
    if fields == [] then None
    else if fields[|fields| - 1].tag == tag then Some(|fields| - 1)
    else Find(fields[..|fields| - 1], tag)
  }

  /** How many of the first i fields are required. */
  function RequiredBefore(fields: seq<Field>, i: nat): nat
    requires i <= |fields|
  {
    if i == 0 then 0 else RequiredBefore(fields, i - 1) + if fields[i - 1].rule.Required? then 1 else 0
  }

  lemma {:induction false} RequiredGrows(fields: seq<Field>, i: nat, j: nat)
    requires i < j <= |fields|
    ensures RequiredBefore(fields, i) <= RequiredBefore(fields, j)
    ensures fields[i].rule.Required? ==> RequiredBefore(fields, i) < RequiredBefore(fields, j)
  {
    if i < j - 1 {
      RequiredGrows(fields, i, j - 1);
    }
  }

  /** Only the first 64 required fields are kept track of. */
  function MarkSeen(fields: seq<Field>, seen: set<nat>, i: nat): set<nat>
    requires i < |fields|
  {
    var index := RequiredBefore(fields, i);
    if fields[i].rule.Required? && index < MAX_REQUIRED_FIELDS then seen + {index} else seen
  }

  ghost predicate AllSeen(fields: seq<Field>, seen: set<nat>) {
    forall index: nat :: index < RequiredBefore(fields, |fields|) && index < MAX_REQUIRED_FIELDS ==> index in seen
  }

  function Put(slots: seq<Slot>, i: nat, s: Slot): (r: seq<Slot>)
    ensures |r| == |slots|
  {
    if i < |slots| then slots[i := s] else slots
  }

  /** Fields in any order until the bytes end or a zero tag; unknown ones are skipped. Only a message
      type without fields takes field number zero for its own, and refuses it. */
  function DecodeFields(fields: seq<Field>, bs: seq<Byte>, slots: seq<Slot>, seen: set<nat>)
    : Option<(seq<Slot>, set<nat>)>
    decreases |bs|, 3
  {
    if bs == [] then Some((slots, seen)) else
    match DecodeTag(bs)
    case BadTag => None
    case EndTag => Some((slots, seen))
    case Tag(tag, wireType, rest) =>
      if fields == [] && tag == 0 then None else
      match Find(fields, tag)
      case None => (
        match SkipField(wireType, rest)
        case None => None
        case Some(rest') => DecodeFields(fields, rest', slots, seen))
      case Some(i) =>
        var f := fields[i];
        match DecodeField(f, wireType, rest, At(slots, f.slot))
        case None => None
        case Some((s, rest')) => DecodeFields(fields, rest', Put(slots, f.slot, s), MarkSeen(fields, seen, i))
  }

  /** Merges a message into the slots; every required field has to be there. */
  function DecodeMessage(fields: seq<Field>, bs: seq<Byte>, slots: seq<Slot>): Option<seq<Slot>>
    decreases |bs|, 4
  {
    match DecodeFields(fields, bs, slots, {})
    case None => None
    case Some((after, seen)) => if HasAll(fields, seen) then Some(after) else None
  }

  predicate HasAll(fields: seq<Field>, seen: set<nat>)
    ensures HasAll(fields, seen) <==> AllSeen(fields, seen)
  {
    var n := RequiredBefore(fields, |fields|);
    forall index: nat :: index < (if n < MAX_REQUIRED_FIELDS then n else MAX_REQUIRED_FIELDS) ==> index in seen
  }

  /** Decoding into a fresh message. */
  function Decode(fields: seq<Field>, bs: seq<Byte>): Option<seq<Slot>> {
    DecodeMessage(fields, bs, Defaults(fields))
  }

  // ----- What a failure loses -----

  /** Where reading a number stops, also when it fails. */
  function NumberEnd(kind: Kind, bs: seq<Byte>): seq<Byte> {
    match kind
    case Fixed32Kind => if |bs| < 4 then bs else bs[4..]
    case Fixed64Kind => if |bs| < 8 then bs else bs[8..]
    case _ => VarintEnd(bs, 0)
  }

  /** Bytes of a packed array are left over: there is no room for them, or an entry before them is bad. */
  predicate LeftOver(kind: Kind, bs: seq<Byte>, items: seq<Item>, arraySize: nat)
    decreases |bs|
  {
    bs != [] &&
    (|items| >= arraySize ||
     match DecodeItem(kind, bs, ZeroOf(kind))
     case None => NumberEnd(kind, bs) != []
     case Some((item, rest)) => LeftOver(kind, rest, items + [item], arraySize))
  }

  /** How many bytes the stream has lost, after a failure, for good: what it may read ends that much earlier
      than it did. A packed array with bytes left over is given up without closing its substream, so its
      whole declared length is missing from the stream, which still stands where the entries start. */
  function LostField(f: Field, wireType: nat, bs: seq<Byte>, s: Slot): nat
    decreases |bs|, 2
  {
    match f.rule
    case Repeated(arraySize) =>
      if wireType == 2 && Packable(f.kind) then
        match TakeString(bs)
        case None => 0
        case Some((sub, _)) => if LeftOver(f.kind, sub, s.items, arraySize) then |sub| else 0
      else if |s.items| >= arraySize then 0
      else LostItem(f.kind, bs, ZeroOf(f.kind))
    case OneOf => LostItem(f.kind, bs, ZeroOf(f.kind))
    case _ => LostItem(f.kind, bs, Held(f, s))
  }

  /** What the stream of a nested message loses, the stream around it loses. */
  function LostItem(kind: Kind, bs: seq<Byte>, current: Item): nat
    decreases |bs|, 0
  {
    match kind
    case MessageKind(fields) => (
      match TakeString(bs)
      case None => 0
      case Some((sub, _)) => LostFields(fields, sub, SlotsOf(fields, current)))
    case _ => 0
  }

  /** Only the field at which decoding fails can lose anything. */
  function LostFields(fields: seq<Field>, bs: seq<Byte>, slots: seq<Slot>): nat
    decreases |bs|, 3
  {
    if bs == [] then 0 else
    match DecodeTag(bs)
    case BadTag => 0
    case EndTag => 0
    case Tag(tag, wireType, rest) =>
      if fields == [] && tag == 0 then 0 else
      match Find(fields, tag)
      case None => (
        match SkipField(wireType, rest)
        case None => 0
        case Some(rest') => LostFields(fields, rest', slots))
      case Some(i) =>
        var f := fields[i];
        match DecodeField(f, wireType, rest, At(slots, f.slot))
        case None => LostField(f, wireType, rest, At(slots, f.slot))
        case Some((s, rest')) => LostFields(fields, rest', Put(slots, f.slot, s))
  }
}
