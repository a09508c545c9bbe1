/** The protocol buffers wire format on its own terms, and how nanopb's encoder and decoder meet it: what is
    written is whole payloads of the right wire types with the right contents, what is read is what payloads
    mean, and what is skipped is exactly one payload. */
module WireFormat {
  import opened Wrappers
  import opened Bytes
  import opened Words
  import opened Varints
  import opened Streams
  import opened Messages
  import opened Decoding
  import opened RoundTrip

  // ----- Payloads -----

  /** Bytes with the top bit set, then one without. */
  predicate WholeVarint(p: seq<Byte>) {
    p != [] && p[|p| - 1] < 128 && forall i :: 0 <= i < |p| - 1 ==> p[i] >= 128
  }

  /** What a varint stands for: each byte has seven bits of it, the first byte the lowest. */
  function Weigh(p: seq<Byte>): nat {
    if p == [] then 0 else
    var last: int := p[|p| - 1];
    Weigh(p[..|p| - 1]) + last % 128 * Pow128(|p| - 1)
  }

  /** A length and that many bytes. */
  ghost predicate Delimited(p: seq<Byte>, body: seq<Byte>) {
    exists k :: 0 < k <= |p| && WholeVarint(p[..k]) && Weigh(p[..k]) == |p| - k < TWO_32 && p[k..] == body
  }

  /** One payload of a wire type, and nothing else. */
  ghost predicate WholePayload(wireType: nat, p: seq<Byte>) {
    match wireType
    case 0 => WholeVarint(p)
    case 1 => |p| == 8
    case 2 => exists body :: Delimited(p, body)
    case 5 => |p| == 4
    case _ => false
  }

  // ----- Varints -----

  lemma {:induction false} WeighFirst(p: seq<Byte>)
    requires p != []
    ensures Weigh(p) == Low7(p[0]) + 128 * Weigh(p[1..])
  {
    if |p| > 1 {
      var init := p[..|p| - 1];
      WeighFirst(init);
      assert init[1..] == p[1..][..|p| - 2] && init[0] == p[0] && p[1..][|p| - 2] == p[|p| - 1];
      OneMoreWeight(Weigh(p[1..][..|p| - 2]), Low7(p[|p| - 1]), Pow128(|p| - 2));
    } else {
      assert p[..0] == [] && p[1..] == [];
    }
  }

  lemma {:induction false} OneMoreWeight(low: nat, x: nat, w: nat)
    ensures 128 * low + x * (128 * w) == 128 * (low + x * w)
  {
  }

  /** The groups read off the front are a whole varint and what it stands for. */
  lemma {:induction false} GroupsOf(p: seq<Byte>, rest: seq<Byte>)
    requires WholeVarint(p)
    ensures Groups(p + rest) == Some((Weigh(p), rest))
    decreases |p|
  {
    WeighFirst(p);
    assert (p + rest)[1..] == p[1..] + rest;
    if |p| > 1 {
      GroupsOf(p[1..], rest);
    } else {
      assert p[1..] == [] && [] + rest == rest;
    }
  }

  lemma {:induction false} GroupsAreWhole(bs: seq<Byte>) returns (p: seq<Byte>)
    requires Groups(bs).Some?
    ensures WholeVarint(p) && bs == p + Groups(bs).value.1 && Weigh(p) == Groups(bs).value.0
    decreases |bs|
  {
    if bs[0] < 128 {
      p := [bs[0]];
    } else {
      var q := GroupsAreWhole(bs[1..]);
      p := [bs[0]] + q;
      assert p[1..] == q;
    }
    WeighFirst(p);
  }

  /** The encoder's varint of a number is one, and stands for it. */
  lemma {:induction false} VarintIsWhole(v: nat)
    ensures WholeVarint(Varint(v)) && Weigh(Varint(v)) == v
  {
    WeighFirst(Varint(v));
    if v >= 128 {
      VarintIsWhole(v / 128);
      assert Varint(v)[1..] == Varint(v / 128);
    } else {
      assert Varint(v)[1..] == [];
    }
  }

  lemma {:induction false} SkipVarintIsGroups(bs: seq<Byte>)
    ensures SkipVarint(bs) == if Groups(bs).None? then None else Some(Groups(bs).value.1)
    decreases |bs|
  {
    if bs != [] && bs[0] >= 128 {
      SkipVarintIsGroups(bs[1..]);
    }
  }

  lemma {:induction false} PrefixIsRead(prefix: seq<Byte>, body: seq<Byte>, rest: seq<Byte>)
    requires WholeVarint(prefix) && Weigh(prefix) == |body| < TWO_32
    ensures TakeString(prefix + (body + rest)) == Some((body, rest))
  {
    GroupsOf(prefix, body + rest);
    PaddedIsRead(prefix + (body + rest));
    assert (body + rest)[..|body|] == body && (body + rest)[|body|..] == rest;
  }

  lemma {:induction false} DelimitedIsRead(p: seq<Byte>, body: seq<Byte>, rest: seq<Byte>)
    requires Delimited(p, body)
    ensures TakeString(p + rest) == Some((body, rest))
  {
    var k :| 0 < k <= |p| && WholeVarint(p[..k]) && Weigh(p[..k]) == |p| - k < TWO_32 && p[k..] == body;
    PrefixIsRead(p[..k], body, rest);
    assert p + rest == p[..k] + (body + rest);
  }

  lemma {:induction false} WithLengthIsDelimited(body: seq<Byte>)
    requires |body| < TWO_32
    ensures Delimited(WithLength(body), body)
  {
    var n := |Varint(|body|)|;
    VarintIsWhole(|body|);
    assert WithLength(body)[..n] == Varint(|body|) && WithLength(body)[n..] == body;
  }

  // ----- Skipping -----

  /** The decoder skips exactly one payload. */
  lemma {:induction false} PayloadIsSkipped(wireType: nat, p: seq<Byte>, rest: seq<Byte>)
    requires WholePayload(wireType, p)
    ensures SkipField(wireType, p + rest) == Some(rest)
  {
    match wireType
    case 0 =>
      SkipVarintIsGroups(p + rest);
      GroupsOf(p, rest);
    case 2 =>
      var body :| Delimited(p, body);
      DelimitedIsRead(p, body, rest);
    case _ =>
      assert (p + rest)[|p|..] == rest;
  }

  /** What it skips is a payload, unless the length is one of those the 32-bit decoder cuts. */
  lemma {:induction false} SkippedIsPayload(wireType: nat, bs: seq<Byte>) returns (p: seq<Byte>)
    requires SkipField(wireType, bs).Some?
    requires wireType == 2 ==> Groups(bs).Some? && Groups(bs).value.0 < TWO_32
    ensures WholePayload(wireType, p) && bs == p + SkipField(wireType, bs).value
  {
    var rest := SkipField(wireType, bs).value;
    match wireType
    case 0 =>
      SkipVarintIsGroups(bs);
      p := GroupsAreWhole(bs);
    case 2 =>
      PaddedIsRead(bs);
      var prefix := GroupsAreWhole(bs);
      var (n, tail) := Groups(bs).value;
      p := prefix + tail[..n];
      assert p[..|prefix|] == prefix && p[|prefix|..] == tail[..n] && tail == tail[..n] + tail[n..];
      assert Delimited(p, tail[..n]);
    case _ =>
      p := bs[..|bs| - |rest|];
  }

  // ----- What payloads mean -----

  /** The value of a four- or eight-byte payload, lowest byte first. */
  function Little(p: seq<Byte>): nat {
    if p == [] then 0 else
    var last: int := p[|p| - 1];
    Little(p[..|p| - 1]) + last * Pow256(|p| - 1)
  }

  /** What the payload of a number stands for. */
  function Value(kind: Kind, p: seq<Byte>): int {
    if kind.Fixed32Kind? || kind.Fixed64Kind? then Little(p) else OfWord(kind, Weigh(p) % 0x1_0000_0000_0000_0000)
  }

  /** What 64 bits stand for. Signed numbers have them all on the wire, whatever the size of the field; but for
      fields of up to four bytes only the low 32 count, so that a negative number may also come in five bytes. */
  function OfWord(kind: Kind, w: nat): int {
    match kind
    case IntKind(size) => if size == 8 then Centred(w, 0x8000_0000_0000_0000) else Centred(w % 0x1_0000_0000, 0x8000_0000)
    case SIntKind(_) => if w % 2 == 0 then w / 2 else -(w + 1) / 2
    case _ => w
  }

  function Centred(w: int, half: int): int {
    if w < half then w else w - 2 * half
  }

  /** The C type of the field holds it. */
  predicate Holds(kind: Kind, v: int) {
    match kind
    case IntKind(size) => 0 <= 2 * v + Pow256(size) < 2 * Pow256(size)
    case SIntKind(size) => 0 <= 2 * v + Pow256(size) < 2 * Pow256(size)
    case UIntKind(size) => 0 <= v < Pow256(size)
    case _ => true
  }

  lemma {:induction false} Sizes()
    ensures Pow256(1) == 0x100 && Pow256(2) == 0x1_0000 && Pow256(4) == 0x1_0000_0000
    ensures Pow256(8) == 0x1_0000_0000_0000_0000
  {
    assert Pow256(2) == 256 * Pow256(1) && Pow256(4) == 256 * (256 * Pow256(2));
    assert Pow256(6) == 256 * (256 * Pow256(4)) && Pow256(8) == 256 * (256 * Pow256(6));
  }

  predicate SizeKnown(kind: Kind) {
    match kind
    case IntKind(size) => size in {1, 2, 4, 8}
    case UIntKind(size) => size in {1, 2, 4, 8}
    case SIntKind(size) => size in {1, 2, 4, 8}
    case _ => true
  }

  predicate VarintKind(kind: Kind) {
    kind.IntKind? || kind.UIntKind? || kind.SIntKind?
  }

  /** The clamping of each kind: what is read of 64 bits is what they stand for, if the field holds it. */
  lemma {:induction false} WordIsClamped(kind: Kind, w: Word)
    requires VarintKind(kind) && SizeKnown(kind)
    ensures kind.IntKind? ==> Narrow(kind.size, w) == OfWord(kind, w) && (InSigned(kind.size, OfWord(kind, w)) <==> Holds(kind, OfWord(kind, w)))
    ensures kind.SIntKind? ==> UnZigZag(w) == OfWord(kind, w) && (InSigned(kind.size, OfWord(kind, w)) <==> Holds(kind, OfWord(kind, w)))
    ensures kind.UIntKind? ==> (InUnsigned(kind.size, w) <==> Holds(kind, w))
  {
    Sizes();
  }

  lemma {:induction false} VarintIsRead(kind: Kind, bs: seq<Byte>, w: Word, rest: seq<Byte>, current: Item)
    requires VarintKind(kind) && SizeKnown(kind) && ReadVarint(bs) == Some((w, rest))
    ensures DecodeItem(kind, bs, current) ==
      if Holds(kind, OfWord(kind, w)) then Some((Number(OfWord(kind, w)), rest)) else None
  {
    WordIsClamped(kind, w);
  }

  lemma {:induction false} VarintOf(p: seq<Byte>, rest: seq<Byte>)
    requires WholeVarint(p)
    ensures ReadVarint(p + rest) == if |p| <= 10 then Some((Weigh(p) % TWO_64, rest)) else None
  {
    GroupsOf(p, rest);
    GroupsAreRead(p + rest, 0);
  }

  lemma {:induction false} LittleFirst(p: seq<Byte>)
    requires p != []
    ensures Little(p) == p[0] as int + 256 * Little(p[1..])
  {
    if |p| > 1 {
      var init := p[..|p| - 1];
      LittleFirst(init);
      assert init[1..] == p[1..][..|p| - 2] && init[0] == p[0] && p[1..][|p| - 2] == p[|p| - 1];
      OneMoreByte(Little(p[1..][..|p| - 2]), p[|p| - 1] as int, Pow256(|p| - 2));
    } else {
      assert p[..0] == [] && p[1..] == [];
    }
  }

  lemma {:induction false} OneMoreByte(low: nat, x: nat, w: nat)
    ensures 256 * low + x * (256 * w) == 256 * (low + x * w)
  {
  }

  lemma {:induction false} LittleIsRead(p: seq<Byte>)
    ensures LittleEndian(p) == Little(p)
  {
    if p != [] {
      LittleIsRead(p[1..]);
      LittleFirst(p);
    }
  }

  /** One payload of a number. */
  predicate NumberPayload(kind: Kind, p: seq<Byte>) {
    match kind
    case Fixed32Kind => |p| == 4
    case Fixed64Kind => |p| == 8
    case _ => WholeVarint(p)
  }

  /** What the decoder reads of any payload of a number, canonical or not: what it stands for, if the field holds
      it. A varint of more than ten bytes is refused. */
  lemma {:induction false} NumberIsRead(kind: Kind, p: seq<Byte>, rest: seq<Byte>, current: Item)
    requires Packable(kind) && SizeKnown(kind) && NumberPayload(kind, p)
    ensures DecodeItem(kind, p + rest, current) ==
      if Holds(kind, Value(kind, p)) && (VarintKind(kind) ==> |p| <= 10) then Some((Number(Value(kind, p)), rest)) else None
  {
    if VarintKind(kind) {
      VarintOf(p, rest);
      if |p| <= 10 {
        VarintIsRead(kind, p + rest, Weigh(p) % TWO_64, rest, current);
      }
    } else {
      LittleIsRead(p);
      assert (p + rest)[..|p|] == p && (p + rest)[|p|..] == rest;
    }
  }

  /** The same for bytes and strings: what is delimited, if the field has room for it, and for a string its
      terminator. */
  lemma {:induction false} BlobIsRead(kind: Kind, p: seq<Byte>, body: seq<Byte>, rest: seq<Byte>, current: Item)
    requires (kind.BytesKind? || kind.StringKind? || kind.FixedBytesKind?) && Delimited(p, body)
    ensures DecodeItem(kind, p + rest, current) ==
      match kind
      case BytesKind(capacity) => if |body| <= capacity then Some((Blob(body), rest)) else None
      case StringKind(capacity) => if |body| < capacity then Some((Blob(body), rest)) else None
      case FixedBytesKind(size) =>
        if |body| == 0 then Some((Blob(Zeros(size)), rest))
        else if |body| == size then Some((Blob(body), rest)) else None
      case _ => None
  {
    DelimitedIsRead(p, body, rest);
  }

  // ----- What the encoder writes -----

  /** The payload holds the item: a number as its kind has it on the wire, bytes and strings delimited, and so a
      nested message. */
  ghost predicate Means(kind: Kind, item: Item, p: seq<Byte>) {
    match kind
    case IntKind(_) => item.Number? && WholeVarint(p) && Weigh(p) == if item.v < 0 then item.v + 0x1_0000_0000_0000_0000 else item.v
    case UIntKind(_) => item.Number? && WholeVarint(p) && Weigh(p) == item.v
    case SIntKind(_) => item.Number? && WholeVarint(p) && Weigh(p) == if item.v < 0 then -2 * item.v - 1 else 2 * item.v
    case Fixed32Kind => item.Number? && |p| == 4 && Little(p) == item.v
    case Fixed64Kind => item.Number? && |p| == 8 && Little(p) == item.v
    case MessageKind(fields) =>
      item.Nested? && EncodeMessage(fields, item.slots).Some? && Delimited(p, EncodeMessage(fields, item.slots).value)
    case _ => item.Blob? && Delimited(p, item.bytes)
  }

  lemma {:induction false} LittleIsWritten(v: nat, n: nat)
    requires v < Pow256(n)
    ensures Little(LittleBytes(v, n)) == v
  {
    LittleRoundTrip(v, n);
    LittleIsRead(LittleBytes(v, n));
  }

  lemma {:induction false} NumberIsWritten(kind: Kind, item: Item)
    requires Packable(kind) && ItemInBounds(kind, item)
    ensures EncodeItem(kind, item).Some? && Means(kind, item, EncodeItem(kind, item).value)
  {
    match kind
    case IntKind(_) => VarintIsWhole(Unsigned(item.v));
    case UIntKind(_) => VarintIsWhole(item.v);
    case SIntKind(_) =>
      ZigZagRoundTrip(item.v, 0);
      VarintIsWhole(ZigZag(item.v));
    case Fixed32Kind =>
      Sizes();
      LittleIsWritten(item.v, 4);
    case Fixed64Kind =>
      Sizes();
      LittleIsWritten(item.v, 8);
  }

  /** What is written for a value is one payload, and it holds the value. */
  lemma {:induction false} ItemIsWritten(kind: Kind, item: Item)
    requires ItemInBounds(kind, item) && ShortItem(kind, item) && EncodeItem(kind, item).Some?
    ensures Means(kind, item, EncodeItem(kind, item).value)
  {
    match kind
    case BytesKind(_) => WithLengthIsDelimited(item.bytes);
    case StringKind(capacity) =>
      TextIsAll(item.bytes, capacity);
      WithLengthIsDelimited(item.bytes);
    case FixedBytesKind(_) => WithLengthIsDelimited(item.bytes);
    case MessageKind(fields) => WithLengthIsDelimited(EncodeMessage(fields, item.slots).value);
    case _ => NumberIsWritten(kind, item);
  }

  /** And it is one payload of the wire type in its tag. */
  lemma {:induction false} WireTypeIsRight(kind: Kind, item: Item, p: seq<Byte>)
    requires Means(kind, item, p)
    ensures WholePayload(WireType(kind), p)
  {
  }

  lemma {:induction false} TagIsWritten(tag: nat, wireType: nat)
    requires 0 < tag < 0x2000_0000 && wireType < 8
    ensures WholeVarint(TagBytes(tag, wireType)) && Weigh(TagBytes(tag, wireType)) == 8 * tag + wireType
  {
    VarintIsWhole(8 * tag + wireType);
  }

  // ----- Whole messages -----

  /** A field on the wire: its number and wire type in one varint, and a payload. */
  ghost predicate OneField(number: nat, wireType: nat, p: seq<Byte>, bs: seq<Byte>) {
    exists tag :: WholeVarint(tag) && Weigh(tag) == 8 * number + wireType && bs == tag + p
  }

  /** The entries of a packed array, one payload after the other. */
  ghost predicate Entries(kind: Kind, items: seq<Item>, body: seq<Byte>)
    decreases |items|
  {
    if items == [] then body == [] else
    exists a, p :: body == a + p && Entries(kind, items[..|items| - 1], a) && Means(kind, items[|items| - 1], p)
  }

  /** One field for each entry. */
  ghost predicate Each(number: nat, kind: Kind, items: seq<Item>, bs: seq<Byte>)
    decreases |items|
  {
    if items == [] then bs == [] else
    exists a, b :: bs == a + b && Each(number, kind, items[..|items| - 1], a) && Single(number, kind, items[|items| - 1], b)
  }

  ghost predicate Single(number: nat, kind: Kind, item: Item, bs: seq<Byte>) {
    exists p :: OneField(number, WireType(kind), p, bs) && Means(kind, item, p)
  }

  /** A field without presence is written when it is not zero: a number that is not 0, bytes that are not empty,
      a message that has something in it. */
  ghost predicate Something(kind: Kind, item: Item) {
    match item
    case Number(v) => v != 0
    case Blob(bytes) => bytes != []
    case Nested(slots) => kind.MessageKind? && EncodeMessage(kind.fields, slots) != Some([])
  }

  ghost predicate Written(f: Field, s: Slot) {
    match f.rule
    case Required => true
    case Optional => s.flag == 1
    case Singular => s.items != [] && Something(f.kind, s.items[0])
    case OneOf => s.flag == f.tag
    case Repeated(_) => s.items != []
  }

  /** What a field has on the wire. */
  ghost predicate FieldWritten(f: Field, s: Slot, bs: seq<Byte>) {
    if !Written(f, s) then bs == []
    else if !f.rule.Repeated? then s.items != [] && Single(f.tag, f.kind, s.items[0], bs)
    else if Packable(f.kind) then
      exists p, body :: OneField(f.tag, 2, p, bs) && Delimited(p, body) && Entries(f.kind, s.items, body)
    else Each(f.tag, f.kind, s.items, bs)
  }

  /** The first k fields in the order of the descriptor. */
  ghost predicate FieldsWritten(fields: seq<Field>, slots: seq<Slot>, k: nat, bs: seq<Byte>)
    requires k <= |fields|
  {
    if k == 0 then bs == [] else
    exists a, b ::
      && bs == a + b && FieldsWritten(fields, slots, k - 1, a)
      && FieldWritten(fields[k - 1], At(slots, fields[k - 1].slot), b)
  }

  lemma {:induction false} EntriesAreWritten(kind: Kind, items: seq<Item>)
    requires Packable(kind) && AllInBounds(kind, items) && EncodeItems(kind, items).Some?
    ensures Entries(kind, items, EncodeItems(kind, items).value)
    decreases |items|
  {
    if items != [] {
      EntriesAreWritten(kind, items[..|items| - 1]);
      NumberIsWritten(kind, items[|items| - 1]);
    }
  }

  lemma {:induction false} SingleIsWritten(number: nat, kind: Kind, item: Item, bs: seq<Byte>)
    requires 0 < number < 0x2000_0000 && ItemInBounds(kind, item) && ShortItem(kind, item)
    requires EncodeTagged(number, kind, item) == Some(bs)
    ensures Single(number, kind, item, bs)
  {
    TagIsWritten(number, WireType(kind));
    ItemIsWritten(kind, item);
    assert OneField(number, WireType(kind), EncodeItem(kind, item).value, bs);
  }

  lemma {:induction false} EachIsWritten(number: nat, kind: Kind, items: seq<Item>, bs: seq<Byte>)
    requires 0 < number < 0x2000_0000 && !Packable(kind) && AllInBounds(kind, items) && ShortItems(kind, items)
    requires EncodeEach(number, kind, items) == Some(bs)
    ensures Each(number, kind, items, bs)
    decreases |items|
  {
    if items != [] {
      EachIsWritten(number, kind, items[..|items| - 1], EncodeEach(number, kind, items[..|items| - 1]).value);
      SingleIsWritten(number, kind, items[|items| - 1], EncodeTagged(number, kind, items[|items| - 1]).value);
    }
  }

  lemma {:induction false} ArrayIsWritten(f: Field, s: Slot, bs: seq<Byte>)
    requires WellFormedField(f) && SlotInBounds(f, s) && ShortSlot(f, s) && f.rule.Repeated? && s.items != []
    requires EncodeField(f, s) == Some(bs)
    ensures FieldWritten(f, s, bs)
  {
    if Packable(f.kind) {
      var body := EncodeItems(f.kind, s.items).value;
      TagIsWritten(f.tag, 2);
      EntriesAreWritten(f.kind, s.items);
      WithLengthIsDelimited(body);
      assert OneField(f.tag, 2, WithLength(body), bs);
    } else {
      EachIsWritten(f.tag, f.kind, s.items, bs);
    }
  }

  lemma {:induction false} JoinNothing(a: Option<seq<Byte>>, b: Option<seq<Byte>>)
    ensures Join(a, b) == Some([]) <==> a == Some([]) && b == Some([])
  {
    if a.Some? && b.Some? {
      assert |a.value + b.value| == |a.value| + |b.value|;
    }
  }

  lemma {:induction false} NothingWritten(fields: seq<Field>, slots: seq<Slot>, k: nat)
    requires k <= |fields|
    ensures EncodeFields(fields, slots, k) == Some([]) <==>
            forall i :: 0 <= i < k ==> EncodeField(fields[i], At(slots, fields[i].slot)) == Some([])
  {
    if k > 0 {
      NothingWritten(fields, slots, k - 1);
      JoinNothing(EncodeFields(fields, slots, k - 1), EncodeField(fields[k - 1], At(slots, fields[k - 1].slot)));
    }
  }

  lemma {:induction false} TaggedIsSomething(tag: nat, kind: Kind, item: Item)
    ensures EncodeTagged(tag, kind, item) != Some([])
  {
    assert |TagBytes(tag, WireType(kind))| > 0;
  }

  lemma {:induction false} ArrayIsSomething(tag: nat, kind: Kind, arraySize: nat, items: seq<Item>)
    requires items != []
    ensures EncodeArray(tag, kind, arraySize, items) != Some([])
  {
    var n := |items| - 1;
    if Packable(kind) {
      if EncodeItems(kind, items).Some? {
        assert |TagBytes(tag, 2) + WithLength(EncodeItems(kind, items).value)| > 0;
      }
    } else {
      TaggedIsSomething(tag, kind, items[n]);
      JoinNothing(EncodeEach(tag, kind, items[..n]), EncodeTagged(tag, kind, items[n]));
    }
  }

  lemma {:induction false} FieldIsNothing(f: Field, s: Slot)
    ensures EncodeField(f, s) == Some([]) <==> if f.rule.OneOf? then s.flag != f.tag else Unset(f, s)
  {
    TaggedIsSomething(f.tag, f.kind, Held(f, s));
    if f.rule.Repeated? && s.items != [] {
      ArrayIsSomething(f.tag, f.kind, f.rule.arraySize, s.items);
    }
  }

  /** A message is empty on the wire if and only if every field of it is unset. */
  lemma {:induction false} UnsetIsNothing(fields: seq<Field>, slots: seq<Slot>)
    requires WellFormed(fields) && InBounds(fields, slots)
    ensures EncodeMessage(fields, slots) == Some([]) <==>
            forall i :: 0 <= i < |fields| ==> Unset(fields[i], At(slots, fields[i].slot))
  {
    NothingWritten(fields, slots, |fields|);
    forall i | 0 <= i < |fields|
      ensures EncodeField(fields[i], At(slots, fields[i].slot)) == Some([]) <==>
        if fields[i].rule.OneOf? then At(slots, fields[i].slot).flag != fields[i].tag
        else Unset(fields[i], At(slots, fields[i].slot))
    {
      FieldIsNothing(fields[i], At(slots, fields[i].slot));
    }
    forall i | 0 <= i < |fields| && fields[i].rule.OneOf?
      ensures WhichKnown(fields, slots, fields[i].slot) && WellFormedField(fields[i])
    {
    }
  }

  lemma {:induction false} ZeroIsNothing(kind: Kind, item: Item)
    requires ItemInBounds(kind, item) && (kind.MessageKind? ==> WellFormed(kind.fields))
    ensures ZeroItem(kind, item) <==> !Something(kind, item)
  {
    if kind.MessageKind? {
      UnsetIsNothing(kind.fields, item.slots);
    }
  }

  lemma {:induction false} FieldIsWritten(f: Field, s: Slot, bs: seq<Byte>)
    requires WellFormedField(f) && SlotInBounds(f, s) && ShortSlot(f, s) && EncodeField(f, s) == Some(bs)
    ensures FieldWritten(f, s, bs)
  {
    if f.rule.Repeated? {
      if s.items != [] {
        ArrayIsWritten(f, s, bs);
      }
    } else {
      if f.rule.Singular? {
        ZeroIsNothing(f.kind, s.items[0]);
      }
      if Written(f, s) {
        SingleIsWritten(f.tag, f.kind, s.items[0], bs);
      }
    }
  }

  /** What is written for a message: its fields in the order of the descriptor, each that is present, and each as
      the wire format has it. */
  lemma {:induction false} MessageIsWritten(fields: seq<Field>, slots: seq<Slot>, k: nat, bs: seq<Byte>)
    requires WellFormed(fields) && InBounds(fields, slots) && ShortMessage(fields, slots) && k <= |fields|
    requires EncodeFields(fields, slots, k) == Some(bs)
    ensures FieldsWritten(fields, slots, k, bs)
  {
    if k > 0 {
      var a, b := EncodeFields(fields, slots, k - 1).value, EncodeField(fields[k - 1], At(slots, fields[k - 1].slot)).value;
      MessageIsWritten(fields, slots, k - 1, a);
      FieldIsWritten(fields[k - 1], At(slots, fields[k - 1].slot), b);
    }
  }
}
