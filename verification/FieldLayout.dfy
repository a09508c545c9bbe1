/** The relative offsets in nanopb's descriptors, and the members of the C struct the iterator reaches by them. */
module FieldLayout {
  import opened Varints
  import opened Messages
  import opened FieldIter

  /** A member of the struct: where it starts, the size of one entry, and where its has-flag, count or
      which-tag is; a member without one names itself. */
  datatype Member = Member(start: nat, entry: nat, companion: nat)

  function MemberSize(f: Field, m: Member): nat {
    if f.rule.Repeated? then m.entry * f.rule.arraySize else m.entry
  }

  /** Field i is another member of the union the field before it is in. */
  predicate InUnion(fields: seq<Field>, i: nat)
    requires i < |fields|
  {
    i > 0 && fields[i - 1].rule.OneOf? && fields[i].rule.OneOf? && fields[i - 1].slot == fields[i].slot
  }

  /** From the end of the member before it to the member, and below zero when it lies before that one. */
  function Gap(fields: seq<Field>, members: seq<Member>, i: nat): int
    requires 0 < i < |fields| == |members|
  {
    members[i].start - members[i - 1].start - MemberSize(fields[i - 1], members[i - 1])
  }

  /** PB_DATAOFFSET_FIRST, PB_DATAOFFSET_UNION and PB_DATAOFFSET_OTHER, cut to the 32 bits of pb_size_t. */
  function DataOffset(fields: seq<Field>, members: seq<Member>, i: nat): int
    requires i < |fields| == |members|
  {
    if i == 0 then members[0].start
    else if InUnion(fields, i) then PB_SIZE_MAX
    else if Gap(fields, members, i) < 0 then Gap(fields, members, i) + TWO_32
    else Gap(fields, members, i)
  }

  predicate DescribedAt(fields: seq<Field>, members: seq<Member>, i: nat)
    requires i < |fields| == |members|
  {
    && fields[i].place.dataOffset == DataOffset(fields, members, i)
    && fields[i].place.sizeOffset == members[i].companion - members[i].start
    && fields[i].place.dataSize == members[i].entry
  }

  /** What a compiler does with the struct: no member is empty, all end below 2^32, the members of a union
      share their start and their which-tag, and others do not overlap the one before them. */
  predicate LaidOutAt(fields: seq<Field>, members: seq<Member>, i: nat)
    requires i < |fields| == |members|
  {
    && 0 < MemberSize(fields[i], members[i])
    && members[i].start + MemberSize(fields[i], members[i]) < TWO_32
    && (InUnion(fields, i) ==>
          members[i].start == members[i - 1].start && members[i].companion == members[i - 1].companion)
    && (i > 0 && !InUnion(fields, i) ==>
          || 0 <= Gap(fields, members, i)
          || members[i].start + MemberSize(fields[i], members[i]) <= members[i - 1].start)
  }

  /** The descriptors of the fields are those the macros make for the struct. */
  predicate Described(fields: seq<Field>, members: seq<Member>) {
    && |fields| == |members|
    && forall i :: 0 <= i < |fields| ==> LaidOutAt(fields, members, i) && DescribedAt(fields, members, i)
  }

  /** Field i does not lie before the end of the field that comes before it. */
  predicate ForwardAt(fields: seq<Field>, members: seq<Member>, i: nat)
    requires i < |fields| == |members|
  {
    i == 0 || InUnion(fields, i) || 0 <= Gap(fields, members, i)
  }

  /** How many of the fields up to i lie in the struct before the field that comes before them. */
  function Descents(fields: seq<Field>, members: seq<Member>, i: nat): nat
    requires i < |fields| == |members|
  {
    if i == 0 then 0
    else Descents(fields, members, i - 1) + if ForwardAt(fields, members, i) then 0 else 1
  }

  /** Where the pointers stand at field i: at the member, but 2^32 further for every step back on the way. */
  lemma {:induction false} PointersAt(fields: seq<Field>, members: seq<Member>, i: nat)
    requires Described(fields, members) && i < |fields|
    ensures DataAt(fields, i) == members[i].start + TWO_32 * Descents(fields, members, i)
    ensures SizeAt(fields, i) == members[i].companion + TWO_32 * Descents(fields, members, i)
  {
    assert LaidOutAt(fields, members, i) && DescribedAt(fields, members, i);
    if i > 0 {
      PointersAt(fields, members, i - 1);
      assert LaidOutAt(fields, members, i - 1) && DescribedAt(fields, members, i - 1);
    }
  }

  /** The iterator reaches every member if and only if the members lie in the struct in the order of their
      descriptors; then it reaches their flags and counts too. */
  lemma {:induction false} PointersAreExact(fields: seq<Field>, members: seq<Member>)
    requires Described(fields, members)
    ensures (forall i :: 0 <= i < |fields| ==> DataAt(fields, i) == members[i].start) <==>
            forall i :: 0 <= i < |fields| ==> ForwardAt(fields, members, i)
    ensures (forall i :: 0 <= i < |fields| ==> SizeAt(fields, i) == members[i].companion) <==>
            forall i :: 0 <= i < |fields| ==> ForwardAt(fields, members, i)
  {
    forall i | 0 <= i < |fields|
      ensures DataAt(fields, i) == members[i].start <==> Descents(fields, members, i) == 0
      ensures SizeAt(fields, i) == members[i].companion <==> Descents(fields, members, i) == 0
      ensures Descents(fields, members, i) == 0 <==> forall j :: 0 <= j <= i ==> ForwardAt(fields, members, j)
    {
      PointersAt(fields, members, i);
      NoDescents(fields, members, i);
    }
  }

  lemma {:induction false} NoDescents(fields: seq<Field>, members: seq<Member>, i: nat)
    requires i < |fields| == |members|
    ensures Descents(fields, members, i) == 0 <==> forall j :: 0 <= j <= i ==> ForwardAt(fields, members, j)
  {
    if i > 0 {
      NoDescents(fields, members, i - 1);
    }
  }
}
