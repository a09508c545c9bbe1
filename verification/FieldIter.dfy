/** The circular iterator over a message's fields, and the record of the required fields seen. */
module FieldIter {
  import opened Wrappers
  import opened Words
  import opened Varints
  import opened Messages
  import opened Decoding

  // ----- Where the pointers stand -----

  const PB_SIZE_MAX: PbSize := 0xffff_ffff

  /** The data_size of an array is that of one entry. */
  function PlaceSize(f: Field): nat {
    if f.rule.Repeated? then f.place.dataSize * f.rule.arraySize else f.place.dataSize
  }

  /** The next member of the same union: the pointers stay. */
  predicate Stays(prev: Field, f: Field) {
    prev.rule.OneOf? && f.rule.OneOf? && f.place.dataOffset == PB_SIZE_MAX
  }

  /** How far from the start of the struct the offsets lead to field i, one after another. */
  function DataAt(fields: seq<Field>, i: nat): nat
    requires i < |fields|
  {
    if i == 0 then fields[0].place.dataOffset
    else if Stays(fields[i - 1], fields[i]) then DataAt(fields, i - 1)
    else DataAt(fields, i - 1) + PlaceSize(fields[i - 1]) + fields[i].place.dataOffset
  }

  /** Where they lead to its flag or count. */
  function SizeAt(fields: seq<Field>, i: nat): int
    requires i < |fields|
  {
    if i > 0 && Stays(fields[i - 1], fields[i]) then SizeAt(fields, i - 1)
    else DataAt(fields, i) + fields[i].place.sizeOffset
  }

  /** The fields end with a terminator, whose tag and offsets are zero. */
  class Iterator {
    const fields: seq<Field>
    var pos: nat
    var requiredIndex: nat
    /** pData and pSize, from the start of the struct. */
    var data: int
    var size: int

    /** Everything about the iterator follows from where it stands: on a field, or, in a message without
        fields, on the terminator. */
    predicate Valid()
      reads this
    {
      && (pos < |fields| || (pos == 0 && fields == []))
      && requiredIndex == RequiredBefore(fields, pos)
      && (if fields == [] then data == size == 0 else data == DataAt(fields, pos) && size == SizeAt(fields, pos))
    }

    constructor (fields: seq<Field>)
      ensures Valid() && this.fields == fields && pos == 0
    {
      this.fields := fields;
      new;
      Begin();
    }

    method Begin()
      modifies this
      ensures Valid() && pos == 0
    {
      pos, requiredIndex := 0, 0;
      data, size := 0, 0;
      if fields != [] {
        data := fields[0].place.dataOffset;
        size := data + fields[0].place.sizeOffset;
      }
    }

    /** Moves to the next field; false when that was the last one, and the iterator is back at the first. */
    method Next() returns (more: bool)
      requires Valid()
      modifies this
      ensures Valid()
      ensures more <==> old(pos) + 1 < |fields|
      ensures pos == if more then old(pos) + 1 else 0
    {
      if pos == |fields| {
        return false;
      }
      if pos + 1 == |fields| {
        Begin();
        return false;
      }
      var prev := fields[pos];
      pos := pos + 1;
      if Stays(prev, fields[pos]) {
        return true;
      }
      if prev.rule.Required? {
        requiredIndex := requiredIndex + 1;
      }
      data := data + PlaceSize(prev) + fields[pos].place.dataOffset;
      size := data + fields[pos].place.sizeOffset;
      return true;
    }

    /** Searches once round from where it stands. A message without fields answers to tag zero, the
        terminator's. */
    method FindTag(tag: nat) returns (found: bool)
      requires Valid()
      modifies this
      ensures Valid()
      ensures fields != [] ==> (found <==> exists j :: 0 <= j < |fields| && fields[j].tag == tag)
      ensures fields == [] ==> (found <==> tag == 0)
      ensures found && fields != [] ==> fields[pos].tag == tag
      ensures !found ==> pos == old(pos)
    {
      var start := pos;
      ghost var steps := 0;
      while true
        invariant Valid() && steps <= |fields| && (fields == [] ==> steps == 0)
        invariant pos == if start + steps < |fields| || fields == [] then start + steps else start + steps - |fields|
        invariant forall j: nat :: Passed(start, steps, j) ==> fields[j].tag != tag
        invariant steps < |fields| || fields == []
        decreases |fields| - steps
      {
        if (if pos < |fields| then fields[pos].tag else 0) == tag {
          return true;
        }
        assert forall j: nat :: Passed(start, steps + 1, j) ==> Passed(start, steps, j) || j == pos;
        var more := Next();
        steps := steps + 1;
        if pos == start {
          assert forall j: nat :: j < |fields| ==> Passed(start, |fields|, j);
          return false;
        }
      }
    }

    /** Field j was looked at in the first `steps` steps from `start`. */
    predicate Passed(start: nat, steps: nat, j: nat) {
      j < |fields| && (start <= j < start + steps || start <= j + |fields| < start + steps)
    }
  }

  // ----- Required fields seen -----

  /** Two 32-bit words, one bit for each of the first 64 required fields. */
  class RequiredSeen {
    const words: array<Word>

    predicate Valid()
      reads words
    {
      words.Length == 2 && words[0] < 0x1_0000_0000 && words[1] < 0x1_0000_0000
    }

    /** The bit of that index. */
    predicate Has(index: nat)
      requires Valid() && index < 64
      reads words
    {
      if index < 32 then Bit(words[0], index) else Bit(words[1], index - 32)
    }

    ghost predicate Represents(seen: set<nat>)
      requires Valid()
      reads words
    {
      forall index :: 0 <= index < 64 ==> (Has(index) <==> index in seen)
    }

    constructor ()
      ensures Valid() && Represents({}) && fresh(words)
    {
      words := new Word[2](_ => 0);
      new;
      forall index | 0 <= index < 64
        ensures !Has(index)
      {
        BitZero(if index < 32 then index else index - 32);
      }
    }

    method Mark(index: nat, ghost seen: set<nat>)
      requires Valid() && index < 64 && Represents(seen)
      modifies words
      ensures Valid() && Represents(seen + {index})
    {
      var w := if index < 32 then 0 else 1;
      var bit := if index < 32 then index else index - 32;
      ghost var was := words[w];
      SetBit32(was, bit);
      words[w] := Or(words[w], Shl(1, bit));
      assert forall i :: 0 <= i < 64 ==> (Has(i) <==> i == index || old(Has(i)));
    }

    /** The whole words first, then the bits of the last one. */
    method HasAllOf(count: nat, ghost seen: set<nat>) returns (all: bool)
      requires Valid() && count <= 64 && Represents(seen)
      requires forall index :: index in seen ==> index < count
      ensures all <==> forall index: nat :: index < count ==> index in seen
    {
      MaskAll();
      for i := 0 to count / 32
        invariant forall w :: 0 <= w < i ==> words[w] == Mask(32)
      {
        if words[i] != 0xffff_ffff {
          Missing(seen, i, 32);
          return false;
        }
      }
      var bits := count % 32;
      if bits != 0 && words[count / 32] != Mask(bits) {
        Missing(seen, count / 32, bits);
        return false;
      }
      forall index: nat | index < count
        ensures index in seen
      {
        var w, i := index / 32, index % 32;
        var n := if w < count / 32 then 32 else bits;
        assert words[w] == Mask(n) && i < n;
        MaskBit(n, i);
        assert Has(index) <==> Bit(words[w], i);
      }
      return true;
    }

    /** A word that is not the mask of its n bits lacks one of them. */
    lemma {:induction false} Missing(seen: set<nat>, w: nat, n: nat)
      requires Valid() && Represents(seen) && w < 2 && n <= 32 && words[w] != Mask(n)
      requires forall index :: index in seen && index >= 32 * w ==> index < 32 * w + n || index >= 32 * w + 32
      ensures exists index: nat :: 32 * w <= index < 32 * w + n && index !in seen
    {
      var i := NotMask(words[w], n);
      assert Has(32 * w + i) <==> Bit(words[w], i);
    }
  }

  lemma {:induction false} SetBit32(w: Word, bit: nat)
    requires w < 0x1_0000_0000 && bit < 32
    ensures Or(w, Shl(1, bit)) < 0x1_0000_0000
    ensures forall i :: 0 <= i < 32 ==> (Bit(Or(w, Shl(1, bit)), i) <==> i == bit || Bit(w, i))
  {
    Pow32();
    Pow2Grows(bit, 31);
    ShlTimes(1, bit);
    OrFits(w, Shl(1, bit), 32);
    forall i | 0 <= i < 32
      ensures Bit(Or(w, Shl(1, bit)), i) <==> i == bit || Bit(w, i)
    {
      BitSet(w, bit, i);
    }
  }

  lemma {:induction false} Pow32()
    ensures Pow2(31) == 0x8000_0000 && Pow2(32) == 0x1_0000_0000
  {
    Pow2Groups();
    assert Pow2(31) == 8 * Pow2(28);
  }

  lemma {:induction false} MaskBit(n: nat, i: nat)
    ensures Bit(Mask(n), i) <==> i < n
  {
    if n == 0 {
      BitZero(i);
    } else if i > 0 {
      assert Mask(n) / 2 == Mask(n - 1);
      MaskBit(n - 1, i - 1);
    }
  }

  lemma {:induction false} MaskFits(n: nat)
    ensures Mask(n) == Pow2(n) - 1
  {
    if n > 0 {
      MaskFits(n - 1);
    }
  }

  lemma {:induction false} MaskAll()
    ensures Mask(32) == 0xffff_ffff
  {
    MaskFits(32);
    Pow32();
  }

  /** Different numbers differ in some bit. */
  lemma {:induction false} Differ(a: nat, b: nat, n: nat) returns (i: nat)
    requires a < Pow2(n) && b < Pow2(n) && a != b
    ensures i < n && Bit(a, i) != Bit(b, i)
  {
    i := 0;
    if a % 2 == b % 2 {
      i := Differ(a / 2, b / 2, n - 1);
      i := i + 1;
    }
  }

  lemma {:induction false} NotMask(w: nat, n: nat) returns (i: nat)
    requires w < 0x1_0000_0000 && n <= 32 && w != Mask(n)
    ensures i < 32 && Bit(w, i) != (i < n)
  {
    MaskFits(n);
    Pow32();
    Pow2Grows(n, 32);
    i := Differ(w, Mask(n), 32);
    MaskBit(n, i);
  }

  /** allbits >> (32 - n). */
  function Mask(n: nat): nat {
    if n == 0 then 0 else 2 * Mask(n - 1) + 1
  }
}
