/** The reassembly bitmask: one bit for each byte of a message body, eight to a mask byte. */
module Bitmask {
  /** 1u << n, cut to 32 bits. */
  function One(n: nat): bv32
    requires n <= 8
  {
    (1 as bv32) << n
  }

  /** Bits start, inclusive, to end, exclusive. */
  function BitRange(start: nat, end: nat): bv8
    requires start <= 8 && end <= 8
  {
    (!(One(start) - 1) & (One(end) - 1) & 0xff) as bv8
  }

  predicate BitOf(b: bv8, k: nat)
    requires k < 8
  {
    b & (1 << k) != 0
  }

  predicate Marked(mask: seq<bv8>, k: nat)
    requires k < 8 * |mask|
  {
    BitOf(mask[k / 8], k % 8)
  }

  lemma BitRangeBits(start: nat, end: nat, k: nat)
    requires start <= 8 && end <= 8 && k < 8
    ensures BitOf(BitRange(start, end), k) <==> start <= k < end
  {
  }

  lemma OrBits(a: bv8, b: bv8, k: nat)
    requires k < 8
    ensures BitOf(a | b, k) <==> BitOf(a, k) || BitOf(b, k)
  {
  }

  lemma SameBits(a: bv8, b: bv8)
    requires forall k: nat :: k < 8 ==> (BitOf(a, k) <==> BitOf(b, k))
    ensures a == b
  {
    assert forall k: nat :: k < 8 ==> (BitOf(a, k) <==> BitOf(b, k));
    assert BitOf(a, 0) <==> BitOf(b, 0);
    assert BitOf(a, 1) <==> BitOf(b, 1);
    assert BitOf(a, 2) <==> BitOf(b, 2);
    assert BitOf(a, 3) <==> BitOf(b, 3);
    assert BitOf(a, 4) <==> BitOf(b, 4);
    assert BitOf(a, 5) <==> BitOf(b, 5);
    assert BitOf(a, 6) <==> BitOf(b, 6);
    assert BitOf(a, 7) <==> BitOf(b, 7);
  }

  /** Or-ing a range into one mask byte. */
  lemma OrRange(b: bv8, start: nat, end: nat, k: nat)
    requires start <= 8 && end <= 8 && k < 8
    ensures BitOf(b | BitRange(start, end), k) <==> BitOf(b, k) || start <= k < end
  {
    BitRangeBits(start, end, k);
    OrBits(b, BitRange(start, end), k);
  }

  lemma Full(k: nat)
    requires k < 8
    ensures BitOf(0xff, k) && !BitOf(0, k)
    ensures 0xff == BitRange(0, 8)
  {
    BitRangeBits(0, 8, k);
  }

  /** Mask byte i after marking start to end: what it held, and its share of the range. */
  ghost predicate ByteMarked(was: bv8, now: bv8, i: nat, start: nat, end: nat) {
    forall k: nat :: k < 8 ==> (BitOf(now, k) <==> BitOf(was, k) || start <= 8 * i + k < end)
  }

  /** Where position x falls inside mask byte i. */
  function Clamp(x: nat, i: nat): (c: nat)
    ensures c <= 8
  {
    if x <= 8 * i then 0 else if x >= 8 * i + 8 then 8 else x - 8 * i
  }

  lemma OrRangeMarks(was: bv8, i: nat, start: nat, end: nat)
    ensures ByteMarked(was, was | BitRange(Clamp(start, i), Clamp(end, i)), i, start, end)
  {
    var lo, hi := Clamp(start, i), Clamp(end, i);
    forall k: nat | k < 8
      ensures BitOf(was | BitRange(lo, hi), k) <==> BitOf(was, k) || start <= 8 * i + k < end
    {
      OrRange(was, lo, hi, k);
      assert lo <= k < hi <==> start <= 8 * i + k < end;
    }
  }

  lemma MarkedAt(mask: seq<bv8>, i: nat, k: nat)
    requires i < |mask| && k < 8
    ensures Marked(mask, 8 * i + k) <==> BitOf(mask[i], k)
  {
  }

  /** Bytes marked one by one make a mask with the whole range marked. */
  lemma AllMarked(was: seq<bv8>, now: seq<bv8>, start: nat, end: nat)
    requires |was| == |now|
    requires forall i :: 0 <= i < |was| ==> ByteMarked(was[i], now[i], i, start, end)
    ensures forall k: nat :: k < 8 * |was| ==> (Marked(now, k) <==> Marked(was, k) || start <= k < end)
  {
    forall k: nat | k < 8 * |was|
      ensures Marked(now, k) <==> Marked(was, k) || start <= k < end
    {
      var i := k / 8;
      assert k == 8 * i + k % 8;
      assert ByteMarked(was[i], now[i], i, start, end);
    }
  }

  lemma NoMarks(was: bv8, i: nat, start: nat, end: nat)
    requires end <= 8 * i || 8 * i + 8 <= start
    ensures ByteMarked(was, was, i, start, end)
  {
  }

  lemma FullMarks(was: bv8, i: nat, start: nat, end: nat)
    requires start <= 8 * i && 8 * i + 8 <= end
    ensures ByteMarked(was, 0xff, i, start, end)
  {
    forall k: nat | k < 8
      ensures BitOf(0xff, k)
    {
      Full(k);
    }
  }

  /** The mask has its share of the range in bytes lo to hi, and is untouched elsewhere. */
  ghost predicate RangeMarked(was: seq<bv8>, now: seq<bv8>, lo: nat, hi: nat, start: nat, end: nat) {
    && |was| == |now| && lo <= hi <= |was|
    && (forall j :: 0 <= j < lo || hi <= j < |was| ==> now[j] == was[j])
    && forall j :: lo <= j < hi ==> ByteMarked(was[j], now[j], j, start, end)
  }

  lemma RangeGrows(was: seq<bv8>, before: seq<bv8>, now: seq<bv8>, lo: nat, i: nat, start: nat, end: nat)
    requires RangeMarked(was, before, lo, i, start, end) && i < |was| == |now| && now == before[i := now[i]]
    requires ByteMarked(was[i], now[i], i, start, end)
    ensures RangeMarked(was, now, lo, i + 1, start, end)
  {
  }

  /** A range that is marked in all the bytes it touches is marked. */
  lemma RangeIsMarked(was: seq<bv8>, now: seq<bv8>, lo: nat, hi: nat, start: nat, end: nat)
    requires RangeMarked(was, now, lo, hi, start, end) && 8 * lo <= start && end <= 8 * hi
    ensures forall k: nat :: k < 8 * |was| ==> (Marked(now, k) <==> Marked(was, k) || start <= k < end)
  {
    forall j | 0 <= j < |was|
      ensures ByteMarked(was[j], now[j], j, start, end)
    {
      if j < lo || hi <= j {
        NoMarks(was[j], j, start, end);
      }
    }
    AllMarked(was, now, start, end);
  }

  /** Sets the bits of a range, byte by byte, in place. */
  method MarkRange(mask: array<bv8>, start: nat, end: nat)
    requires start < end <= 8 * mask.Length
    modifies mask
    ensures forall k: nat :: k < 8 * mask.Length ==>
              (Marked(mask[..], k) <==> old(Marked(mask[..], k)) || start <= k < end)
  {
    ghost var was := mask[..];
    var first := start / 8;
    if first == end / 8 {
      OrRangeMarks(was[first], first, start, end);
      mask[first] := mask[first] | BitRange(start % 8, end % 8);
      RangeIsMarked(was, mask[..], first, first + 1, start, end);
    } else {
      MarkWide(mask, start, end);
    }
  }

  /** A range of more than one byte: its head, the full bytes in the middle, and its tail. */
  method MarkWide(mask: array<bv8>, start: nat, end: nat)
    requires start < end <= 8 * mask.Length && start / 8 < end / 8
    modifies mask
    ensures forall k: nat :: k < 8 * mask.Length ==>
              (Marked(mask[..], k) <==> old(Marked(mask[..], k)) || start <= k < end)
  {
    ghost var was := mask[..];
    var first, last := start / 8, end / 8;
    OrRangeMarks(was[first], first, start, end);
    mask[first] := mask[first] | BitRange(start % 8, 8);
    RangeGrows(was, was, mask[..], first, first, start, end);
    var i := first + 1;
    while i < last
      invariant first + 1 <= i <= last && RangeMarked(was, mask[..], first, i, start, end)
    {
      ghost var before := mask[..];
      FullMarks(was[i], i, start, end);
      mask[i] := 0xff;
      RangeGrows(was, before, mask[..], first, i, start, end);
      i := i + 1;
    }
    if end % 8 != 0 {
      ghost var before := mask[..];
      OrRangeMarks(was[last], last, start, end);
      mask[last] := mask[last] | BitRange(0, end % 8);
      RangeGrows(was, before, mask[..], first, last, start, end);
      i := last + 1;
    }
    RangeIsMarked(was, mask[..], first, i, start, end);
  }

  lemma AllEight(b: bv8, n: nat)
    requires n <= 8
    requires forall k: nat :: n <= k < 8 ==> !BitOf(b, k)
    ensures b == BitRange(0, n) <==> forall k: nat :: k < n ==> BitOf(b, k)
  {
    forall k: nat | k < 8
      ensures BitOf(BitRange(0, n), k) <==> k < n
    {
      BitRangeBits(0, n, k);
    }
    if forall k: nat :: k < n ==> BitOf(b, k) {
      SameBits(b, BitRange(0, n));
    }
  }

  /** Mask byte i has its n low bits set exactly when the n positions it stands for are marked. */
  lemma MaskByteFull(mask: seq<bv8>, i: nat, n: nat)
    requires i < |mask| && n <= 8
    requires forall k: nat :: 8 * i + n <= k < 8 * i + 8 ==> !Marked(mask, k)
    ensures mask[i] == BitRange(0, n) <==> forall k: nat :: 8 * i <= k < 8 * i + n ==> Marked(mask, k)
  {
    forall k: nat | k < 8
      ensures BitOf(mask[i], k) <==> Marked(mask, 8 * i + k)
    {
      MarkedAt(mask, i, k);
    }
    AllEight(mask[i], n);
    if mask[i] == BitRange(0, n) {
      forall k: nat | 8 * i <= k < 8 * i + n
        ensures Marked(mask, k)
      {
        assert BitOf(mask[i], k - 8 * i);
      }
    } else {
      var k: nat :| k < n && !BitOf(mask[i], k);
      assert !Marked(mask, 8 * i + k);
    }
  }

  /** Whether every byte of a body of n bytes is marked; no bit past the end may be set. */
  method IsComplete(mask: array<bv8>, n: nat) returns (complete: bool)
    requires mask.Length == (n + 7) / 8
    requires forall k: nat :: n <= k < 8 * mask.Length ==> !Marked(mask[..], k)
    ensures complete <==> forall k: nat :: k < n ==> Marked(mask[..], k)
  {
    ghost var m := mask[..];
    for i := 0 to n / 8
      invariant forall k: nat :: k < 8 * i ==> Marked(m, k)
    {
      Full(0);
      MaskByteFull(m, i, 8);
      if mask[i] != 0xff {
        ghost var k: nat :| 8 * i <= k < 8 * i + 8 && !Marked(m, k);
        assert k < n && mask[..] == m;
        return false;
      }
    }
    if n % 8 != 0 {
      MaskByteFull(m, n / 8, n % 8);
      if mask[n / 8] != BitRange(0, n % 8) {
        ghost var k: nat :| 8 * (n / 8) <= k < 8 * (n / 8) + n % 8 && !Marked(m, k);
        assert k < n && mask[..] == m;
        return false;
      }
    }
    return true;
  }
}
