/** The anti-replay window of section 4.1.2.6 of RFC 6347, kept as a 64-bit mask. */
module ReplayWindow {
  import opened Bytes
  import opened Words

  const WINDOW_SIZE: nat := 64

  /** What the window promises, stated on the exact set of numbers recorded: a number is refused
      when it was recorded, or lies 64 or more below something that was. */
  ghost predicate Refused(received: set<nat>, s: nat) {
    s in received || exists r :: r in received && r >= s + WINDOW_SIZE
  }

  /** The mask and the maximum stand for `received`: bit i of the mask is maxSeqNum - i. */
  ghost predicate Represents(mask: Word, maxSeqNum: Word, received: set<nat>) {
    && (forall r :: r in received ==> r <= maxSeqNum)
    && (maxSeqNum in received || (received == {} && maxSeqNum == 0))
    && Window(mask, maxSeqNum, received)
  }

  ghost predicate Window(mask: Word, top: nat, received: set<nat>) {
    forall i: nat :: i < WINDOW_SIZE ==> (Bit(mask, i) <==> i <= top && top - i in received)
  }

  /** Sliding the window up to s keeps what it says about the numbers still inside. */
  lemma SlideWindow(mask: Word, top: nat, s: nat, received: set<nat>)
    requires Window(mask, top, received) && s > top
    requires forall r :: r in received ==> r <= top
    ensures Window(if s - top >= WINDOW_SIZE then 0 else Shl(mask, s - top), s, received)
  {
    var shift := s - top;
    var slid := if shift >= WINDOW_SIZE then 0 else Shl(mask, shift);
    forall i: nat | i < WINDOW_SIZE
      ensures Bit(slid, i) <==> i <= s && s - i in received
    {
      if shift >= WINDOW_SIZE {
        BitZero(i);
      } else {
        BitShl(mask, shift, i);
        assert i >= shift ==> s - i == top - (i - shift);
      }
    }
  }

  lemma MarkWindow(mask: Word, top: nat, s: nat, received: set<nat>)
    requires Window(mask, top, received) && s <= top < s + WINDOW_SIZE
    ensures Or(mask, Shl(1, top - s)) < TWO_64
    ensures Window(Or(mask, Shl(1, top - s)), top, received + {s})
  {
    BitSet(mask, top - s, 0);
    var marked := Or(mask, Shl(1, top - s));
    forall i: nat | i < WINDOW_SIZE
      ensures Bit(marked, i) <==> i <= top && top - i in received + {s}
    {
      BitSet(mask, top - s, i);
    }
  }

  lemma EmptyWindow()
    ensures Represents(0, 0, {})
  {
    forall i: nat
      ensures !Bit(0, i)
    {
      BitZero(i);
    }
  }

  class Bitmap {
    var mask: Word
    var maxSeqNum: Word
    ghost var received: set<nat>

    ghost predicate Valid()
      reads this
    {
      Represents(mask, maxSeqNum, received)
    }

    constructor ()
      ensures Valid() && received == {}
    {
      mask, maxSeqNum, received := 0, 0, {};
      EmptyWindow();
    }

    /** Zeroes every field, as a cipher change does. */
    method Clear()
      modifies this
      ensures Valid() && received == {}
    {
      mask, maxSeqNum, received := 0, 0, {};
      EmptyWindow();
    }

    predicate ShouldDiscard(seqNum: Word): (b: bool)
      requires Valid()
      reads this
      ensures b <==> Refused(received, seqNum)
    {
      if seqNum > maxSeqNum then
        false
      else
        var idx := maxSeqNum - seqNum;
        assert seqNum == maxSeqNum - idx;
        idx >= WINDOW_SIZE || Bit(mask, idx)
    }

    method Record(seqNum: Word)
      requires Valid()
      modifies this
      ensures Valid() && received == old(received) + {seqNum}
    {
      if seqNum > maxSeqNum {
        SlideWindow(mask, maxSeqNum, seqNum, received);
        var shift := seqNum - maxSeqNum;
        mask := if shift >= WINDOW_SIZE then 0 else Shl(mask, shift);
        maxSeqNum := seqNum;
      }
      var idx := maxSeqNum - seqNum;
      if idx < WINDOW_SIZE {
        MarkWindow(mask, maxSeqNum, seqNum, received);
        mask := Or(mask, Shl(1, idx));
      }
      received := received + {seqNum};
    }
  }

  /** Reads eight bytes as one big-endian number. */
  method ToU64BE(bs: seq<Byte>) returns (ret: Word)
    requires |bs| == 8
    ensures ret == BigEndian(bs)
  {
    ret := 0;
    for i := 0 to 8
      invariant ret == BigEndian(bs[..i])
    {
      assert bs[..i + 1][..i] == bs[..i];
      Width(bs[..i + 1]);
      ret := 0x100 * ret + bs[i];
    }
    assert bs[..8] == bs;
  }

  lemma Width(bs: seq<Byte>)
    requires |bs| <= 8
    ensures BigEndian(bs) < TWO_64
  {
    assert Pow256(2) == 0x1_0000 && Pow256(4) == 0x1_0000_0000;
    assert Pow256(6) == 0x1_0000_0000_0000 && Pow256(8) == TWO_64;
    PowGrows(|bs|, 8);
  }

  lemma {:induction false} PowGrows(m: nat, n: nat)
    requires m <= n
    ensures Pow256(m) <= Pow256(n)
  {
    if m < n {
      PowGrows(m, n - 1);
    }
  }
}
