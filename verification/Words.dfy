/** 64-bit machine words as numbers below 2^64, with the shift and the bitwise or the source uses. */
module Words {
  const TWO_64: nat := 0x1_0000_0000_0000_0000
  type Word = w: nat | w < TWO_64

  function Pow2(n: nat): (p: nat)
    ensures p > 0
  {
    if n == 0 then 1 else 2 * Pow2(n - 1)
  }

  /** Bit i of w, that is, w & (1 << i) is not zero. */
  predicate Bit(w: nat, i: nat) {
    if i == 0 then w % 2 == 1 else Bit(w / 2, i - 1)
  }

  /** w << n; what leaves the 64 bits is lost. */
  function Shl(w: Word, n: nat): Word {
    if n == 0 then w else Shl(w, n - 1) * 2 % TWO_64
  }

  function Or(a: nat, b: nat): nat {
    if a == 0 && b == 0 then 0
    else 2 * Or(a / 2, b / 2) + (if a % 2 == 1 || b % 2 == 1 then 1 else 0)
  }

  lemma {:induction false} BitOr(a: nat, b: nat, i: nat)
    ensures Bit(Or(a, b), i) <==> Bit(a, i) || Bit(b, i)
  {
    if i > 0 {
      assert Or(a, b) / 2 == Or(a / 2, b / 2);
      BitOr(a / 2, b / 2, i - 1);
    }
  }

  lemma {:induction false} OrFits(a: nat, b: nat, n: nat)
    requires a < Pow2(n) && b < Pow2(n)
    ensures Or(a, b) < Pow2(n)
  {
    if n > 0 && (a > 0 || b > 0) {
      OrFits(a / 2, b / 2, n - 1);
    }
  }

  lemma Pow64()
    ensures Pow2(64) == TWO_64
  {
    assert Pow2(8) == 0x100;
    assert Pow2(16) == 0x1_0000;
    assert Pow2(24) == 0x100_0000;
    assert Pow2(32) == 0x1_0000_0000;
    assert Pow2(40) == 0x100_0000_0000;
    assert Pow2(48) == 0x1_0000_0000_0000;
    assert Pow2(56) == 0x100_0000_0000_0000;
  }

  lemma {:induction false} BitDrop(w: nat, k: nat, i: nat)
    requires i < k && w >= Pow2(k)
    ensures Bit(w - Pow2(k), i) <==> Bit(w, i)
  {
    if i > 0 {
      assert (w - Pow2(k)) / 2 == w / 2 - Pow2(k - 1);
      BitDrop(w / 2, k - 1, i - 1);
    }
  }

  /** One place up, within the 64 bits. */
  lemma {:induction false} BitDouble(v: Word, i: nat)
    requires i < 64
    ensures Bit(v * 2 % TWO_64, i) <==> i > 0 && Bit(v, i - 1)
  {
    Pow64();
    if 2 * v >= TWO_64 {
      BitDrop(2 * v, 64, i);
    }
    assert 2 * v / 2 == v;
  }

  lemma {:induction false} BitShl(w: Word, n: nat, i: nat)
    requires i < 64
    ensures Bit(Shl(w, n), i) <==> i >= n && Bit(w, i - n)
  {
    if n > 0 {
      BitDouble(Shl(w, n - 1), i);
      if i > 0 {
        BitShl(w, n - 1, i - 1);
      }
    }
  }

  lemma {:induction false} BitZero(i: nat)
    ensures !Bit(0, i)
  {
    if i > 0 {
      BitZero(i - 1);
    }
  }

  /** Setting bit n of w changes that bit and no other. */
  lemma BitSet(w: Word, n: nat, i: nat)
    requires n < 64 && i < 64
    ensures Or(w, Shl(1, n)) < TWO_64
    ensures Bit(Or(w, Shl(1, n)), i) <==> i == n || Bit(w, i)
  {
    Pow64();
    OrFits(w, Shl(1, n), 64);
    BitOr(w, Shl(1, n), i);
    BitShl(1, n, i);
    if i > n {
      BitZero(i - n - 1);
    }
  }
}
