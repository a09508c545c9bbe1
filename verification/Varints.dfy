/** The number formats of the Protocol Buffers wire: base 128 varints, zigzag, and little-endian words. */
module Varints {
  import opened Wrappers
  import opened Bytes
  import opened Words

  const TWO_32: nat := 0x1_0000_0000

  /** The base 128 form, lowest group of seven bits first. */
  function Varint(v: nat): (bs: seq<Byte>)
    ensures |bs| > 0
  {
    if v < 128 then [v] else [v % 128 + 128] + Varint(v / 128)
  }

  /** Reads a varint of which n bytes were read before: the number its remaining groups make up. A
      varint has at most ten bytes. */
  function ReadGroups(bs: seq<Byte>, n: nat): (r: Option<(nat, seq<Byte>)>)
    ensures r.Some? ==> |r.value.1| < |bs|
    decreases |bs|
  {
    if n >= 10 || bs == [] then None
    else if bs[0] < 128 then Some((bs[0] as int, bs[1..]))
    else
      match ReadGroups(bs[1..], n + 1)
      case None => None
      case Some((high, rest)) =>
        var low: int := bs[0];
        Some((low - 128 + 128 * high, rest))
  }

  /** Where reading a 64-bit varint stops, also when it fails. */
  function VarintEnd(bs: seq<Byte>, n: nat): seq<Byte>
    decreases |bs|
  {
    if n >= 10 || bs == [] then bs
    else if bs[0] < 128 then bs[1..]
    else VarintEnd(bs[1..], n + 1)
  }

  /** The 64-bit decoder: bits above the 64th are lost. */
  function ReadVarint(bs: seq<Byte>): (r: Option<(Word, seq<Byte>)>)
    ensures r.Some? ==> |r.value.1| < |bs|
  {
    match ReadGroups(bs, 0)
    case None => None
    case Some((v, rest)) => Some((v % TWO_64, rest))
  }

  function Pow128(n: nat): (p: nat)
    ensures p > 0
  {
    if n == 0 then 1 else 128 * Pow128(n - 1)
  }

  lemma {:induction false} GroupsRoundTrip(v: nat, n: nat, rest: seq<Byte>)
    requires n < 10 && v < Pow128(10 - n)
    ensures ReadGroups(Varint(v) + rest, n) == Some((v, rest))
    decreases 10 - n
  {
    var bs := Varint(v) + rest;
    if v < 128 {
      assert bs[1..] == rest;
    } else {
      assert v / 128 < Pow128(9 - n);
      assert bs[1..] == Varint(v / 128) + rest;
      assert n < 9 by {
        assert Pow128(1) == 128;
      }
      GroupsRoundTrip(v / 128, n + 1, rest);
    }
  }

  lemma {:induction false} Pow128Ten()
    ensures Pow128(10) >= TWO_64 && Pow128(5) == 0x8_0000_0000
  {
    assert Pow128(3) == 0x20_0000;
    assert Pow128(5) == 128 * (128 * Pow128(3));
    assert Pow128(7) == 128 * (128 * Pow128(5));
    assert Pow128(10) == 128 * (128 * (128 * Pow128(7)));
  }

  /** Decoding inverts encoding on every 64-bit number. */
  lemma {:induction false} VarintRoundTrip(v: Word, rest: seq<Byte>)
    ensures ReadVarint(Varint(v) + rest) == Some((v, rest))
  {
    Pow128Ten();
    GroupsRoundTrip(v, 0, rest);
  }

  /** What is read does not depend on what follows. */
  lemma {:induction false} GroupsLocal(bs: seq<Byte>, n: nat, more: seq<Byte>)
    requires ReadGroups(bs, n).Some?
    ensures ReadGroups(bs + more, n) == Some((ReadGroups(bs, n).value.0, ReadGroups(bs, n).value.1 + more))
    decreases |bs|
  {
    assert (bs + more)[1..] == bs[1..] + more;
    if bs[0] >= 128 {
      GroupsLocal(bs[1..], n + 1, more);
    }
  }

  // ----- The 32-bit decoder -----

  /** The seven payload bits of a byte. */
  function Low7(b: Byte): (x: int)
    ensures 0 <= x < 128 && x == b % 128
  {
    if b < 128 then b else b - 128
  }

  /** The bit position is kept in eight bits. */
  function NextBit(bitpos: nat): nat {
    if bitpos + 7 < 0x100 then bitpos + 7 else bitpos + 7 - 0x100
  }

  /** One more byte for the 32-bit decoder, which has `result` so far and is at bit `bitpos` of the
      number; None when the byte does not fit. A byte beyond the 32 bits may only repeat the sign. */
  function Take32(result: Word, bitpos: nat, b: Byte): Option<Word>
    requires bitpos < 0x100
  {
    if bitpos >= 32 then
      var signExtension := if bitpos < 63 then 0xff else 0x01;
      if Low7(b) != 0 && (result < 0x8000_0000 || b != signExtension) then None else Some(result)
    else
      Some(Or(result, Shl(Low7(b), bitpos)) % TWO_32)
  }

  /** The rest of a number of more than one byte. Only
      the fifth byte, if it is the last, is checked for bits that do not fit. */
  function Read32More(bs: seq<Byte>, result: Word, bitpos: nat): (r: Option<(Word, seq<Byte>)>)
    requires bitpos < 0x100
    ensures r.Some? ==> |r.value.1| < |bs|
    decreases |bs|
  {
    if bs == [] then None else
    var b := bs[0];
    match Take32(result, bitpos, b)
    case None => None
    case Some(now) =>
      var next := NextBit(bitpos);
      if b >= 128 then Read32More(bs[1..], now, next)
      else if next == 35 && Low7(b) >= 16 then None
      else Some((now, bs[1..]))
  }

  function Read32(bs: seq<Byte>): (r: Option<(Word, seq<Byte>)>)
    ensures r.Some? ==> |r.value.1| < |bs|
  {
    if bs == [] then None
    else if bs[0] < 128 then Some((bs[0] as int, bs[1..]))
    else Read32More(bs[1..], bs[0] - 128, 7)
  }

  lemma {:induction false} Read32MoreLocal(bs: seq<Byte>, result: Word, bitpos: nat, more: seq<Byte>)
    requires bitpos < 0x100 && Read32More(bs, result, bitpos).Some?
    ensures var (v, rest) := Read32More(bs, result, bitpos).value;
      Read32More(bs + more, result, bitpos) == Some((v, rest + more))
    decreases |bs|
  {
    assert (bs + more)[1..] == bs[1..] + more;
    if bs[0] >= 128 {
      Read32MoreLocal(bs[1..], Take32(result, bitpos, bs[0]).value, NextBit(bitpos), more);
    }
  }

  lemma {:induction false} Read32Local(bs: seq<Byte>, more: seq<Byte>)
    requires Read32(bs).Some?
    ensures Read32(bs + more) == Some((Read32(bs).value.0, Read32(bs).value.1 + more))
  {
    assert (bs + more)[1..] == bs[1..] + more;
    if bs[0] >= 128 {
      Read32MoreLocal(bs[1..], bs[0] - 128, 7, more);
    }
  }

  // ----- Arithmetic of words -----

  lemma {:induction false} Pow2Sum(a: nat, b: nat)
    ensures Pow2(a + b) == Pow2(a) * Pow2(b)
  {
    if a > 0 {
      Pow2Sum(a - 1, b);
    }
  }

  lemma {:induction false} ModOnce(z: nat)
    requires z < 2 * TWO_64
    ensures z % TWO_64 == if z < TWO_64 then z else z - TWO_64
  {
  }

  lemma {:induction false} TwiceTimes(w: nat, p: nat)
    ensures w * (2 * p) == 2 * (w * p)
  {
  }

  lemma {:induction false} ShlTimes(w: Word, n: nat)
    requires w * Pow2(n) < TWO_64
    ensures Shl(w, n) == w * Pow2(n)
  {
    if n > 0 {
      var half := w * Pow2(n - 1);
      TwiceTimes(w, Pow2(n - 1));
      assert Shl(w, n - 1) == half by {
        ShlTimes(w, n - 1);
      }
      ModOnce(half * 2);
    }
  }

  lemma {:induction false} Product(r: nat, half: nat, u: nat)
    requires r < 2 * half
    ensures if r < half then r * u < half * u || u == 0
            else r * u == (r - half) * u + half * u && r * u <= 2 * (half * u)
  {
    if r < half {
      assert (half - r) * u == half * u - r * u;
    } else {
      assert (2 * half - r) * u == 2 * (half * u) - r * u;
    }
  }

  /** Doubling r * c, where r has one bit more than still fits, drops that bit. */
  lemma {:induction false} DoubleDrops(r: nat, half: nat, c: nat, u: nat)
    requires u == 2 * c && r < 2 * half && half * u == TWO_64
    ensures r * c * 2 % TWO_64 == (if r < half then r else r - half) * u
  {
    assert r * c * 2 == r * u;
    Product(r, half, u);
    Product(2 * half - 1, half, u);
    assert (2 * half - r) * u > 0;
    ModOnce(r * u);
  }

  lemma {:induction false} ShlDrops(x: Word, n: nat, r: nat, half: nat, c: nat, u: nat)
    requires n > 0 && Shl(x, n - 1) == r * c && u == 2 * c && r < 2 * half && half * u == TWO_64
    ensures Shl(x, n) == Cut(r, half) * u
  {
    DoubleDrops(r, half, c, u);
  }

  lemma {:induction false} ShlTop(x: nat, n: nat) returns (bit: nat, lost: nat)
    requires x < 128 && n == 57
    ensures bit < 2 && x == 2 * lost + bit && Shl(x, n + 6) == bit * 0x8000_0000_0000_0000
  {
    ShlTimes(x, n) by {
      Pow2Constants();
    }
    assert Shl(x, n) == x * 0x200_0000_0000_0000 by {
      Pow2Constants();
    }
    bit := Cut(x, 64);
    ShlDrops(x, n + 1, x, 64, 0x200_0000_0000_0000, 0x400_0000_0000_0000);
    ShlDrops(x, n + 2, bit, 32, 0x400_0000_0000_0000, 0x800_0000_0000_0000);
    bit := Cut(bit, 32);
    ShlDrops(x, n + 3, bit, 16, 0x800_0000_0000_0000, 0x1000_0000_0000_0000);
    bit := Cut(bit, 16);
    ShlDrops(x, n + 4, bit, 8, 0x1000_0000_0000_0000, 0x2000_0000_0000_0000);
    bit := Cut(bit, 8);
    ShlDrops(x, n + 5, bit, 4, 0x2000_0000_0000_0000, 0x4000_0000_0000_0000);
    bit := Cut(bit, 4);
    ShlDrops(x, n + 6, bit, 2, 0x4000_0000_0000_0000, 0x8000_0000_0000_0000);
    bit := Cut(bit, 2);
    lost := Half(x, bit);
  }

  lemma {:induction false} Half(x: nat, bit: nat) returns (lost: nat)
    requires bit <= x && bit % 2 == x % 2
    ensures x == 2 * lost + bit
  {
    lost := (x - bit) / 2;
  }

  function Cut(r: nat, half: nat): (c: nat)
    ensures c <= r && (half % 2 == 0 ==> c % 2 == r % 2)
  {
    if r < half then r else r - half
  }

  lemma {:induction false} Pow2Constants()
    ensures Pow2(57) == 0x200_0000_0000_0000 && Pow2(63) == 0x8000_0000_0000_0000
  {
    Pow64();
    assert Pow2(60) == 8 * Pow2(57) && Pow2(64) == 16 * Pow2(60);
  }

  /** Bits that do not overlap: or is addition. */
  lemma {:induction false} OrAdds(a: nat, y: nat, n: nat)
    requires a < Pow2(n)
    ensures Or(a, y * Pow2(n)) == a + y * Pow2(n)
  {
    if n == 0 {
      OrZero(y);
    } else if a == 0 && y == 0 {
    } else {
      var half := y * Pow2(n - 1);
      assert y * Pow2(n) == 2 * half;
      assert a / 2 < Pow2(n - 1);
      OrAdds(a / 2, y, n - 1);
      OrStep(a, 2 * half);
    }
  }

  lemma {:induction false} OrStep(a: nat, b: nat)
    requires b % 2 == 0
    ensures Or(a, b) == 2 * Or(a / 2, b / 2) + a % 2
  {
  }

  lemma {:induction false} OrZero(y: nat)
    ensures Or(0, y) == y
  {
    if y > 0 {
      OrZero(y / 2);
    }
  }

  /** A word of n low bits takes seven more bits. */
  lemma {:induction false} OrGroup(low: nat, x: nat, n: nat)
    requires n <= 56 && low < Pow2(n) && low < TWO_64 && x < 128
    ensures Or(low, Shl(x, n)) == low + x * Pow2(n) < Pow2(n + 7) < TWO_64
  {
    assert Pow2(n + 7) == 128 * Pow2(n) by {
      Pow2Sum(7, n);
      assert Pow2(7) == 128;
    }
    Pow2Grows(n + 7, 63);
    Pow2Constants();
    LessTimes(low, x, Pow2(n), 128);
    ShlTimes(x, n);
    OrAdds(low, x, n);
  }

  lemma {:induction false} DropWraps(z: nat, q: nat)
    ensures (z + q * TWO_64) % TWO_64 == z % TWO_64
  {
    if q > 0 {
      DropWraps(z, q - 1);
    }
  }

  /** At bit 63 only one bit of the group is kept. */
  lemma {:induction false} OrTop(low: nat, x: nat, n: nat)
    requires n == 63 && low < Pow2(n) && x < 128
    ensures low < TWO_64 && Or(low, Shl(x, n)) == (low + x * Pow2(n)) % TWO_64
  {
    Pow2Constants();
    var bit, lost := ShlTop(x, 57);
    OrAdds(low, bit, n);
    DropWraps(low + bit * 0x8000_0000_0000_0000, lost);
    ModOnce(low + bit * 0x8000_0000_0000_0000);
    assert low + x * Pow2(n) == low + bit * 0x8000_0000_0000_0000 + lost * TWO_64;
  }

  lemma {:induction false} Pow2Grows(m: nat, n: nat)
    requires m <= n
    ensures Pow2(m) <= Pow2(n)
  {
    if m < n {
      Pow2Grows(m, n - 1);
    }
  }

  lemma {:induction false} LessTimes(low: nat, x: nat, p: nat, q: nat)
    requires low < p && x < q
    ensures low + x * p < q * p
  {
    assert (x + 1) * p <= q * p;
  }

  // ----- The 32-bit decoder against the 64-bit one -----

  lemma {:induction false} DropWraps32(z: nat, q: nat)
    ensures (z + q * 0x8_0000_0000) % TWO_32 == z % TWO_32
  {
    if q > 0 {
      DropWraps32(z, q - 1);
    }
  }

  lemma {:induction false} Pow2Groups()
    ensures Pow2(7) == 0x80 && Pow2(14) == 0x4000 && Pow2(21) == 0x20_0000
    ensures Pow2(28) == 0x1000_0000 && Pow2(35) == 0x8_0000_0000
  {
    assert Pow2(14) == 128 * Pow2(7);
    assert Pow2(21) == 128 * Pow2(14);
    assert Pow2(28) == 128 * Pow2(21);
    assert Pow2(35) == 128 * Pow2(28);
  }

  lemma {:induction false} Group32(result: nat, x: nat, k: nat)
    requires 1 <= k <= 4 && result < Pow2(7 * k) && x < 128
    ensures result < TWO_64 && Or(result, Shl(x, 7 * k)) == result + x * Pow2(7 * k) < Pow2(7 * k + 7)
    ensures k < 4 ==> result + x * Pow2(7 * k) < TWO_32
  {
    Pow2Grows(7 * k, 63);
    Pow2Constants();
    OrGroup(result, x, 7 * k);
    if k < 4 {
      Pow2Grows(7 * k + 7, 28);
      Pow2Groups();
    }
  }

  lemma {:induction false} SmallMod32(z: nat)
    requires z < TWO_32
    ensures z % TWO_32 == z
  {
  }

  /** One group below the 32-bit limit, at bit n. */
  lemma {:induction false} TakeGroup(result: Word, b: Byte, k: nat, n: nat)
    requires 1 <= k <= 4 && n == 7 * k && result < Pow2(n)
    ensures Take32(result, n, b) == Some((result + Low7(b) * Pow2(n)) % TWO_32)
    ensures k < 4 ==> Take32(result, n, b) == Some(result + Low7(b) * Pow2(n))
    ensures k < 4 ==> result + Low7(b) * Pow2(n) < Pow2(n + 7)
  {
    Group32(result, Low7(b), k);
    if k < 4 {
      SmallMod32(result + Low7(b) * Pow2(n));
    }
  }

  lemma {:induction false} LastGroup(bs: seq<Byte>, result: Word, k: nat, n: nat, v: nat)
    requires 1 <= k <= 4 && n == 7 * k && result < Pow2(n) && bs != [] && bs[0] < 128
    requires v == result + Low7(bs[0]) * Pow2(n)
    ensures Read32More(bs, result, n) == if v < TWO_32 then Some((v, bs[1..])) else None
  {
    TakeGroup(result, bs[0], k, n);
    Pow2Groups();
    if k < 4 {
      Pow2Grows(n + 7, 28);
    } else if bs[0] < 16 {
      SmallMod32(v);
    }
  }

  lemma {:induction false} MidGroup(bs: seq<Byte>, result: Word, k: nat, n: nat) returns (now: Word)
    requires 1 <= k < 4 && n == 7 * k && result < Pow2(n) && bs != [] && bs[0] >= 128
    ensures now == result + Low7(bs[0]) * Pow2(n) && now < Pow2(n + 7)
    ensures Read32More(bs, result, n) == Read32More(bs[1..], now, n + 7)
  {
    Group32(result, Low7(bs[0]), k);
    TakeGroup(result, bs[0], k, n);
    now := result + Low7(bs[0]) * Pow2(n);
  }

  lemma {:induction false} FifthGroup(bs: seq<Byte>, result: Word, n: nat) returns (low: nat)
    requires n == 28 && result < 0x1000_0000 && bs != [] && bs[0] >= 128
    ensures low == result + Low7(bs[0]) * 0x1000_0000
    ensures Read32More(bs, result, n) == Read32More(bs[1..], low % TWO_32, n + 7)
  {
    Pow2Groups();
    TakeGroup(result, bs[0], 4, n);
    low := result + Low7(bs[0]) * 0x1000_0000;
  }

  lemma {:induction false} NextGroup(result: nat, x: nat, high: nat, n: nat, v: nat)
    requires v == result + (x + 128 * high) * Pow2(n)
    ensures v == result + x * Pow2(n) + high * Pow2(n + 7)
  {
    assert Pow2(n + 7) == 128 * Pow2(n) by {
      Pow2Sum(7, n);
      assert Pow2(7) == 128;
    }
    assert (x + 128 * high) * Pow2(n) == x * Pow2(n) + high * (128 * Pow2(n));
  }

  // ----- Exactly what the 32-bit decoder reads -----

  /** The number the groups make up, however many bytes they are. */
  function Groups(bs: seq<Byte>): (r: Option<(nat, seq<Byte>)>)
    ensures r.Some? ==> |r.value.1| < |bs|
    decreases |bs|
  {
    if bs == [] then None
    else if bs[0] < 128 then Some((bs[0] as int, bs[1..]))
    else
      match Groups(bs[1..])
      case None => None
      case Some((high, rest)) => Some((Low7(bs[0]) + 128 * high, rest))
  }

  /** The 64-bit decoder reads the groups of a number that has at most ten bytes. */
  lemma {:induction false} GroupsAreRead(bs: seq<Byte>, n: nat)
    requires n <= 10
    ensures ReadGroups(bs, n) ==
      if Groups(bs).Some? && n + |bs| - |Groups(bs).value.1| <= 10 then Groups(bs) else None
    decreases |bs|
  {
    if n < 10 && bs != [] && bs[0] >= 128 {
      GroupsAreRead(bs[1..], n + 1);
    }
  }

  /** Byte n of an encoding and those after it pass the sign check: each has no bits, or the number read
      so far has its bit 31 set and the byte is all ones (just a one from the tenth on). */
  predicate TailTaken(bs: seq<Byte>, result: Word, n: nat)
    decreases |bs|
  {
    && bs != []
    && (Low7(bs[0]) == 0 || (result >= 0x8000_0000 && bs[0] == if n < 9 then 0xff else 0x01))
    && (bs[0] >= 128 ==> TailTaken(bs[1..], result, n + 1))
  }

  /** The bit position has eight bits, so this goes on up to the 37th byte. */
  lemma {:induction false} TailIsExact(bs: seq<Byte>, result: Word, n: nat)
    requires 5 <= n && Groups(bs).Some? && n + |bs| - |Groups(bs).value.1| <= 37
    ensures Read32More(bs, result, 7 * n) == if TailTaken(bs, result, n) then Some((result, Groups(bs).value.1)) else None
    decreases |bs|
  {
    if bs[0] >= 128 {
      TailIsExact(bs[1..], result, n + 1);
    }
  }

  lemma {:induction false} ZeroTail(bs: seq<Byte>, result: Word, n: nat)
    requires Groups(bs).Some? && Groups(bs).value.0 == 0
    ensures TailTaken(bs, result, n)
    decreases |bs|
  {
    if bs[0] >= 128 {
      ZeroTail(bs[1..], result, n + 1);
    }
  }

  /** Within ten bytes, what passes the check fits the 64 bits. */
  lemma {:induction false} TailFits(bs: seq<Byte>, result: Word, n: nat)
    requires Groups(bs).Some? && n + |bs| - |Groups(bs).value.1| <= 10 && TailTaken(bs, result, n)
    ensures Groups(bs).value.0 < 2 * Pow128(9 - n)
    decreases |bs|
  {
    if bs[0] >= 128 {
      TailFits(bs[1..], result, n + 1);
    } else {
      Pow128Positive(9 - n);
    }
  }

  lemma {:induction false} Pow128Positive(n: nat)
    ensures n > 0 ==> Pow128(n) >= 128
  {
    if n > 1 {
      Pow128Positive(n - 1);
    }
  }

  /** What is read of bs, of which `used` bytes are left up to the fifth, when the number is v: from the sixth
      byte on the low 32 bits are there, and the rest is checked. */
  ghost predicate Exactly(r: Option<(Word, seq<Byte>)>, bs: seq<Byte>, used: nat, v: nat)
    requires Groups(bs).Some?
  {
    var rest := Groups(bs).value.1;
    if |bs| - |rest| <= used then r == if v < TWO_32 then Some((v, rest)) else None
    else r == Read32More(bs[used..], v % TWO_32, 35)
  }

  lemma {:induction false} FifthIsExact(bs: seq<Byte>, result: Word, n: nat, v: nat)
    requires n == 28 && result < 0x1000_0000 && Groups(bs).Some? && bs[0] >= 128
    requires v == result + Groups(bs).value.0 * 0x1000_0000
    ensures Exactly(Read32More(bs, result, n), bs, 1, v)
  {
    var low := FifthGroup(bs, result, n);
    var high := Groups(bs[1..]).value.0;
    assert v == low + high * 0x8_0000_0000;
    DropWraps32(low, high);
  }

  lemma {:induction false} ExactlyOneMore(r: Option<(Word, seq<Byte>)>, bs: seq<Byte>, used: nat, v: nat)
    requires Groups(bs).Some? && bs[0] >= 128 && Exactly(r, bs[1..], used, v)
    ensures Exactly(r, bs, used + 1, v)
  {
    if |bs| - |Groups(bs).value.1| > used + 1 {
      assert bs[1..][used..] == bs[used + 1..];
    }
  }

  lemma {:induction false} MoreIsExact(bs: seq<Byte>, result: Word, k: nat, n: nat, v: nat)
    requires 1 <= k <= 4 && n == 7 * k && result < Pow2(n) && Groups(bs).Some?
    requires v == result + Groups(bs).value.0 * Pow2(n)
    ensures Exactly(Read32More(bs, result, n), bs, 5 - k, v)
    decreases |bs|
  {
    if bs[0] < 128 {
      LastGroup(bs, result, k, n, v);
    } else if k < 4 {
      var now := MidGroup(bs, result, k, n);
      NextGroup(result, Low7(bs[0]), Groups(bs[1..]).value.0, n, v);
      MoreIsExact(bs[1..], now, k + 1, n + 7, v);
      ExactlyOneMore(Read32More(bs, result, n), bs, 4 - k, v);
    } else {
      Pow2Groups();
      FifthIsExact(bs, result, n, v);
    }
  }

  /** Up to five bytes it reads the number or refuses one of 2^32 and more; after five of a longer encoding
      it has the low 32 bits. */
  lemma {:induction false} FiveBytesRead(bs: seq<Byte>)
    requires Groups(bs).Some?
    ensures Exactly(Read32(bs), bs, 5, Groups(bs).value.0)
  {
    if bs[0] >= 128 {
      assert Pow2(7) == 128;
      MoreIsExact(bs[1..], bs[0] - 128, 1, 7, Groups(bs).value.0);
      if |bs| - |Groups(bs).value.1| > 5 {
        assert bs[5..] == bs[1..][4..];
      }
    }
  }

  /** Exactly what the 32-bit decoder makes of an encoding of up to 37 bytes, padded or not. Up to five
      bytes it reads the number or refuses one of 2^32 and more; of a longer one it reads the low 32 bits
      if the bytes from the sixth on pass the sign check, and otherwise refuses it. */
  lemma {:induction false} Read32IsExact(bs: seq<Byte>)
    requires Groups(bs).Some? && |bs| - |Groups(bs).value.1| <= 37
    ensures var (v, rest) := Groups(bs).value;
      Read32(bs) ==
        if |bs| - |rest| <= 5 then if v < TWO_32 then Some((v, rest)) else None
        else if TailTaken(bs[5..], v % TWO_32, 5) then Some((v % TWO_32, rest))
        else None
  {
    FiveBytesRead(bs);
    if |bs| - |Groups(bs).value.1| > 5 {
      var low := GroupsSplit(bs, 5);
      TailIsExact(bs[5..], Groups(bs).value.0 % TWO_32, 5);
    }
  }

  // ----- More than 37 bytes -----

  /** Bytes n to 36 of a longer encoding pass the sign check. */
  predicate Checked(bs: seq<Byte>, result: Word, n: nat)
    requires n <= 37
    decreases 37 - n
  {
    n == 37 ||
    (bs != [] && bs[0] >= 128
     && (Low7(bs[0]) == 0 || (result >= 0x8000_0000 && bs[0] == if n < 9 then 0xff else 0x01))
     && Checked(bs[1..], result, n + 1))
  }

  lemma {:induction false} OneChecked(bs: seq<Byte>, result: Word, n: nat)
    requires 5 <= n < 37 && bs != [] && bs[0] >= 128
    ensures Read32More(bs, result, 7 * n) ==
      if Low7(bs[0]) == 0 || (result >= 0x8000_0000 && bs[0] == if n < 9 then 0xff else 0x01)
      then Read32More(bs[1..], result, if n == 36 then 3 else 7 * (n + 1)) else None
  {
  }

  lemma {:induction false} CheckedIsExact(bs: seq<Byte>, result: Word, n: nat)
    requires 5 <= n < 37 && Groups(bs).Some? && n + |bs| - |Groups(bs).value.1| > 37
    ensures Read32More(bs, result, 7 * n) ==
      if Checked(bs, result, n) then Read32More(bs[37 - n..], result, 3) else None
    decreases 37 - n
  {
    OneChecked(bs, result, n);
    if n < 36 {
      CheckedIsExact(bs[1..], result, n + 1);
      assert bs[1..][37 - (n + 1)..] == bs[37 - n..];
    } else {
      assert Checked(bs[1..], result, n + 1);
    }
  }

  /** Exactly what it makes of a longer one: the bit position has eight bits, so that after 37 bytes it has
      come round to bit 3. If the bytes from the sixth to the 37th pass the sign check, it goes on from there
      and takes the bits that follow for low ones once more. */
  lemma {:induction false} Read32ComesRound(bs: seq<Byte>)
    requires Groups(bs).Some? && |bs| - |Groups(bs).value.1| > 37
    ensures var v := Groups(bs).value.0;
      Read32(bs) == if Checked(bs[5..], v % TWO_32, 5) then Read32More(bs[37..], v % TWO_32, 3) else None
  {
    FiveBytesRead(bs);
    var low := GroupsSplit(bs, 5);
    CheckedIsExact(bs[5..], Groups(bs).value.0 % TWO_32, 5);
    assert bs[5..][32..] == bs[37..];
  }

  lemma {:induction false} OrNothing(y: nat)
    ensures Or(y, 0) == y
  {
    if y > 0 {
      OrNothing(y / 2);
    }
  }

  lemma {:induction false} ShlZero(n: nat)
    ensures Shl(0, n) == 0
  {
    if n > 0 {
      ShlZero(n - 1);
    }
  }

  lemma {:induction false} ZeroGroups(bs: seq<Byte>, result: Word, bitpos: nat)
    requires bitpos < 0x100 && result < TWO_32 && Groups(bs).Some? && Groups(bs).value.0 == 0
    ensures Read32More(bs, result, bitpos) == Some((result, Groups(bs).value.1))
    decreases |bs|
  {
    ShlZero(bitpos);
    OrNothing(result);
    SmallMod32(result);
    assert Take32(result, bitpos, bs[0]) == Some(result);
    if bs[0] >= 128 {
      ZeroGroups(bs[1..], result, NextBit(bitpos));
    }
  }

  /** Padding never matters: a number below 2^32 is read from an encoding of any length. */
  lemma {:induction false} PaddedIsRead(bs: seq<Byte>)
    requires Groups(bs).Some? && Groups(bs).value.0 < TWO_32
    ensures Read32(bs) == Groups(bs)
  {
    FiveBytesRead(bs);
    SmallMod32(Groups(bs).value.0);
    if |bs| - |Groups(bs).value.1| > 5 {
      var low := GroupsSplit(bs, 5);
      Pow128Ten();
      ZeroGroups(bs[5..], Groups(bs).value.0, 35);
    }
  }

  lemma {:induction false} OneGroupMore(x: nat, low: nat, p: nat, high: nat)
    requires x < 128 && low < p
    ensures x + 128 * low < 128 * p
    ensures x + 128 * (low + p * high) == (x + 128 * low) + 128 * p * high
  {
  }

  /** The first k groups make up the low part of the number. */
  lemma {:induction false} GroupsSplit(bs: seq<Byte>, k: nat) returns (low: nat)
    requires Groups(bs).Some? && k < |bs| - |Groups(bs).value.1|
    ensures Groups(bs[k..]).Some? && Groups(bs[k..]).value.1 == Groups(bs).value.1
    ensures low < Pow128(k) && Groups(bs).value.0 == low + Pow128(k) * Groups(bs[k..]).value.0
  {
    low := 0;
    if k == 0 {
      assert bs[0..] == bs;
    } else {
      var low' := GroupsSplit(bs[1..], k - 1);
      assert bs[1..][k - 1..] == bs[k..];
      OneGroupMore(Low7(bs[0]), low', Pow128(k - 1), Groups(bs[k..]).value.0);
      low := Low7(bs[0]) + 128 * low';
    }
  }

  /** A long encoding that is taken stands for a number that fits the 64 bits; if any of its bytes from the
      sixth on has a bit, a number of at least 2^35. */
  lemma {:induction false} TakenFits(bs: seq<Byte>)
    requires Groups(bs).Some? && 5 < |bs| - |Groups(bs).value.1| <= 10
    requires TailTaken(bs[5..], Groups(bs).value.0 % TWO_32, 5)
    ensures Groups(bs).value.0 < TWO_64
    ensures Groups(bs).value.0 < TWO_32 || Groups(bs).value.0 != Groups(bs).value.0 % TWO_32
  {
    var low := GroupsSplit(bs, 5);
    var v, high := Groups(bs).value.0, Groups(bs[5..]).value.0;
    TailFits(bs[5..], v % TWO_32, 5);
    Pow128Ten();
    assert Pow128(4) == 0x1000_0000;
    assert Pow128(5) * high <= Pow128(5) * (2 * Pow128(4) - 1);
  }

  /** The 32-bit decoder reads what the 64-bit one reads if and only if the number is below 2^32; otherwise
      it refuses it, or reads its low 32 bits. */
  lemma {:induction false} Read32Agrees(bs: seq<Byte>)
    requires ReadGroups(bs, 0).Some?
    ensures var (v, rest) := ReadGroups(bs, 0).value;
      && (Read32(bs) == ReadVarint(bs) <==> v < TWO_32)
      && (Read32(bs).None? || Read32(bs) == Some((v % TWO_32, rest)))
  {
    GroupsAreRead(bs, 0);
    Read32IsExact(bs);
    var (v, rest) := Groups(bs).value;
    if |bs| - |rest| > 5 {
      if v < TWO_32 {
        SmallTail(bs);
      } else if TailTaken(bs[5..], v % TWO_32, 5) {
        TakenFits(bs);
      }
    }
    if v < TWO_64 {
      ModOnce(v);
    }
    if v < TWO_32 {
      SmallMod32(v);
    }
  }

  lemma {:induction false} SmallTail(bs: seq<Byte>)
    requires Groups(bs).Some? && |bs| - |Groups(bs).value.1| > 5 && Groups(bs).value.0 < TWO_32
    ensures TailTaken(bs[5..], Groups(bs).value.0 % TWO_32, 5)
  {
    var low := GroupsSplit(bs, 5);
    Pow128Ten();
    ZeroTail(bs[5..], Groups(bs).value.0 % TWO_32, 5);
  }

  /** A number below 2^32 survives the 32-bit decoder. */
  lemma {:induction false} Varint32RoundTrip(v: nat, rest: seq<Byte>)
    requires v < TWO_32
    ensures Read32(Varint(v) + rest) == Some((v, rest))
  {
    Pow128Ten();
    GroupsRoundTrip(v, 0, rest);
    VarintRoundTrip(v, rest);
    Read32Agrees(Varint(v) + rest);
  }

  /** Five bytes into the encoding of a long number: the low 32 bits are what was read. */
  lemma {:induction false} LowBitsRead(w: nat, result: Word, k: nat, n: nat, v: nat, rest: seq<Byte>)
    requires 1 <= k <= 4 && n == 7 * k && result < Pow2(n) && w >= Pow128(5 - k)
    requires v == result + w * Pow2(n)
    ensures Read32More(Varint(w) + rest, result, n) == Read32More(Varint(w / Pow128(5 - k)) + rest, v % TWO_32, 35)
    decreases 4 - k
  {
    var bs := Varint(w) + rest;
    assert Pow128(5 - k) == 128 * Pow128(4 - k) >= 128;
    assert bs[0] == w % 128 + 128 && bs[1..] == Varint(w / 128) + rest;
    assert Low7(bs[0]) == w % 128 && w == w % 128 + 128 * (w / 128);
    NextGroup(result, w % 128, w / 128, n, v);
    if k < 4 {
      var now := MidGroup(bs, result, k, n);
      DivTwice(w, Pow128(4 - k));
      LowBitsRead(w / 128, now, k + 1, n + 7, v, rest);
    } else {
      Pow2Groups();
      assert Pow128(1) == 128;
      var low := FifthGroup(bs, result, n);
      DropWraps32(low, w / 128);
    }
  }

  lemma {:induction false} DivTwice(w: nat, p: nat)
    requires p > 0
    ensures w / 128 / p == w / (128 * p)
  {
    var q := w / 128 / p;
    var r := w / 128 - q * p;
    assert w == 128 * p * q + (128 * r + w % 128);
    assert 128 * r + w % 128 < 128 * p;
    DivUnique(w, 128 * p, q, 128 * r + w % 128);
  }

  lemma {:induction false} DivUnique(w: nat, d: nat, q: nat, r: nat)
    requires r < d && w == d * q + r
    ensures w / d == q
  {
    var k := w / d - q;
    assert d * k + w % d - r == 0;
  }

  lemma {:induction false} NegativeParts(v: Word)
    requires v >= TWO_64 - 0x8000_0000
    ensures v / 128 / 0x1000_0000 == 0x1fff_ffff
    ensures v % TWO_32 == v - (TWO_64 - TWO_32)
  {
  }

  lemma {:induction false} NegativeRead(v: Word, w: nat, low: nat, result: Word, rest: seq<Byte>)
    requires w >= 0x1000_0000 && low < 128 && v == low + 128 * w && w / 0x1000_0000 == 0x1fff_ffff
    requires v % TWO_32 == result && result >= 0x8000_0000
    ensures Read32(Varint(v) + rest) == Some((result, rest))
  {
    var bs := Varint(v) + rest;
    assert v % 128 == low && v / 128 == w;
    assert bs[0] == low + 128 && bs[1..] == Varint(w) + rest;
    Pow2Groups();
    assert Pow128(4) == 0x1000_0000;
    LowBitsRead(w, low, 1, 7, v, rest);
    SignTail(result, w / Pow128(4), rest);
  }

  /** The ten-byte encoding of a negative 32-bit number is read as its low 32 bits. */
  lemma {:induction false} Read32Negative(v: Word, rest: seq<Byte>)
    requires v >= TWO_64 - 0x8000_0000
    ensures Read32(Varint(v) + rest) == Some((v - (TWO_64 - TWO_32), rest))
  {
    var w, low := v / 128, v % 128;
    assert v == low + 128 * w && low < 128 && w >= 0x1000_0000;
    NegativeParts(v);
    NegativeRead(v, w, low, v - (TWO_64 - TWO_32), rest);
  }

  lemma {:induction false} SignTail(result: Word, high: nat, rest: seq<Byte>)
    requires result >= 0x8000_0000 && high == 0x1fff_ffff
    ensures Read32More(Varint(high) + rest, result, 35) == Some((result, rest))
  {
    assert Pow128(4) == 0x1000_0000;
    SignGroups(high, result, 5, rest);
  }

  lemma {:induction false} AllOnes(high: nat, p: nat)
    requires p > 0 && high + 1 == 256 * p
    ensures high >= 128 && high % 128 == 127 && high / 128 + 1 == 2 * p
  {
  }

  lemma {:induction false} SignGroups(high: nat, result: Word, n: nat, rest: seq<Byte>)
    requires 5 <= n <= 9 && result >= 0x8000_0000 && high + 1 == 2 * Pow128(9 - n)
    ensures Read32More(Varint(high) + rest, result, 7 * n) == Some((result, rest))
    decreases 9 - n
  {
    var bs := Varint(high) + rest;
    if n < 9 {
      AllOnes(high, Pow128(8 - n));
      assert bs[0] == 0xff && bs[1..] == Varint(high / 128) + rest;
      SignGroups(high / 128, result, n + 1, rest);
    } else {
      assert bs[0] == 1 && bs[1..] == rest;
    }
  }

  lemma {:induction false} ShortVarint(v: nat, n: nat)
    requires v < Pow128(n) && n > 0
    ensures |Varint(v)| <= n
  {
    if v >= 128 {
      ShortVarint(v / 128, n - 1);
    }
  }

  /** Past the fifth byte, what is neither zero nor a sign that goes on for all 64 bits is refused. */
  lemma {:induction false} LongTail(high: nat, result: Word, n: nat, rest: seq<Byte>)
    requires 5 <= n <= 9 && 0 < high < Pow128(9 - n)
    ensures Read32More(Varint(high) + rest, result, 7 * n).None?
    decreases 9 - n
  {
    var bs := Varint(high) + rest;
    if high >= 128 {
      assert bs[0] == high % 128 + 128 && bs[1..] == Varint(high / 128) + rest;
      LongTail(high / 128, result, n + 1, rest);
    } else {
      assert bs[0] == high;
    }
  }

  lemma {:induction false} RefuseParts(v: nat, w: nat, low: nat)
    requires 0x8_0000_0000 <= v < 0x8000_0000_0000_0000 && w == v / 128 && low == v % 128
    ensures v == low + 128 * w && Pow128(4) == 0x1000_0000 && w >= Pow128(4)
    ensures 0 < w / Pow128(4) < Pow128(4)
  {
    assert Pow128(2) == 0x4000 && Pow128(4) == 128 * (128 * Pow128(2));
  }

  lemma {:induction false} FiveBytesRefused(v: nat, rest: seq<Byte>)
    requires TWO_32 <= v < 0x8_0000_0000
    ensures Read32(Varint(v) + rest).None?
  {
    Pow128Ten();
    ShortVarint(v, 5);
    assert Pow128(10) >= Pow128(5);
    GroupsRoundTrip(v, 0, rest);
    GroupsAreRead(Varint(v) + rest, 0);
    Read32IsExact(Varint(v) + rest);
  }

  lemma {:induction false} MoreBytesRefused(v: nat, w: nat, low: nat, rest: seq<Byte>)
    requires v == low + 128 * w && low < 128 && w >= Pow128(4) && 0 < w / Pow128(4) < Pow128(4)
    ensures Read32(Varint(v) + rest).None?
  {
    var bs := Varint(v) + rest;
    assert v % 128 == low && v / 128 == w;
    assert bs[0] == low + 128 && bs[1..] == Varint(w) + rest;
    assert Pow2(7) == 128;
    LowBitsRead(w, low, 1, 7, v, rest);
    LongTail(w / Pow128(4), v % TWO_32, 5, rest);
  }

  /** No encoding of a number from 2^32 up to 2^63 is taken for a smaller one. */
  lemma {:induction false} Read32RefusesLong(v: nat, rest: seq<Byte>)
    requires TWO_32 <= v < 0x8000_0000_0000_0000
    ensures Read32(Varint(v) + rest).None?
  {
    if v < 0x8_0000_0000 {
      FiveBytesRefused(v, rest);
    } else {
      RefuseParts(v, v / 128, v % 128);
      MoreBytesRefused(v, v / 128, v % 128, rest);
    }
  }

  /** A group of zero bits that is not the last. */
  const PAD: Byte := 0x80

  lemma {:induction false} PadGroups(t: seq<Byte>, high: nat)
    requires Groups(t) == Some((high, []))
    ensures Groups([PAD] + t) == Some((128 * high, []))
  {
    assert ([PAD] + t)[1..] == t;
  }

  lemma {:induction false} WholeWraps(q: nat)
    ensures q * TWO_32 % TWO_32 == 0
  {
    if q > 0 {
      WholeWraps(q - 1);
    }
  }

  /** An encoding that is misread: six bytes of a number above 2^32, taken for zero. The bits of the fifth
      byte that do not fit are only checked when it is the last. */
  lemma {:induction false} SixBytesLoseBits(tail: seq<Byte>, bs: seq<Byte>)
    requires tail == [0xf0, 0] && bs == [PAD] + ([PAD] + ([PAD] + ([PAD] + tail)))
    ensures ReadVarint(bs) == Some((0x7_0000_0000, []))
    ensures Read32(bs) == Some((0, []))
  {
    assert tail[1..] == [0] && Groups(tail[1..]) == Some((0, []));
    PadGroups(tail, 112);
    PadGroups([PAD] + tail, 112 * 128);
    PadGroups([PAD] + ([PAD] + tail), 112 * 128 * 128);
    PadGroups([PAD] + ([PAD] + ([PAD] + tail)), 112 * 128 * 128 * 128);
    GroupsAreRead(bs, 0);
    assert bs[5..] == [0];
    WholeWraps(7);
    Read32IsExact(bs);
  }

  function Pads(n: nat, tail: seq<Byte>): (bs: seq<Byte>)
    ensures |bs| == n + |tail|
  {
    if n == 0 then tail else [PAD] + Pads(n - 1, tail)
  }

  lemma {:induction false} PadsAre(n: nat, tail: seq<Byte>, k: nat)
    requires k <= n
    ensures Pads(n, tail)[k..] == Pads(n - k, tail)
  {
    if k > 0 {
      PadsAre(n - 1, tail, k - 1);
      assert Pads(n, tail)[k..] == Pads(n - 1, tail)[k - 1..];
    }
  }

  lemma {:induction false} PadsGroups(n: nat, b: Byte)
    requires b < 128
    ensures Groups(Pads(n, [b])) == Some((Pow128(n) * b, []))
  {
    if n > 0 {
      PadsGroups(n - 1, b);
      PadGroups(Pads(n - 1, [b]), Pow128(n - 1) * b);
    }
  }

  lemma {:induction false} PadsChecked(m: nat, tail: seq<Byte>, result: Word, n: nat)
    requires n <= 37 && m + n >= 37
    ensures Checked(Pads(m, tail), result, n)
    decreases 37 - n
  {
    if n < 37 {
      PadsChecked(m - 1, tail, result, n + 1);
      assert Pads(m, tail)[1..] == Pads(m - 1, tail);
    }
  }

  lemma {:induction false} PadsRead(m: nat, n: nat, b: Byte, v: nat)
    requires m == 32 && n == m + 5 && b < 128 && Groups(Pads(n, [b])) == Some((v, [])) && v % TWO_32 == 0
    ensures Read32(Pads(n, [b])) == Read32More([b], 0, 3)
  {
    PadsAre(n, [b], 5);
    PadsAre(n, [b], n);
    PadsChecked(m, [b], 0, 5);
    Read32ComesRound(Pads(n, [b]));
  }

  /** A number far beyond 64 bits, taken for a small one: what the 38th byte holds is read at bit 3. */
  lemma {:induction false} LateBitsAreLow(m: nat, n: nat, b: Byte)
    requires m == 32 && n == m + 5 && b < 128
    ensures Groups(Pads(n, [b])) == Some((Pow128(n) * b, [])) && ReadVarint(Pads(n, [b])).None?
    ensures Read32(Pads(n, [b])) == Some((8 * b, []))
  {
    PadsGroups(n, b);
    GroupsAreRead(Pads(n, [b]), 0);
    LowIsZero(n, b);
    PadsRead(m, n, b, Pow128(n) * b);
    TakeAtThree(b);
  }

  lemma {:induction false} LowIsZero(n: nat, b: nat)
    requires n >= 5
    ensures Pow128(n) * b % TWO_32 == 0
  {
    if n == 5 {
      Pow128Ten();
      WholeWraps(8 * b);
    } else {
      LowIsZero(n - 1, 128 * b);
    }
  }

  lemma {:induction false} TakeAtThree(b: Byte)
    requires b < 128
    ensures Take32(0, 3, b) == Some(8 * b)
  {
    assert Pow2(3) == 8;
    ShlTimes(b, 3);
    OrZero(8 * b);
    SmallMod32(8 * b);
  }

  // ----- Zigzag -----

  predicate IsInt64(v: int) {
    -0x8000_0000_0000_0000 <= v < 0x8000_0000_0000_0000
  }

  /** A signed number as the 64-bit word that holds it. */
  function Unsigned(v: int): Word
    requires IsInt64(v)
  {
    if v < 0 then v + TWO_64 else v
  }

  function Signed(w: Word): (v: int)
    ensures IsInt64(v) && Unsigned(v) == w
  {
    if w < 0x8000_0000_0000_0000 then w else w - TWO_64
  }

  /** Small numbers of either sign become small words. ~w is TWO_64 - 1 - w. */
  function ZigZag(v: int): Word
    requires IsInt64(v)
  {
    if v < 0 then TWO_64 - 1 - Unsigned(v) * 2 % TWO_64 else Unsigned(v) * 2 % TWO_64
  }

  function UnZigZag(w: Word): int {
    if w % 2 == 1 then Signed(TWO_64 - 1 - w / 2) else Signed(w / 2)
  }

  lemma {:induction false} ZigZagRoundTrip(v: int, w: Word)
    requires IsInt64(v)
    ensures UnZigZag(ZigZag(v)) == v
    ensures IsInt64(UnZigZag(w)) && ZigZag(UnZigZag(w)) == w
    ensures ZigZag(v) == if v < 0 then -2 * v - 1 else 2 * v
  {
  }

  // ----- Little-endian words -----

  function LittleEndian(bs: seq<Byte>): nat {
    if bs == [] then 0 else bs[0] + 0x100 * LittleEndian(bs[1..])
  }

  function LittleBytes(v: nat, n: nat): (bs: seq<Byte>)
    ensures |bs| == n
  {
    if n == 0 then [] else [v % 0x100] + LittleBytes(v / 0x100, n - 1)
  }

  lemma {:induction false} LittleRoundTrip(v: nat, n: nat)
    requires v < Pow256(n)
    ensures LittleEndian(LittleBytes(v, n)) == v
  {
    if n > 0 {
      LittleRoundTrip(v / 0x100, n - 1);
      assert LittleBytes(v, n)[1..] == LittleBytes(v / 0x100, n - 1);
    }
  }
}
