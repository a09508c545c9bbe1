/** Bytes and the big-endian integers of the TLS presentation language. */
module Bytes {
  type Byte = b: int | 0 <= b < 0x100
  type Uint16 = n: int | 0 <= n < 0x1_0000
  type Uint24 = n: int | 0 <= n < 0x100_0000

  function U16Bytes(n: Uint16): (bs: seq<Byte>)
    ensures |bs| == 2
  {
    [n / 0x100, n % 0x100]
  }

  function U16(bs: seq<Byte>): Uint16
    requires |bs| == 2
  {
    var hi: int, lo: int := bs[0], bs[1];
    0x100 * hi + lo
  }

  function U24Bytes(n: Uint24): (bs: seq<Byte>)
    ensures |bs| == 3
  {
    U16Bytes(n / 0x100) + [n % 0x100]
  }

  function U24(bs: seq<Byte>): Uint24
    requires |bs| == 3
  {
    0x100 * U16(bs[..2]) + bs[2]
  }

  lemma U16RoundTrip(n: Uint16, bs: seq<Byte>)
    requires |bs| == 2
    ensures U16(U16Bytes(n)) == n
    ensures U16Bytes(U16(bs)) == bs
  {
    assert U16Bytes(U16(bs)) == [bs[0], bs[1]];
  }

  lemma U24RoundTrip(n: Uint24, bs: seq<Byte>)
    requires |bs| == 3
    ensures U24(U24Bytes(n)) == n
    ensures U24Bytes(U24(bs)) == bs
  {
    U16RoundTrip(n / 0x100, bs[..2]);
    assert U24Bytes(n)[..2] == U16Bytes(n / 0x100);
    assert U24Bytes(U24(bs)) == bs[..2] + [bs[2]];
  }

  function Pow256(n: nat): (p: nat)
    ensures p > 0
  {
    if n == 0 then 1 else 0x100 * Pow256(n - 1)
  }

  /** The value of a big-endian byte string of any length. */
  function BigEndian(bs: seq<Byte>): (n: nat)
    ensures n < Pow256(|bs|)
  {
    if bs == [] then 0 else 0x100 * BigEndian(bs[..|bs| - 1]) + bs[|bs| - 1]
  }

  lemma Regroup(x: nat, p: nat)
    ensures 0x100 * (x * p) == x * (0x100 * p)
  {
  }

  lemma {:induction false} BigEndianConcat(a: seq<Byte>, b: seq<Byte>)
    ensures BigEndian(a + b) == BigEndian(a) * Pow256(|b|) + BigEndian(b)
  {
    if b == [] {
      assert a + b == a;
    } else {
      var n := |b| - 1;
      assert (a + b)[..|a + b| - 1] == a + b[..n];
      var x, y, z: int, p := BigEndian(a), BigEndian(b[..n]), b[n], Pow256(n);
      assert BigEndian(a + b[..n]) == x * p + y by {
        BigEndianConcat(a, b[..n]);
      }
      assert BigEndian(a + b) == 0x100 * (x * p + y) + z;
      assert BigEndian(b) == 0x100 * y + z;
      Regroup(x, p);
    }
  }
}
