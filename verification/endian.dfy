/**
 * Fixed-width unsigned integers and their byte encodings: the
 * `to_le_bytes` / `from_le_bytes` / `to_be_bytes` / `from_be_bytes`
 * family the header and the example schema rely on.
 */
module Endian {

  type uint8 = x: int | 0 <= x < 0x100
  type uint16 = x: int | 0 <= x < 0x1_0000
  type uint32 = x: int | 0 <= x < 0x1_0000_0000

  /** `size_of` of the three integer widths. */
  const U8_BYTES: nat := 1
  const U16_BYTES: nat := 2
  const U32_BYTES: nat := 4

  /** 256^k: one more than the largest value `k` bytes hold. */
  function Pow256(k: nat): (r: nat)
    ensures r >= 1
  {
    if k == 0 then 1 else 256 * Pow256(k - 1)
  }

  lemma Pow256Widths()
    ensures Pow256(U8_BYTES) == 0x100
    ensures Pow256(U16_BYTES) == 0x1_0000
    ensures Pow256(U32_BYTES) == 0x1_0000_0000
  {
    assert Pow256(1) == 0x100;
    assert Pow256(2) == 0x1_0000;
    assert Pow256(3) == 0x100_0000;
  }

  /** Multiplication by a natural is monotone. */
  lemma MulLe(d: nat, x: nat, y: nat)
    requires x <= y
    ensures d * x <= d * y
  {
    var k: nat := y - x;
    assert d * y == d * x + d * k;
  }

  /** Two quotient/remainder splits by the same divisor order their quotients. */
  lemma QuotientLe(d: nat, q1: nat, r1: nat, q2: nat, r2: nat)
    requires d > 0 && r1 < d && r2 < d && d * q1 + r1 == d * q2 + r2
    ensures q1 <= q2
  {
    if q1 > q2 {
      assert d * (q2 + 1) == d * q2 + d;
      MulLe(d, q2 + 1, q1);
    }
  }

  /** Euclidean division is determined by quotient and remainder. */
  lemma DivUnique(n: nat, d: nat, q: nat, r: nat)
    requires d > 0 && n == d * q + r && r < d
    ensures n / d == q
  {
    QuotientLe(d, n / d, n % d, q, r);
    QuotientLe(d, q, r, n / d, n % d);
  }

  /** Dividing twice is dividing by the product. */
  lemma DivDiv(n: nat, a: nat, b: nat)
    requires a > 0 && b > 0
    ensures n / a / b == n / (a * b)
  {
    var q, r := n / a, n % a;
    var q2, r2 := q / b, q % b;
    var m := a * b;
    assert n == a * q + r;
    assert q == b * q2 + r2;
    assert a * q == m * q2 + a * r2 by {
      assert a * (b * q2 + r2) == a * (b * q2) + a * r2;
      assert a * (b * q2) == (a * b) * q2;
    }
    assert a * r2 + r < m by {
      MulLe(a, r2, b - 1);
      assert a * (b - 1) == m - a;
    }
    assert m > 0;
    DivUnique(n, m, q2, a * r2 + r);
  }

  /** `width` zero bytes: the `[0x00_u8; N]` buffers of the source. */
  function Zeros(width: nat): (r: seq<uint8>)
    ensures |r| == width
    ensures forall i :: 0 <= i < width ==> r[i] == 0
  {
    seq(width, _ => 0)
  }

  // ---------------------------------------------------------------- little-endian

  /** The low `width` bytes of `n`, least significant first. */
  function LeBytes(n: nat, width: nat): (r: seq<uint8>)
    ensures |r| == width
  {
    if width == 0 then [] else [n % 256] + LeBytes(n / 256, width - 1)
  }

  /** Byte `i` of the little-endian encoding is digit `i` of `n` in base 256. */
  lemma {:induction false} LeBytesDigits(n: nat, width: nat)
    ensures forall i :: 0 <= i < width ==> LeBytes(n, width)[i] == (n / Pow256(i)) % 256
  {
    if width > 0 {
      LeBytesDigits(n / 256, width - 1);
      forall i | 1 <= i < width
        ensures LeBytes(n, width)[i] == (n / Pow256(i)) % 256
      {
        DivDiv(n, 256, Pow256(i - 1));
      }
    }
  }

  /** The number whose little-endian encoding is `bs`. */
  function LeValue(bs: seq<uint8>): (r: nat)
    ensures r < Pow256(|bs|)
  {
    if |bs| == 0 then 0 else bs[0] + 256 * LeValue(bs[1..])
  }

  /** Decoding an encoding gives the number back when it fits the width. */
  lemma {:induction false} LeValueOfLeBytes(n: nat, width: nat)
    requires n < Pow256(width)
    ensures LeValue(LeBytes(n, width)) == n
  {
    if width > 0 {
      LeValueOfLeBytes(n / 256, width - 1);
      assert LeBytes(n, width)[1..] == LeBytes(n / 256, width - 1);
    }
  }

  /** Encoding a decoded byte string gives the same bytes back. */
  lemma {:induction false} LeBytesOfLeValue(bs: seq<uint8>)
    ensures LeBytes(LeValue(bs), |bs|) == bs
  {
    if |bs| > 0 {
      var v := LeValue(bs[1..]);
      assert LeValue(bs) == bs[0] + 256 * v;
      assert LeValue(bs) % 256 == bs[0];
      assert LeValue(bs) / 256 == v;
      LeBytesOfLeValue(bs[1..]);
      assert LeBytes(LeValue(bs), |bs|) == [bs[0]] + bs[1..];
    }
  }

  // ---------------------------------------------------------------- big-endian

  /** The low `width` bytes of `n`, most significant first. */
  function BeBytes(n: nat, width: nat): (r: seq<uint8>)
    ensures |r| == width
  {
    if width == 0 then [] else BeBytes(n / 256, width - 1) + [n % 256]
  }

  /** Byte `i` of the big-endian encoding is digit `width - 1 - i` of `n` in base 256. */
  lemma {:induction false} BeBytesDigits(n: nat, width: nat)
    ensures forall i :: 0 <= i < width ==> BeBytes(n, width)[i] == (n / Pow256(width - 1 - i)) % 256
  {
    if width > 0 {
      BeBytesDigits(n / 256, width - 1);
      forall i | 0 <= i < width - 1
        ensures BeBytes(n, width)[i] == (n / Pow256(width - 1 - i)) % 256
      {
        DivDiv(n, 256, Pow256(width - 2 - i));
      }
    }
  }

  /** The number whose big-endian encoding is `bs`. */
  function BeValue(bs: seq<uint8>): (r: nat)
    ensures r < Pow256(|bs|)
  {
    if |bs| == 0 then 0 else 256 * BeValue(bs[..|bs| - 1]) + bs[|bs| - 1]
  }

  lemma {:induction false} BeValueOfBeBytes(n: nat, width: nat)
    requires n < Pow256(width)
    ensures BeValue(BeBytes(n, width)) == n
  {
    if width > 0 {
      BeValueOfBeBytes(n / 256, width - 1);
      var bs := BeBytes(n, width);
      assert bs[..|bs| - 1] == BeBytes(n / 256, width - 1);
    }
  }

  lemma {:induction false} BeBytesOfBeValue(bs: seq<uint8>)
    ensures BeBytes(BeValue(bs), |bs|) == bs
  {
    if |bs| > 0 {
      var init := bs[..|bs| - 1];
      var v := BeValue(init);
      assert BeValue(bs) == 256 * v + bs[|bs| - 1];
      assert BeValue(bs) % 256 == bs[|bs| - 1];
      assert BeValue(bs) / 256 == v;
      BeBytesOfBeValue(init);
      assert bs == init + [bs[|bs| - 1]];
    }
  }
}
