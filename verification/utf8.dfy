/**
 * `String::from_utf8` (Rust's standard library), written out by hand:
 * well-formed UTF-8 is the byte grammar of section 4 of RFC 3629 (no
 * overlong forms, no surrogates, nothing above U+10FFFF). A Rust `String`
 * is modelled as its well-formed byte content.
 */
module Utf8 {
  import opened Endian
  import opened Results

  predicate IsContinuation(b: uint8) {
    0x80 <= b <= 0xBF
  }

  /** The allowed range of the second byte, which depends on the first. */
  predicate SecondByteOk(lead: uint8, b: uint8) {
    if lead == 0xE0 then 0xA0 <= b <= 0xBF
    else if lead == 0xED then 0x80 <= b <= 0x9F
    else if lead == 0xF0 then 0x90 <= b <= 0xBF
    else if lead == 0xF4 then 0x80 <= b <= 0x8F
    else IsContinuation(b)
  }

  /**
   * Length of the well-formed character at the head of `bs`, or 0 when
   * `bs` is empty or does not start with one.
   */
  function CharWidth(bs: seq<uint8>): (w: nat)
    ensures w <= 4 && w <= |bs|
    ensures w > 0 ==> |bs| > 0
    ensures w == 1 <==> |bs| > 0 && bs[0] < 0x80
  {
    if |bs| == 0 then 0
    else if bs[0] < 0x80 then 1
    else if 0xC2 <= bs[0] <= 0xDF then
      if |bs| >= 2 && IsContinuation(bs[1]) then 2 else 0
    else if 0xE0 <= bs[0] <= 0xEF then
      if |bs| >= 3 && SecondByteOk(bs[0], bs[1]) && IsContinuation(bs[2]) then 3 else 0
    else if 0xF0 <= bs[0] <= 0xF4 then
      if |bs| >= 4 && SecondByteOk(bs[0], bs[1]) && IsContinuation(bs[2]) && IsContinuation(bs[3]) then 4 else 0
    else 0
  }

  /** `bs` is a sequence of well-formed characters. */
  predicate ValidUtf8(bs: seq<uint8>)
    decreases |bs|
  {
    |bs| == 0 || (CharWidth(bs) > 0 && ValidUtf8(bs[CharWidth(bs)..]))
  }

  /** The bytes of a Rust `String`. */
  type Str = s: seq<uint8> | ValidUtf8(s)

  /**
   * `Utf8Error::valid_up_to`: the length of the longest prefix made of
   * whole well-formed characters.
   */
  function ValidUpTo(bs: seq<uint8>): (n: nat)
    ensures n <= |bs|
    ensures ValidUtf8(bs[..n])
    ensures n == |bs| <==> ValidUtf8(bs)
    ensures n < |bs| ==> CharWidth(bs[n..]) == 0
    decreases |bs|
  {
    if |bs| == 0 || CharWidth(bs) == 0 then 0
    else
      var w := CharWidth(bs);
      var n := w + ValidUpTo(bs[w..]);
      assert bs[..n][..w] == bs[..w];
      assert CharWidth(bs[..n]) == w by { CharWidthOfPrefix(bs, n); }
      assert bs[..n][w..] == bs[w..][..n - w];
      n
  }

  /** The head character does not look past its own bytes. */
  lemma CharWidthOfPrefix(bs: seq<uint8>, n: nat)
    requires CharWidth(bs) <= n <= |bs|
    requires CharWidth(bs) > 0
    ensures CharWidth(bs[..n]) == CharWidth(bs)
  {
  }

  /** `FromUtf8Error`: the rejected bytes and where the first bad character starts. */
  datatype FromUtf8Error = FromUtf8Error(bytes: seq<uint8>, validUpTo: nat)

  /** `String::from_utf8`. */
  function FromUtf8(bs: seq<uint8>): (r: Result<Str, FromUtf8Error>)
    ensures r.Ok? <==> ValidUtf8(bs)
    ensures r.Ok? ==> r.value == bs
    ensures r.Err? ==> && r.error.bytes == bs
                       && r.error.validUpTo < |bs|
                       && ValidUtf8(bs[..r.error.validUpTo])
                       && CharWidth(bs[r.error.validUpTo..]) == 0
  {
    var upTo := ValidUpTo(bs);
    if upTo == |bs| then Ok(bs) else Err(FromUtf8Error(bs, upTo))
  }

  /** Every ASCII byte string is well-formed. */
  lemma {:induction false} AsciiIsValid(bs: seq<uint8>)
    requires forall i :: 0 <= i < |bs| ==> bs[i] < 0x80
    ensures ValidUtf8(bs)
  {
    if |bs| > 0 {
      assert CharWidth(bs) == 1;
      AsciiIsValid(bs[1..]);
    }
  }
}
