/**
 * `u8::from_str` (Rust's standard library, radix 10) over the bytes of a
 * string: one optional leading '+', then decimal digits, checked for
 * overflow digit by digit. A bad digit is reported before the overflow it
 * would have caused.
 */
module DecimalU8 {
  import opened Endian
  import opened Results

  const PLUS: uint8 := 0x2B
  const MINUS: uint8 := 0x2D
  const ZERO: uint8 := 0x30

  /** `IntErrorKind` as far as an unsigned parse can produce it. */
  datatype IntErrorKind = Empty | InvalidDigit | PosOverflow
  datatype ParseIntError = ParseIntError(kind: IntErrorKind)

  predicate IsDigit(b: uint8) {
    ZERO <= b <= ZERO + 9
  }

  predicate AllDigits(ds: seq<uint8>) {
    forall i :: 0 <= i < |ds| ==> IsDigit(ds[i])
  }

  /** The number a string of decimal digits denotes, most significant first. */
  function DecimalValue(ds: seq<uint8>): nat
    requires AllDigits(ds)
  {
    if |ds| == 0 then 0 else 10 * DecimalValue(ds[..|ds| - 1]) + (ds[|ds| - 1] - ZERO)
  }

  /** The digits after the optional sign that the parser reads. */
  function Digits(s: seq<uint8>): seq<uint8> {
    if |s| > 0 && s[0] == PLUS then s[1..] else s
  }

  /** The digit loop: folds the digits into `acc`, failing as soon as one step fails. */
  function Accumulate(ds: seq<uint8>, acc: uint8): (r: Result<uint8, ParseIntError>)
    ensures r != Err(ParseIntError(Empty))
    ensures r.Ok? ==> AllDigits(ds) && r.value >= acc
    ensures |ds| > 0 && !IsDigit(ds[0]) ==> r == Err(ParseIntError(InvalidDigit))
  {
    if |ds| == 0 then Ok(acc)
    else if !IsDigit(ds[0]) then Err(ParseIntError(InvalidDigit))
    else
      var next := 10 * acc + (ds[0] - ZERO);
      if next > 0xFF then Err(ParseIntError(PosOverflow)) else Accumulate(ds[1..], next)
  }

  /** `u8::from_str`. */
  function ParseU8(s: seq<uint8>): (r: Result<uint8, ParseIntError>)
    ensures |s| == 0 <==> r == Err(ParseIntError(Empty))
    ensures r.Ok? <==> |Digits(s)| > 0 && AllDigits(Digits(s)) && DecimalValue(Digits(s)) <= 0xFF
    ensures r.Ok? ==> r.value == DecimalValue(Digits(s))
    ensures |Digits(s)| > 0 && AllDigits(Digits(s)) && DecimalValue(Digits(s)) > 0xFF ==> r == Err(ParseIntError(PosOverflow))
    ensures r == Err(ParseIntError(InvalidDigit)) ==> |Digits(s)| == 0 || !AllDigits(Digits(s))
    ensures |s| > 0 && (|Digits(s)| == 0 || !IsDigit(Digits(s)[0])) ==> r == Err(ParseIntError(InvalidDigit))
  {
    if |s| == 0 then Err(ParseIntError(Empty))
    else if (s[0] == PLUS || s[0] == MINUS) && |s| == 1 then Err(ParseIntError(InvalidDigit))
    else
      AccumulateCorrect(Digits(s), 0);
      Accumulate(Digits(s), 0)
  }

  /** Horner's rule on `acc` followed by the digits `ds`. */
  function Fold(acc: nat, ds: seq<uint8>): nat
    requires AllDigits(ds)
    decreases |ds|
  {
    if |ds| == 0 then acc else Fold(10 * acc + (ds[0] - ZERO), ds[1..])
  }

  lemma {:induction false} FoldGrows(acc: nat, ds: seq<uint8>)
    requires AllDigits(ds)
    ensures Fold(acc, ds) >= acc
    decreases |ds|
  {
    if |ds| > 0 {
      FoldGrows(10 * acc + (ds[0] - ZERO), ds[1..]);
    }
  }

  /** Folding from zero computes the decimal value. */
  lemma {:induction false} FoldIsDecimalValue(ds: seq<uint8>)
    requires AllDigits(ds)
    ensures Fold(0, ds) == DecimalValue(ds)
  {
    FoldSnoc(0, ds);
  }

  /** `Fold(acc, ds) == acc * 10^|ds| + DecimalValue(ds)`, by peeling the last digit. */
  lemma {:induction false} FoldSnoc(acc: nat, ds: seq<uint8>)
    requires AllDigits(ds)
    ensures Fold(acc, ds) == acc * Pow10(|ds|) + DecimalValue(ds)
    decreases |ds|
  {
    if |ds| > 0 {
      var init := ds[..|ds| - 1];
      var d := ds[|ds| - 1] - ZERO;
      FoldLast(acc, init, ds[|ds| - 1]);
      assert init + [ds[|ds| - 1]] == ds;
      FoldSnoc(acc, init);
      assert Fold(acc, ds) == 10 * Fold(acc, init) + d;
      assert 10 * (acc * Pow10(|init|)) == acc * Pow10(|ds|);
    }
  }

  lemma {:induction false} FoldLast(acc: nat, ds: seq<uint8>, last: uint8)
    requires AllDigits(ds) && IsDigit(last)
    ensures AllDigits(ds + [last])
    ensures Fold(acc, ds + [last]) == 10 * Fold(acc, ds) + (last - ZERO)
    decreases |ds|
  {
    if |ds| > 0 {
      assert (ds + [last])[1..] == ds[1..] + [last];
      FoldLast(10 * acc + (ds[0] - ZERO), ds[1..], last);
    }
  }

  function Pow10(k: nat): (r: nat)
    ensures r >= 1
  {
    if k == 0 then 1 else 10 * Pow10(k - 1)
  }

  /** The digit loop succeeds exactly when all digits are digits and the fold fits a `u8`. */
  lemma {:induction false} AccumulateCorrect(ds: seq<uint8>, acc: uint8)
    ensures Accumulate(ds, acc).Ok? <==> AllDigits(ds) && Fold(acc, ds) <= 0xFF
    ensures Accumulate(ds, acc).Ok? ==> Accumulate(ds, acc).value == Fold(acc, ds)
    ensures AllDigits(ds) && Fold(acc, ds) > 0xFF ==> Accumulate(ds, acc) == Err(ParseIntError(PosOverflow))
    ensures Accumulate(ds, acc) == Err(ParseIntError(InvalidDigit)) ==> !AllDigits(ds)
    ensures Accumulate(ds, acc) != Err(ParseIntError(Empty))
    ensures acc == 0 && AllDigits(ds) ==> Fold(acc, ds) == DecimalValue(ds)
    decreases |ds|
  {
    if acc == 0 && AllDigits(ds) {
      FoldIsDecimalValue(ds);
    }
    if |ds| > 0 {
      if IsDigit(ds[0]) {
        var next := 10 * acc + (ds[0] - ZERO);
        if next <= 0xFF {
          AccumulateCorrect(ds[1..], next);
          assert AllDigits(ds) <==> AllDigits(ds[1..]) by {
            assert forall i :: 0 < i < |ds| ==> ds[i] == ds[1..][i - 1];
          }
        } else if AllDigits(ds) {
          FoldGrows(next, ds[1..]);
        }
      } else {
        assert !AllDigits(ds);
      }
    }
  }

  /** `u8::to_string`: shortest decimal form, no sign. */
  function DecimalDigits(n: uint8): (r: seq<uint8>)
    ensures |r| >= 1
    ensures AllDigits(r)
    ensures r[0] != PLUS && r[0] != MINUS
  {
    if n < 10 then [ZERO + n] else DecimalDigits(n / 10) + [ZERO + n % 10]
  }

  /** Parsing the decimal form of a `u8` gives the number back. */
  lemma {:induction false} ParseDecimalDigits(n: uint8)
    ensures ParseU8(DecimalDigits(n)) == Ok(n)
  {
    DecimalDigitsValue(n);
  }

  lemma {:induction false} DecimalDigitsValue(n: uint8)
    ensures DecimalValue(DecimalDigits(n)) == n
  {
    if n >= 10 {
      DecimalDigitsValue(n / 10);
      var ds := DecimalDigits(n);
      assert ds[..|ds| - 1] == DecimalDigits(n / 10);
    }
  }
}
