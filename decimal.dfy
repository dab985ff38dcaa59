/**
 * Unsigned integers as Rust's standard library reads and writes them:
 * `str::parse::<u16>()` and friends (radix 10), and the `Display`
 * formatting used by `format!("{}")`.
 */
module Decimal {
  import opened Wrappers

  type u8 = n: nat | n < 0x100
  type u16 = n: nat | n < 0x1_0000
  type u32 = n: nat | n < 0x1_0000_0000
  /** `usize` on a 64-bit target. */
  type usize = n: nat | n < 0x1_0000_0000_0000_0000

  const U16_MAX: nat := 0xFFFF
  const U32_MAX: nat := 0xFFFF_FFFF
  const USIZE_MAX: nat := 0xFFFF_FFFF_FFFF_FFFF

  predicate IsDigit(c: char) {
    '0' <= c <= '9'
  }

  predicate AllDigits(s: string) {
    forall i :: 0 <= i < |s| ==> IsDigit(s[i])
  }

  function DigitValue(c: char): (d: nat)
    requires IsDigit(c)
    ensures d < 10
  {
    (c as int) - ('0' as int)
  }

  function DigitChar(d: nat): (c: char)
    requires d < 10
    ensures IsDigit(c) && DigitValue(c) == d
  {
    ((('0' as int) + d) as char)
  }

  /** The text `format!("{}", n)` gives: decimal digits, no sign, no leading zero. */
  function DecimalString(n: nat): (s: string)
    ensures |s| > 0 && AllDigits(s)
    ensures s[0] == '0' ==> s == "0" && n == 0
    decreases n
  {
    if n < 10 then [DigitChar(n)] else DecimalString(n / 10) + [DigitChar(n % 10)]
  }

  /** The number that the digits `ds` denote when they follow the digits of `acc`. */
  function Accumulate(ds: string, acc: nat): nat
    requires AllDigits(ds)
    decreases |ds|
  {
    if ds == [] then acc else Accumulate(ds[1..], acc * 10 + DigitValue(ds[0]))
  }

  /** Why Rust's integer parsing failed (`core::num::IntErrorKind`). */
  datatype IntErrorKind = Empty | InvalidDigit | PosOverflow

  /**
   * The digit loop of `from_str_radix` for radix 10: the digits are read
   * left to right; a character that is not a digit stops it with
   * InvalidDigit, and a running value above `max` stops it with PosOverflow.
   */
  function ParseDigits(ds: string, acc: nat, max: nat): (r: Result<nat, IntErrorKind>)
    requires acc <= max
    ensures r.Ok? ==> acc <= r.value <= max
    ensures r != Err(Empty)
    decreases |ds|
  {
    if ds == [] then Ok(acc)
    else if !IsDigit(ds[0]) then Err(InvalidDigit)
    else
      var next := acc * 10 + DigitValue(ds[0]);
      if next > max then Err(PosOverflow) else ParseDigits(ds[1..], next, max)
  }

  /** The digits an unsigned parse reads: one leading '+' is dropped, a '-' is kept (and rejected). */
  function UnsignedDigits(s: string): (ds: string)
    ensures |ds| <= |s|
  {
    if |s| > 0 && s[0] == '+' then s[1..] else s
  }

  /** `s.parse::<uN>()` for the unsigned type whose largest value is `max`. */
  function ParseUnsigned(s: string, max: nat): (r: Result<nat, IntErrorKind>)
    ensures r.Ok? ==> r.value <= max
    ensures r == Err(Empty) <==> s == []
  {
    if s == [] then Err(Empty)
    else if |s| == 1 && (s[0] == '+' || s[0] == '-') then Err(InvalidDigit)
    else ParseDigits(UnsignedDigits(s), 0, max)
  }

  lemma {:induction false} AccumulateAtLeast(ds: string, acc: nat)
    requires AllDigits(ds)
    ensures Accumulate(ds, acc) >= acc
    decreases |ds|
  {
    if ds != [] {
      AccumulateAtLeast(ds[1..], acc * 10 + DigitValue(ds[0]));
    }
  }

  lemma {:induction false} AccumulateAppend(a: string, b: string, acc: nat)
    requires AllDigits(a) && AllDigits(b)
    ensures AllDigits(a + b)
    ensures Accumulate(a + b, acc) == Accumulate(b, Accumulate(a, acc))
    decreases |a|
  {
    if a == [] {
      assert a + b == b;
    } else {
      assert (a + b)[1..] == a[1..] + b;
      AccumulateAppend(a[1..], b, acc * 10 + DigitValue(a[0]));
    }
  }

  /** The digit loop accepts exactly the all-digit strings whose value fits, and returns that value. */
  lemma {:induction false} ParseDigitsMeaning(ds: string, acc: nat, max: nat)
    requires acc <= max
    ensures ParseDigits(ds, acc, max).Ok? <==> AllDigits(ds) && Accumulate(ds, acc) <= max
    ensures ParseDigits(ds, acc, max).Ok? ==> ParseDigits(ds, acc, max).value == Accumulate(ds, acc)
    decreases |ds|
  {
    if ds != [] && IsDigit(ds[0]) {
      var next := acc * 10 + DigitValue(ds[0]);
      if next > max {
        if AllDigits(ds) {
          AccumulateAtLeast(ds[1..], next);
        }
      } else {
        ParseDigitsMeaning(ds[1..], next, max);
        assert AllDigits(ds) <==> AllDigits(ds[1..]) by {
          assert forall i :: 1 <= i < |ds| ==> ds[i] == ds[1..][i - 1];
        }
      }
    }
  }

  /** `parse` succeeds exactly on an optional '+' followed by at least one digit, all digits, value at most `max`. */
  lemma ParseUnsignedMeaning(s: string, max: nat)
    ensures ParseUnsigned(s, max).Ok? <==>
      var ds := UnsignedDigits(s); |ds| > 0 && AllDigits(ds) && Accumulate(ds, 0) <= max
    ensures ParseUnsigned(s, max).Ok? ==> ParseUnsigned(s, max).value == Accumulate(UnsignedDigits(s), 0)
  {
    ParseDigitsMeaning(UnsignedDigits(s), 0, max);
  }

  /** Reading back the digits that Display writes gives the number again. */
  lemma {:induction false} DecimalRoundTrip(n: nat)
    ensures Accumulate(DecimalString(n), 0) == n
    decreases n
  {
    if n >= 10 {
      DecimalRoundTrip(n / 10);
      AccumulateAppend(DecimalString(n / 10), [DigitChar(n % 10)], 0);
    }
  }

  /** A number, written out with or without a leading '+', parses back to itself when it fits. */
  lemma ParseDecimalString(n: nat, max: nat)
    requires n <= max
    ensures ParseUnsigned(DecimalString(n), max) == Ok(n)
    ensures ParseUnsigned("+" + DecimalString(n), max) == Ok(n)
  {
    DecimalRoundTrip(n);
    ParseUnsignedMeaning(DecimalString(n), max);
    assert UnsignedDigits("+" + DecimalString(n)) == DecimalString(n);
    ParseUnsignedMeaning("+" + DecimalString(n), max);
  }

  /** Different numbers have different decimal texts. */
  lemma DecimalStringInjective(m: nat, n: nat)
    requires DecimalString(m) == DecimalString(n)
    ensures m == n
  {
    DecimalRoundTrip(m);
    DecimalRoundTrip(n);
  }

  /** The inputs `parse` rejects before it looks at any digit. */
  lemma ParseRejectsSignsAndEmpty(max: nat)
    ensures ParseUnsigned("", max) == Err(Empty)
    ensures ParseUnsigned("+", max) == Err(InvalidDigit)
    ensures ParseUnsigned("-", max) == Err(InvalidDigit)
    ensures forall s :: ParseUnsigned("-" + s, max).Err?
  {
    forall s ensures ParseUnsigned("-" + s, max).Err? {
      if |s| > 0 {
        assert UnsignedDigits("-" + s)[0] == '-';
      }
    }
  }
}
