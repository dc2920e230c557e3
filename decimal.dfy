/** Decimal text of Go's 64-bit `int`: `fmt.Sprintf("%d", n)` and `strconv.Atoi`. */
module Decimal {
  import opened Errors
  import opened Bytes

  const MinInt64: int := -0x8000_0000_0000_0000
  const MaxInt64: int := 0x7FFF_FFFF_FFFF_FFFF

  /** Go's `int` on a 64-bit platform. */
  type Int64 = x: int | MinInt64 <= x <= MaxInt64

  predicate IsDigit(b: byte) { 0x30 <= b <= 0x39 }

  predicate AllDigits(s: Str) { forall i :: 0 <= i < |s| ==> IsDigit(s[i]) }

  /** Text `Atoi` can accept: an optional sign followed by at least one ASCII digit. */
  predicate IsDecimalText(s: Str)
  {
    |s| >= 1 &&
    (IsDigit(s[0]) || (|s| >= 2 && (s[0] == Plus || s[0] == Minus))) &&
    AllDigits(s[1..])
  }

  /** The digits of `n` with no leading zero, as `%d` prints a non-negative number. */
  function Digits(n: nat): (s: Str)
    ensures |s| >= 1 && AllDigits(s)
    ensures s[0] == 0x30 ==> n == 0
  {
    if n < 10 then [(0x30 + n) as byte]
    else Digits(n / 10) + [(0x30 + n % 10) as byte]
  }

  /** `fmt.Sprintf("%d", n)`. */
  function Format(n: int): (s: Str)
    ensures IsDecimalText(s)
    ensures Comma !in s && Newline !in s
  {
    if n < 0 then [Minus] + Digits(-n) else Digits(n)
  }

  /** The number a run of digits denotes, read most significant first. */
  function DigitsValue(s: Str): nat
    requires AllDigits(s)
  {
    if |s| == 0 then 0
    else DigitsValue(s[..|s| - 1]) * 10 + (s[|s| - 1] as int - 0x30)
  }

  /** The digits of decimal text, without its sign. */
  function Magnitude(s: Str): (d: Str)
    requires IsDecimalText(s)
    ensures |d| >= 1 && AllDigits(d)
  {
    if s[0] == Plus || s[0] == Minus then s[1..]
    else
      assert forall i :: 1 <= i < |s| ==> s[i] == s[1..][i - 1];
      s
  }

  /** The mathematical value of decimal text: its digits, negated after a `-`. */
  function SignedValue(s: Str): int
    requires IsDecimalText(s)
  {
    if s[0] == Minus then -(DigitsValue(Magnitude(s)) as int) else DigitsValue(Magnitude(s))
  }

  /** `strconv.Atoi` for a 64-bit `int`: an optional `+` or `-`, then one or
      more ASCII digits (leading zeros allowed, no underscores, no spaces);
      a value outside the `int` range is a range error. Any error is `None`. */
  function Atoi(s: Str): (r: Option<Int64>)
    ensures r.Some? <==> IsDecimalText(s) && MinInt64 <= SignedValue(s) <= MaxInt64
    ensures r.Some? ==> r.value == SignedValue(s)
  {
    if |s| == 0 then None
    else
      var digits := if s[0] == Plus || s[0] == Minus then s[1..] else s;
      if |digits| == 0 || !AllDigits(digits) then None
      else
        var v: int := if s[0] == Minus then -(DigitsValue(digits) as int) else DigitsValue(digits);
        if MinInt64 <= v <= MaxInt64 then Some(v) else None
  }

  /** A leading zero adds nothing to the value of a run of digits. */
  lemma {:induction false} DigitsValueLeadingZero(d: Str)
    requires AllDigits(d)
    ensures DigitsValue([0x30] + d) == DigitsValue(d)
    decreases |d|
  {
    if |d| > 0 {
      var z := [0x30] + d;
      assert z[..|z| - 1] == [0x30] + d[..|d| - 1];
      assert z[|z| - 1] == d[|d| - 1];
      DigitsValueLeadingZero(d[..|d| - 1]);
    }
  }

  /** `Atoi` reads `+d` as `d`. */
  lemma AtoiPlus(d: Str)
    requires |d| >= 1 && AllDigits(d)
    ensures Atoi([Plus] + d) == Atoi(d)
  {
    assert ([Plus] + d)[1..] == d;
  }

  /** `Atoi` ignores a leading zero, after a sign or not. */
  lemma AtoiLeadingZero(sign: Str, d: Str)
    requires sign == [] || sign == [Plus] || sign == [Minus]
    requires |d| >= 1 && AllDigits(d)
    ensures Atoi(sign + [0x30] + d) == Atoi(sign + d)
  {
    var s, t := sign + [0x30] + d, sign + d;
    assert IsDecimalText(s) && IsDecimalText(t) && Magnitude(s) == [0x30] + d && Magnitude(t) == d
      && (s[0] == Minus <==> t[0] == Minus)
    by {
      if sign == [] {
        assert s == [0x30] + d && t == d && t[1..] == d[1..];
      } else {
        assert s[1..] == [0x30] + d && t[1..] == d;
      }
    }
    DigitsValueLeadingZero(d);
    AtoiBySignedValue(s, t);
  }

  /** Two decimal texts with the same value parse alike. */
  lemma AtoiBySignedValue(s: Str, t: Str)
    requires IsDecimalText(s) && IsDecimalText(t) && SignedValue(s) == SignedValue(t)
    ensures Atoi(s) == Atoi(t)
  {
  }

  lemma {:induction false} DigitsValueOfDigits(n: nat)
    ensures DigitsValue(Digits(n)) == n
  {
    if n >= 10 {
      var s := Digits(n);
      assert s[..|s| - 1] == Digits(n / 10);
      DigitsValueOfDigits(n / 10);
    }
  }

  /** Printing an `int` and parsing it back gives the same number. */
  lemma {:induction false} AtoiFormat(n: Int64)
    ensures Atoi(Format(n)) == Some(n)
  {
    FormatParsesAs(n);
  }

  /** A number outside Go's `int` range prints fine but does not parse back. */
  lemma {:induction false} AtoiFormatOutOfRange(n: int)
    requires n < MinInt64 || MaxInt64 < n
    ensures Atoi(Format(n)) == None
  {
    FormatParsesAs(n);
  }

  /** What Atoi computes from the text of `n`, before the range check. */
  lemma {:induction false} FormatParsesAs(n: int)
    ensures var s := Format(n);
      var digits := if s[0] == Plus || s[0] == Minus then s[1..] else s;
      |digits| >= 1 && AllDigits(digits) &&
      (if s[0] == Minus then -(DigitsValue(digits) as int) else DigitsValue(digits)) == n
  {
    var s := Format(n);
    if n < 0 {
      assert s[0] == Minus;
      assert s[1..] == Digits(-n);
      DigitsValueOfDigits(-n);
    } else {
      assert s == Digits(n);
      assert IsDigit(s[0]);
      DigitsValueOfDigits(n);
    }
  }
}
