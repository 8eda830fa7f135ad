/** Decimal digit strings: `%d` formatting and `strconv.Atoi` on a run of ASCII digits,
    for a Go `int` of 64 bits. */
module Decimal {
  import opened Errors

  const MaxInt64: nat := 0x7fff_ffff_ffff_ffff

  predicate IsDigit(c: char)
  {
    '0' <= c <= '9'
  }

  predicate AllDigits(s: string)
  {
    forall i :: 0 <= i < |s| ==> IsDigit(s[i])
  }

  function DigitValue(c: char): nat
    requires IsDigit(c)
  {
    (c - '0') as nat
  }

  function DigitChar(d: nat): (c: char)
    requires d < 10
    ensures IsDigit(c) && DigitValue(c) == d
  {
    ('0' as int + d) as char
  }

  /** The number a digit string denotes, most significant digit first. */
  function Value(s: string): (v: nat)
    requires AllDigits(s)
  {
    if s == [] then 0 else Value(s[..|s| - 1]) * 10 + DigitValue(s[|s| - 1])
  }

  /** `fmt.Sprintf("%d", n)` for a non-negative `n`. */
  function Format(n: nat): (s: string)
    ensures s != [] && AllDigits(s)
  {
    if n < 10 then [DigitChar(n)] else Format(n / 10) + [DigitChar(n % 10)]
  }

  /** Reading back what `%d` printed gives the same number. */
  lemma {:induction false} FormatValue(n: nat)
    ensures Value(Format(n)) == n
  {
    var s := Format(n);
    if n >= 10 {
      FormatValue(n / 10);
      assert s[..|s| - 1] == Format(n / 10);
    }
  }

  /** `strconv.Atoi(s)` for a non-empty digit string: the value when it fits in a 64-bit
      `int`, otherwise the range error `Atoi` reports. */
  function Atoi(s: string): (r: Result<int>)
    requires s != [] && AllDigits(s)
    ensures r.Ok? <==> Value(s) <= MaxInt64
    ensures r.Ok? ==> r.value == Value(s) && 0 <= r.value
    ensures r.Err? ==> Text(r.error) == "strconv.Atoi: parsing \"" + s + "\": value out of range"
  {
    if Value(s) <= MaxInt64 then Ok(Value(s))
    else Err(New("strconv.Atoi: parsing \"" + s + "\": value out of range"))
  }

  /** `Atoi` undoes `%d` for every value an `int` can hold. */
  lemma AtoiFormat(n: nat)
    requires n <= MaxInt64
    ensures Atoi(Format(n)) == Ok(n)
  {
    FormatValue(n);
  }
}
