/** The leaf numeric transforms of the evaluator: digit strings in base 2, 8 and 16,
    the factorial loop and the Fibonacci numbers. */
module Converters {

  datatype Base = Base2 | Base8 | Base16

  function Radix(b: Base): (r: nat)
    ensures r >= 2
  {
    match b
    case Base2 => 2
    case Base8 => 8
    case Base16 => 16
  }

  /** The value of one digit in base `b`, or -1 when `c` is outside the base's alphabet
      (the `switch` of `bin2dec`, `oct2dec` and `hex2dec`: lower-case hex letters only). */
  function DigitValue(b: Base, c: char): (d: int)
    ensures -1 <= d < Radix(b)
  {
    match b
    case Base2 => if c == '0' then 0 else if c == '1' then 1 else -1
    case Base8 => if '0' <= c <= '7' then c as int - '0' as int else -1
    case Base16 =>
      if '0' <= c <= '9' then c as int - '0' as int
      else if 'a' <= c <= 'f' then c as int - 'a' as int + 10
      else -1
  }

  /** The digit that stands for the value `d` (the inverse of `DigitValue`). */
  function DigitChar(b: Base, d: nat): (c: char)
    requires d < Radix(b)
    ensures DigitValue(b, c) == d
  {
    if d < 10 then ('0' as int + d) as char else ('a' as int + d - 10) as char
  }

  predicate AllDigits(b: Base, s: string)
  {
    forall k | 0 <= k < |s| :: DigitValue(b, s[k]) >= 0
  }

  function Power(r: nat, k: nat): (p: nat)
    ensures p >= 1 || r == 0
  {
    if k == 0 then 1 else r * Power(r, k - 1)
  }

  /** The positional value of a digit string, most significant digit first (Horner's rule). */
  function Value(b: Base, s: string): (v: nat)
    requires AllDigits(b, s)
  {
    if s == [] then 0
    else Value(b, s[..|s| - 1]) * Radix(b) + DigitValue(b, s[|s| - 1])
  }

  /** A leading digit weighs the radix to the power of the number of digits after it: the
      value is the sum of digit * radix^position the converters accumulate from the right. */
  lemma {:induction false} ValuePrepend(b: Base, c: char, t: string)
    requires DigitValue(b, c) >= 0 && AllDigits(b, t)
    ensures AllDigits(b, [c] + t)
    ensures Value(b, [c] + t) == DigitValue(b, c) * Power(Radix(b), |t|) + Value(b, t)
  {
    var s := [c] + t;
    assert forall k | 0 <= k < |s| :: s[k] == if k == 0 then c else t[k - 1];
    if t != [] {
      var t' := t[..|t| - 1];
      assert s[..|s| - 1] == [c] + t';
      ValuePrepend(b, c, t');
      var r, d, e := Radix(b), DigitValue(b, c), DigitValue(b, t[|t| - 1]);
      var p, v := Power(r, |t'|), Value(b, t');
      assert t[..|t| - 1] == t' && s[|s| - 1] == t[|t| - 1];
      assert Value(b, t) == v * r + e;
      assert Value(b, s) == (d * p + v) * r + e;
      assert Power(r, |t|) == r * p;
      assert (d * p + v) * r == d * (r * p) + v * r by { Distribute(d, p, v, r); }
    }
  }

  lemma {:induction false} Distribute(d: int, p: int, v: int, r: int)
    ensures (d * p + v) * r == d * (r * p) + v * r
  {
  }

  /** An n-digit string stays below radix^n. */
  lemma {:induction false} ValueBound(b: Base, s: string)
    requires AllDigits(b, s)
    ensures Value(b, s) < Power(Radix(b), |s|)
  {
    if s != [] {
      var s' := s[..|s| - 1];
      ValueBound(b, s');
      var r := Radix(b);
      assert Value(b, s) <= (Power(r, |s'|) - 1) * r + (r - 1);
    }
  }

  /** The shortest digit string of `n` in base `b` ("0" for zero). */
  function Digits(b: Base, n: nat): (s: string)
    ensures |s| >= 1 && AllDigits(b, s)
    decreases n
  {
    var r := Radix(b);
    if n < r then [DigitChar(b, n)] else Digits(b, n / r) + [DigitChar(b, n % r)]
  }

  /** Converting a number to digits and back gives the number. */
  lemma {:induction false} DigitsRoundTrip(b: Base, n: nat)
    ensures Value(b, Digits(b, n)) == n
    decreases n
  {
    var r := Radix(b);
    var s := Digits(b, n);
    if n >= r {
      DigitsRoundTrip(b, n / r);
      assert s[..|s| - 1] == Digits(b, n / r);
    }
  }

  /** What `bin2dec`, `oct2dec` and `hex2dec` return, and whether they flag a bad digit. */
  datatype Conversion = Conversion(value: real, bad: bool)

  /** The converters' outcome: the positional value when every digit is admissible, and
      0 with the base's error otherwise. */
  function Convert(b: Base, s: string): (c: Conversion)
    ensures c.bad <==> !AllDigits(b, s)
    ensures c.bad ==> c.value == 0.0
    ensures !c.bad ==> 0.0 <= c.value < Power(Radix(b), |s|) as real
  {
    if AllDigits(b, s) then (ValueBound(b, s); Conversion(Value(b, s) as real, false))
    else Conversion(0.0, true)
  }

  /** The product 0 * 1 * ... * n that `factorial`'s loop builds (it starts at i = 0). */
  function ProductFromZero(n: nat): int
  {
    if n == 0 then 0 else ProductFromZero(n - 1) * n
  }

  /** The factorial the loop was written for. */
  function Fact(n: nat): (f: nat)
    ensures f >= 1
  {
    if n == 0 then 1 else n * Fact(n - 1)
  }

  /** Because its product starts with the factor 0, the loop yields 0 for every n, not n!. */
  lemma {:induction false} ProductFromZeroIsZero(n: nat)
    ensures ProductFromZero(n) == 0 * Fact(n) == 0
    ensures ProductFromZero(n) != Fact(n)
  {
    if n > 0 {
      ProductFromZeroIsZero(n - 1);
    }
  }

  /** The Fibonacci numbers, by their defining recurrence. */
  function Fib(n: nat): nat
  {
    if n < 2 then n else Fib(n - 1) + Fib(n - 2)
  }

  /** Fibonacci extended to negative indices by F(-n) = (-1)^(n+1) F(n), as `fib` does. */
  function NegaFib(n: int): int
  {
    if n >= 0 then Fib(n) as int
    else if (-n) % 2 == 1 then Fib(-n) as int else -(Fib(-n) as int)
  }

  /** The sign rule makes the extension satisfy the Fibonacci recurrence at every integer. */
  lemma {:induction false} NegaFibRecurrence(n: int)
    ensures NegaFib(n + 2) == NegaFib(n + 1) + NegaFib(n)
  {
    if n < 0 {
      var k := -n;
      if k == 1 {
        assert NegaFib(n) == 1 && NegaFib(n + 1) == 0 && NegaFib(n + 2) == 1;
      } else {
        assert Fib(k) == Fib(k - 1) + Fib(k - 2);
        assert (k - 1) % 2 != k % 2 && (k - 2) % 2 == k % 2;
      }
    }
  }
}
