/** The parts of the C/C++ runtime the calculator calls: number parsing and printing, libm,
    the sticky global errno, and the `(int)` cast and 32-bit shifts. */
module CLib {
  import opened CalcErrors

  /** A nonempty piece of text: what `ss << setprecision(15) << x` always produces. */
  type Text = s: string | |s| > 0 witness "0"

  /** What a library call returns, and the errno it leaves (`NoErrno`: it left errno alone). */
  datatype MathOut = MathOut(value: real, errno: Errno)

  /** The floating-point library, given as functions the model does not interpret.
      `libm(k, x)` is the call the function-application switch of `calculate` makes for
      function number `k` (1 sqrt, 4 sin, ..., 13 log, 14 log10). */
  datatype Lib = Lib(
    strtod: string -> MathOut,
    libm: (int, real) -> MathOut,
    powl: (real, real) -> MathOut,
    fmod: (real, real) -> MathOut,
    show: real -> Text)

  /** errno is only ever set by the library, never cleared by the calculator. */
  function Sticky(before: Errno, call: Errno): (after: Errno)
    ensures call != NoErrno ==> after == call
    ensures call == NoErrno ==> after == before
  {
    if call != NoErrno then call else before
  }

  /** `floor` on an exact real. */
  function Floor(x: real): (r: int)
    ensures r as real <= x < r as real + 1.0
  {
    x.Floor
  }

  /** `ceil` on an exact real. */
  function Ceil(x: real): (r: int)
    ensures r as real - 1.0 < x <= r as real
  {
    if Floor(x) as real == x then Floor(x) else Floor(x) + 1
  }

  /** True when `x - floor(x) == 0`, the integrality test of the shift and of `factorial`. */
  predicate IsIntegral(x: real)
  {
    x - Floor(x) as real == 0.0
  }

  /** C's truncation toward zero of a floating value. */
  function Trunc(x: real): (t: int)
    ensures x >= 0.0 ==> t as real <= x < t as real + 1.0
    ensures x < 0.0 ==> t as real - 1.0 < x <= t as real
  {
    if x >= 0.0 then Floor(x) else Ceil(x)
  }

  const IntMin: int := -0x8000_0000
  const IntMax: int := 0x7FFF_FFFF

  predicate IsInt32(n: int)
  {
    IntMin <= n <= IntMax
  }

  /** `(int)x`: truncation; a value outside the 32-bit range is undefined behaviour in C++,
      modelled as the x86 result INT_MIN. */
  function ToInt32(x: real): (n: int)
    ensures IsInt32(n)
    ensures IsInt32(Trunc(x)) ==> n == Trunc(x)
  {
    var t := Trunc(x);
    if IsInt32(t) then t else IntMin
  }

  function Pow2(k: nat): (r: nat)
    ensures r >= 1
  {
    if k == 0 then 1 else 2 * Pow2(k - 1)
  }

  /** Two's-complement wrap-around of an integer to 32 bits. */
  function Wrap32(n: int): (w: int)
    ensures IsInt32(w)
    ensures (w - n) % 0x1_0000_0000 == 0
    ensures IsInt32(n) ==> w == n
  {
    var m := n % 0x1_0000_0000;
    if m <= IntMax then m else m - 0x1_0000_0000
  }

  /** The shift count as the x86 shift instructions use it: its low five bits. */
  function ShiftCount(b: int): (k: nat)
    ensures k < 32
    ensures 0 <= b < 32 ==> k == b
  {
    b % 32
  }

  /** `(int)res << (int)tmp` on 32-bit ints. */
  function Shl32(a: int, b: int): (r: int)
    ensures IsInt32(r)
    ensures (r - a * Pow2(ShiftCount(b))) % 0x1_0000_0000 == 0
    ensures IsInt32(a * Pow2(ShiftCount(b))) ==> r == a * Pow2(ShiftCount(b))
  {
    Wrap32(a * Pow2(ShiftCount(b)))
  }

  /** `(int)res >> (int)tmp` on 32-bit ints: an arithmetic shift, i.e. floor division. */
  function Shr32(a: int, b: int): (r: int)
    ensures var p := Pow2(ShiftCount(b)); r * p <= a < (r + 1) * p
    ensures IsInt32(a) ==> IsInt32(r)
  {
    var p := Pow2(ShiftCount(b));
    DivBounds(a, p);
    FloorDivision(a, p);
    a / p
  }

  /** Floor division: the quotient times the divisor is the largest multiple not above `a`. */
  lemma {:induction false} FloorDivision(a: int, p: int)
    requires p >= 1
    ensures (a / p) * p <= a < (a / p + 1) * p
  {
    var q, r := a / p, a % p;
    assert a == q * p + r && 0 <= r < p;
    assert (q + 1) * p == q * p + p;
  }

  /** Floor division by a positive number moves toward zero, never past it. */
  lemma {:induction false} DivBounds(a: int, p: int)
    requires p >= 1
    ensures a >= 0 ==> 0 <= a / p <= a
    ensures a < 0 ==> a <= a / p < 0
  {
    var q, r := a / p, a % p;
    assert a == p * q + r && 0 <= r < p;
    assert p * (q + 1) == p * q + p;
    assert (p - 1) * q == p * q - q;
    if a >= 0 {
      if q < 0 {
        NonPositiveProduct(p, q + 1);
      }
      NonNegativeProduct(p - 1, q);
    } else {
      if q >= 0 {
        NonNegativeProduct(p, q);
      }
      NonPositiveProduct(p - 1, q + 1);
    }
  }

  lemma {:induction false} NonNegativeProduct(x: int, y: int)
    requires x >= 0 && y >= 0
    ensures x * y >= 0
  {
  }

  lemma {:induction false} NonPositiveProduct(x: int, y: int)
    requires x >= 0 && y <= 0
    ensures x * y <= 0
  {
  }
}
