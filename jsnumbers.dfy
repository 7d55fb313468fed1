/**
 * The JavaScript number operations the timeline relies on, over exact reals
 * and integers: truncation, the remainder operator `%`, `Math.round`, the
 * `~~x` idiom (ToInt32), `String(n)` for integers and `s.substr(-k)`.
 */
module JsNumbers {

  const TwoTo31: int := 0x8000_0000
  const TwoTo32: int := 0x1_0000_0000

  /** `Math.round`: the nearest integer, halves rounded up. */
  function JsRound(x: real): (r: int)
    ensures r as real - 0.5 <= x < r as real + 0.5
  {
    (x + 0.5).Floor
  }

  /** Truncation toward zero (`Math.trunc`). */
  function Trunc(x: real): (r: int)
    ensures 0.0 <= x ==> r as real <= x < r as real + 1.0
    ensures x < 0.0 ==> r as real - 1.0 < x <= r as real
  {
    if x >= 0.0 then x.Floor else -((-x).Floor)
  }

  /**
   * `x % y` on numbers: the remainder keeps the sign of the dividend, so
   * `x - Trunc(x / y) * y`.
   */
  function JsRem(x: real, y: real): (r: real)
    requires y != 0.0
    ensures 0.0 <= x && 0.0 < y ==> 0.0 <= r < y
    ensures 0.0 <= x < y ==> r == x
  {
    var q := Trunc(x / y);
    RemBounds(x, y, q);
    x - (q as real) * y
  }

  lemma RemBounds(x: real, y: real, q: int)
    requires y != 0.0 && q == Trunc(x / y)
    ensures 0.0 <= x && 0.0 < y ==> 0.0 <= x - (q as real) * y < y
    ensures 0.0 <= x < y ==> q == 0
  {
    if 0.0 <= x && 0.0 < y {
      DivNonNegative(x, y);
      RemCore(x, y, x / y, q as real);
    }
  }

  /** The bounds of a remainder, with the quotient `d` known only by its product with `y`. */
  lemma RemCore(x: real, y: real, d: real, qr: real)
    requires 0.0 < y && d * y == x && qr <= d < qr + 1.0
    ensures 0.0 <= x - qr * y < y
    ensures x < y ==> d < 1.0
  {
    MulMonotone(qr, d, y);
    MulMonotone(d, qr + 1.0, y);
    MulMonotone(1.0, d, y);
    assert (qr + 1.0) * y == qr * y + y;
    assert d * y < (qr + 1.0) * y;
    assert x < qr * y + y;
    assert x - qr * y < y;
  }

  lemma MulMonotone(a: real, b: real, y: real)
    requires 0.0 < y
    ensures a <= b ==> a * y <= b * y
    ensures a < b ==> a * y < b * y
  {
  }

  /** The remainder is periodic: adding one period to the dividend changes nothing. */
  lemma JsRemPeriodic(x: real, y: real)
    requires 0.0 <= x && 0.0 < y
    ensures JsRem(x + y, y) == JsRem(x, y)
  {
    var d := x / y;
    var q := Trunc(d);
    assert d * y == x;
    DivNonNegative(x, y);
    DivShift(x, y);
    assert Trunc(d + 1.0) == q + 1;
    assert ((q + 1) as real) * y == (q as real) * y + y;
  }

  lemma DivNonNegative(x: real, y: real)
    requires 0.0 <= x && 0.0 < y
    ensures 0.0 <= x / y
  {
  }

  lemma DivShift(x: real, y: real)
    requires 0.0 < y
    ensures (x + y) / y == x / y + 1.0
  {
    var d, e := x / y, (x + y) / y;
    assert d * y == x && e * y == x + y;
    var a := e - d - 1.0;
    assert a * y == 0.0;
    MulMonotone(0.0, a, y);
    MulMonotone(a, 0.0, y);
  }

  /** `~~x`: truncate, then wrap into the signed 32-bit range. */
  function ToInt32(x: real): (r: int)
    ensures -TwoTo31 <= r < TwoTo31
    ensures -TwoTo31 <= Trunc(x) < TwoTo31 ==> r == Trunc(x)
  {
    (Trunc(x) + TwoTo31) % TwoTo32 - TwoTo31
  }

  /** The decimal digits of a natural number, most significant first. */
  function Digits(n: nat): (r: string)
    ensures 1 <= |r|
    ensures n < 10 <==> |r| == 1
  {
    if n < 10 then [DigitChar(n)] else Digits(n / 10) + [DigitChar(n % 10)]
  }

  function DigitChar(d: nat): (c: char)
    requires d < 10
    ensures '0' <= c <= '9' && (c - '0') as nat == d
  {
    ['0', '1', '2', '3', '4', '5', '6', '7', '8', '9'][d]
  }

  /** Every character `Digits` produces is a decimal digit. */
  lemma {:induction false} DigitsAreDigits(n: nat)
    ensures forall i :: 0 <= i < |Digits(n)| ==> '0' <= Digits(n)[i] <= '9'
  {
    if n >= 10 { DigitsAreDigits(n / 10); }
  }

  /** `String(n)` for an integral number. */
  function Decimal(n: int): (r: string)
    ensures 0 <= n ==> r == Digits(n)
    ensures n < 0 ==> r == "-" + Digits(-n)
  {
    if n < 0 then "-" + Digits(-n) else Digits(n)
  }

  /** The value of one decimal digit; any other character counts as 0. */
  function DigitValue(c: char): (r: nat)
    ensures r < 10
  {
    if '0' <= c <= '9' then (c - '0') as nat else 0
  }

  /** The value a digit string stands for: the inverse of `Digits`. */
  function DigitsValue(s: string): nat {
    if |s| == 0 then 0 else 10 * DigitsValue(s[..|s| - 1]) + DigitValue(s[|s| - 1])
  }

  /** Reading back the digits of `n` gives `n`. */
  lemma {:induction false} DigitsRoundTrip(n: nat)
    ensures DigitsValue(Digits(n)) == n
  {
    var d := Digits(n);
    if n >= 10 {
      DigitsRoundTrip(n / 10);
      assert d[..|d| - 1] == Digits(n / 10);
    }
  }

  /** Numbers below 10^k have at most k digits. */
  lemma DigitsLength(n: nat)
    ensures 10 <= n < 100 ==> |Digits(n)| == 2
    ensures 100 <= n < 1000 ==> |Digits(n)| == 3
  {
    if n >= 10 {
      assert |Digits(n)| == |Digits(n / 10)| + 1;
    }
  }

  /** `s.substr(-k)`: the last `k` characters, or all of `s` when it is shorter. */
  function TakeLast(s: string, k: nat): (r: string)
    ensures |r| == if |s| <= k then |s| else k
    ensures r == s[|s| - |r|..]
  {
    if |s| <= k then s else s[|s| - k..]
  }
}
