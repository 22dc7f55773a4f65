/**
  C integer arithmetic on unbounded integers: truncating division, arithmetic shifts and
  64-bit wrap-around.
 */
module CInt {
  const TWO_63 := 0x8000_0000_0000_0000
  const TWO_64 := 0x1_0000_0000_0000_0000

  function Abs(a: int): nat { if a < 0 then -a else a }

  function Min(a: int, b: int): int { if a < b then a else b }

  function Max(a: int, b: int): int { if a > b then a else b }

  /** `a / b` in C: the quotient rounded toward zero. */
  function Div(a: int, b: int): int
    requires b != 0
  {
    var q := Abs(a) / Abs(b);
    if (a < 0) == (b < 0) then q else -q
  }

  /** `a / b` in C for unsigned operands. */
  function UDiv(a: nat, b: nat): nat
    requires b > 0
  {
    a / b
  }

  /** `a >> n` on a signed value: the quotient by 2^n rounded down. `scale` is 2^n. */
  function ShiftRight(a: int, scale: int): int
    requires scale > 0
  {
    a / scale
  }

  /** The value of a 64-bit signed integer after wrap-around. */
  function Wrap(a: int): (r: int)
    ensures -TWO_63 <= r < TWO_63
  {
    (a + TWO_63) % TWO_64 - TWO_63
  }

  lemma WrapFits(a: int)
    requires -TWO_63 <= a < TWO_63
    ensures Wrap(a) == a
  {
  }

  lemma DivBounds(a: int, b: int)
    requires b > 0
    ensures a >= 0 ==> 0 <= Div(a, b) && Div(a, b) * b <= a < Div(a, b) * b + b
    ensures a <= 0 ==> Div(a, b) <= 0 && Div(a, b) * b - b < a <= Div(a, b) * b
  {
    var q := Abs(a) / b;
    assert Abs(a) == b * q + Abs(a) % b;
    assert q * b == b * q && (-q) * b == -(q * b);
  }

  lemma ShiftBounds(a: int, scale: int)
    requires scale > 0
    ensures ShiftRight(a, scale) * scale <= a < ShiftRight(a, scale) * scale + scale
  {
  }

  /** Order is kept by multiplying with a positive factor, and can be read off the products. */
  lemma Scale(a: int, b: int, n: int)
    requires n > 0
    ensures a <= b <==> a * n <= b * n
    ensures a < b <==> a * n < b * n
  {
    assert b * n - a * n == (b - a) * n;
  }

  /** A quotient of something between `lo * n` and `hi * n` is between `lo` and `hi`. */
  lemma DivBetween(lo: int, hi: int, n: int, sum: int)
    requires n > 0 && lo * n <= sum <= hi * n
    ensures lo <= Div(sum, n) <= hi
  {
    var q := Div(sum, n);
    DivBounds(sum, n);
    if sum >= 0 {
      assert (q + 1) * n == q * n + n;
      Scale(lo, q + 1, n);
      Scale(q, hi, n);
    } else {
      assert (q - 1) * n == q * n - n;
      Scale(lo, q, n);
      Scale(q - 1, hi, n);
    }
  }

  lemma Quotient(n: nat, d: nat)
    requires d > 0
    ensures n / d * d <= n < (n / d + 1) * d
  {
    assert (n / d + 1) * d == n / d * d + d;
  }

  lemma QuotientIs(n: nat, d: nat, k: nat)
    requires d > 0 && k * d <= n < k * d + d
    ensures n / d == k
  {
    Quotient(n, d);
    assert (k + 1) * d == k * d + d;
    Scale(k, n / d + 1, d);
    Scale(n / d, k + 1, d);
  }

  lemma Grows(a: int, b: int, n: nat)
    requires a <= b
    ensures a * n <= b * n
  {
    assert b * n - a * n == (b - a) * n;
  }
}
