/** C integer semantics that differ from Dafny's mathematical integers:
    division and remainder truncate toward zero, a cast of a floating value
    to an integer type truncates toward zero, and unsigned arithmetic wraps. */
module CInt {

  const U32_MODULUS: int := 0x1_0000_0000

  function Abs(x: int): int {
    if x < 0 then -x else x
  }

  /** C's `a / b`: the quotient truncated toward zero. */
  function TruncDiv(a: int, b: int): (q: int)
    requires b != 0
    ensures 0 <= a && 0 < b ==> q == a / b
  {
    if (a < 0) == (b < 0) then Abs(a) / Abs(b) else -(Abs(a) / Abs(b))
  }

  /** C's `a % b`: the remainder takes the sign of the dividend. */
  function TruncMod(a: int, b: int): int
    requires b != 0
  {
    if a < 0 then -(Abs(a) % Abs(b)) else Abs(a) % Abs(b)
  }

  /** Quotient and remainder recombine as C requires (`(a/b)*b + a%b == a`),
      and the remainder is smaller than the divisor in magnitude. */
  lemma TruncDivMod(a: int, b: int)
    requires b != 0
    ensures a == TruncDiv(a, b) * b + TruncMod(a, b)
    ensures a >= 0 ==> 0 <= TruncMod(a, b) < Abs(b)
    ensures a < 0 ==> -Abs(b) < TruncMod(a, b) <= 0
  {
    var m, n := Abs(a), Abs(b);
    var q := m / n;
    assert m == q * n + m % n;
    if (a < 0) == (b < 0) {
      assert TruncDiv(a, b) == q;
      if a < 0 {
        assert q * b == -(q * n);
      } else {
        assert q * b == q * n;
      }
    } else {
      assert TruncDiv(a, b) == -q;
      if a < 0 {
        assert -q * b == -(q * n);
      } else {
        assert -q * b == q * n;
      }
    }
  }

  /** C's conversion of a floating value to `int`: truncation toward zero
      (values out of the range of `int`, undefined in C, are not excluded). */
  function TruncReal(r: real): (k: int)
    ensures r >= 0.0 ==> k as real <= r < k as real + 1.0
    ensures r < 0.0 ==> k as real - 1.0 < r <= k as real
  {
    if r >= 0.0 then r.Floor else -((-r).Floor)
  }

  /** Reduction of an integer into the range of a 32-bit unsigned value. */
  function U32(v: int): (u: int)
    ensures 0 <= u < U32_MODULUS
    ensures 0 <= v < U32_MODULUS ==> u == v
  {
    v % U32_MODULUS
  }

  /** Conversion of a 32-bit unsigned value to a 32-bit `int` (two's complement). */
  function I32(u: int): (v: int)
    requires 0 <= u < U32_MODULUS
    ensures -0x8000_0000 <= v < 0x8000_0000
    ensures u < 0x8000_0000 ==> v == u
  {
    if u < 0x8000_0000 then u else u - U32_MODULUS
  }
}
