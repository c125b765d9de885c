/**
 * Integer helpers: absolute value, Rust's truncating division, and the
 * decimal rendering that `format!("{}", n)` performs on a count.
 */
module Numerals {

  function Abs(x: int): (r: nat)
    ensures r == x || r == -x
  {
    if x < 0 then -x else x
  }

  function Max(a: int, b: int): (r: int)
    ensures r >= a && r >= b && (r == a || r == b)
  {
    if a < b then b else a
  }

  /** Integer division rounding toward zero, as Rust's `/` on `i32`/`i64`. */
  function TruncDiv(a: int, b: int): int
    requires b > 0
  {
    if a >= 0 then a / b else -((-a) / b)
  }

  /** The quotient rounded toward zero has the magnitude of the floor quotient of
      the magnitudes, and the remainder it leaves keeps the sign of the dividend. */
  lemma TruncDivMagnitude(a: int, b: int)
    requires b > 0
    ensures Abs(TruncDiv(a, b)) == Abs(a) / b
    ensures Abs(a - TruncDiv(a, b) * b) == Abs(a) % b
    ensures a >= 0 ==> a - TruncDiv(a, b) * b >= 0
    ensures a <= 0 ==> a - TruncDiv(a, b) * b <= 0
    ensures TruncDiv(-a, b) == -TruncDiv(a, b)
  {
    var m := Abs(a);
    var q := m / b;
    assert m == q * b + m % b;
    if a >= 0 {
      assert TruncDiv(a, b) == q;
      assert a - TruncDiv(a, b) * b == a - (a / b) * b;
      assert a - q * b == m % b;
    } else {
      assert TruncDiv(a, b) == -q;
      assert a - (-q) * b == -(m % b);
    }
  }

  /** The character of a decimal digit. */
  function DigitChar(d: nat): (c: char)
    requires d < 10
    ensures '0' <= c <= '9'
  {
    "0123456789"[d]
  }

  /** The value of a decimal digit character. */
  function DigitValue(c: char): (d: nat)
    requires '0' <= c <= '9'
    ensures d < 10
  {
    (c as int) - ('0' as int)
  }

  predicate IsDigits(s: string) {
    forall i :: 0 <= i < |s| ==> '0' <= s[i] <= '9'
  }

  /** Decimal rendering of a non-negative count, most significant digit first. */
  function NatToString(n: nat): (s: string)
    ensures |s| >= 1 && IsDigits(s)
    ensures s[0] == '0' ==> n == 0
    decreases n
  {
    if n < 10 then [DigitChar(n)] else NatToString(n / 10) + [DigitChar(n % 10)]
  }

  /** Reading a string of decimal digits back as a number. */
  function ParseDigits(s: string): nat
    requires IsDigits(s)
  {
    if s == [] then 0 else ParseDigits(s[..|s| - 1]) * 10 + DigitValue(s[|s| - 1])
  }

  lemma DigitRoundTrip(d: nat)
    requires d < 10
    ensures DigitValue(DigitChar(d)) == d
  {
    assert "0123456789"[d] as int == '0' as int + d;
  }

  /** Rendering loses nothing: the digits read back as the same count. */
  lemma {:induction false} NatToStringRoundTrip(n: nat)
    ensures ParseDigits(NatToString(n)) == n
    decreases n
  {
    var s := NatToString(n);
    if n < 10 {
      DigitRoundTrip(n);
      assert s[..0] == [];
    } else {
      NatToStringRoundTrip(n / 10);
      DigitRoundTrip(n % 10);
      assert s[..|s| - 1] == NatToString(n / 10);
    }
  }

  /** Different counts render differently; in particular only 1 renders as "1". */
  lemma NatToStringInjective(m: nat, n: nat)
    ensures NatToString(m) == NatToString(n) <==> m == n
  {
    NatToStringRoundTrip(m);
    NatToStringRoundTrip(n);
  }

  lemma NatToStringOne(n: nat)
    ensures NatToString(n) == "1" <==> n == 1
  {
    assert NatToString(1) == "1";
    NatToStringInjective(n, 1);
  }
}
