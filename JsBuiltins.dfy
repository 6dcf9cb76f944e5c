/**
 * The few pieces of JavaScript's built-in behaviour that the modelled code
 * relies on: the remainder operator on integers, `Number.prototype.toString`
 * on integers, `parseInt` on what it writes, and `String.prototype.padStart`.
 */
module JsBuiltins {

  import opened Wrappers

  function Abs(x: int): (r: nat)
    ensures r == x || r == -x
  {
    if x < 0 then -x else x
  }

  /** JavaScript's `a % b`: the remainder truncates toward zero and takes the sign of `a`. */
  function Rem(a: int, b: int): (r: int)
    requires b != 0
    ensures a >= 0 ==> 0 <= r < Abs(b)
    ensures a < 0 ==> 0 <= -r < Abs(b)
    ensures a >= 0 && b > 0 ==> r == a % b
  {
    if a >= 0 then a % Abs(b) else -((-a) % Abs(b))
  }

  /** A dividend already below the divisor is its own remainder. */
  lemma RemOfSmaller(a: int, b: int)
    requires 0 <= a < b
    ensures Rem(a, b) == a
  {
    ModOfSmaller(a, b);
  }

  lemma ModOfSmaller(a: int, b: int)
    requires 0 <= a < b
    ensures a % b == a
  {
  }

  /** A dividend between one and two divisors loses exactly one divisor. */
  lemma RemWrapsOnce(a: int, b: int)
    requires b <= a < 2 * b
    ensures Rem(a, b) == a - b
  {
    RemOfSmaller(a - b, b);
    assert (a - b) % b == a % b;
  }

  /**
   * A non-negative dividend below two divisors either stays or loses one
   * divisor; stated without a precondition so that function bodies can use it.
   */
  lemma RemBelowTwice(a: int, b: int)
    requires b > 0
    ensures 0 <= a < 2 * b ==> Rem(a, b) == if a < b then a else a - b
  {
    if 0 <= a < b {
      RemOfSmaller(a, b);
    } else if b <= a < 2 * b {
      RemWrapsOnce(a, b);
    }
  }

  predicate IsDigit(c: char) {
    '0' <= c <= '9'
  }

  function DigitChar(d: nat): (c: char)
    requires d < 10
    ensures IsDigit(c)
  {
    (('0' as int) + d) as char
  }

  function DigitValue(c: char): (d: nat)
    requires IsDigit(c)
    ensures d < 10 && DigitChar(d) == c
  {
    (c as int) - ('0' as int)
  }

  predicate AllDigits(s: string) {
    forall i :: 0 <= i < |s| ==> IsDigit(s[i])
  }

  /** The value of a string of decimal digits, most significant first. */
  function DecimalValue(s: string): nat
    requires AllDigits(s)
  {
    if s == [] then 0 else 10 * DecimalValue(s[..|s| - 1]) + DigitValue(s[|s| - 1])
  }

  /**
   * `n.toString()` for a non-negative integer: its decimal digits, with no
   * leading zero unless the number is zero itself.
   */
  function NatToString(n: nat): (s: string)
    ensures |s| >= 1 && AllDigits(s)
    ensures |s| > 1 ==> s[0] != '0'
    ensures n < 10 <==> |s| == 1
  {
    if n < 10 then [DigitChar(n)] else NatToString(n / 10) + [DigitChar(n % 10)]
  }

  /** Only numbers below ten are written with a single digit. */
  lemma NatToStringShort(n: nat)
    ensures |NatToString(n)| == 1 <==> n < 10
    ensures |NatToString(n)| == 2 <==> 10 <= n < 100
  {
    if n >= 10 {
      NatToStringShort(n / 10);
    }
  }

  /** Reading the digits back gives the number: `NatToString` loses nothing. */
  lemma {:induction false} DecimalValueOfNatToString(n: nat)
    ensures DecimalValue(NatToString(n)) == n
  {
    var s := NatToString(n);
    if n >= 10 {
      DecimalValueOfNatToString(n / 10);
      assert s[..|s| - 1] == NatToString(n / 10);
    }
  }

  /** `i.toString()` for any integer: a minus sign before the digits of a negative one. */
  function IntToString(i: int): (s: string)
    ensures i >= 0 ==> s == NatToString(i)
    ensures i < 0 ==> s == "-" + NatToString(-i)
  {
    if i < 0 then "-" + NatToString(-i) else NatToString(i)
  }

  /**
   * `parseInt(t, 10)` on the strings `IntToString` writes: an optional minus
   * sign followed by at least one decimal digit; None stands for NaN.
   */
  function ParseInt(t: string): (r: Option<int>)
    ensures r.Some? && |t| >= 1 && t[0] != '-' ==> r.value >= 0
  {
    if |t| >= 2 && t[0] == '-' && AllDigits(t[1..]) then
      Some(0 - DecimalValue(t[1..]) as int)
    else if |t| >= 1 && AllDigits(t) then Some(DecimalValue(t))
    else None
  }

  /** Writing an integer out and parsing it back gives the integer. */
  lemma IntToStringRoundTrip(i: int)
    ensures ParseInt(IntToString(i)) == Some(i)
  {
    var t := IntToString(i);
    if i < 0 {
      assert t[1..] == NatToString(-i);
      DecimalValueOfNatToString(-i);
    } else {
      assert IsDigit(t[0]);
      DecimalValueOfNatToString(i);
    }
  }

  function Repeat(c: char, n: nat): (s: string)
    ensures |s| == n && forall i :: 0 <= i < n ==> s[i] == c
  {
    if n == 0 then [] else [c] + Repeat(c, n - 1)
  }

  /**
   * `s.padStart(width, fill)` with a one-character fill: a string shorter than
   * `width` is prefixed with copies of `fill` up to `width`; a longer one is
   * returned as it is.
   */
  function PadStart(s: string, width: nat, fill: char): (r: string)
    ensures |r| == if |s| < width then width else |s|
    ensures r[|r| - |s|..] == s
    ensures forall i :: 0 <= i < |r| - |s| ==> r[i] == fill
  {
    if |s| < width then Repeat(fill, width - |s|) + s else s
  }
}
