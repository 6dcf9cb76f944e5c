/**
 * The two computations of src/components/slides/MusicPlayerSlide.jsx: the
 * "m:ss" rendering of a time in seconds, and the progress bar percentage.
 * Times are exact reals here (the audio element reports floating point).
 */
module MusicPlayer {
  import opened Wrappers
  import JsBuiltins

  /** `Math.trunc`. */
  function Trunc(x: real): (r: int)
    ensures x >= 0.0 ==> r == x.Floor
    ensures x < 0.0 ==> r == -((-x).Floor)
  {
    if x >= 0.0 then x.Floor else -((-x).Floor)
  }

  /** JavaScript's `a % b` on numbers: `a` minus the truncated quotient's multiple of `b`. */
  function RemReal(a: real, b: real): (r: real)
    requires b != 0.0
    ensures a >= 0.0 && b > 0.0 ==> 0.0 <= r < b
    ensures a < 0.0 && b > 0.0 ==> -b < r <= 0.0
  {
    var q := Trunc(a / b) as real;
    if b > 0.0 then
      assert a < 0.0 <==> a / b < 0.0;
      assert a < 0.0 ==> q - 1.0 < a / b <= q by {
        var f := (-(a / b)).Floor;
        assert (f as real) <= -(a / b) < (f as real) + 1.0;
      }
      assert b * (a / b) == a;
      QuotientBetween(a, b, a / b, q);
      a - b * q
    else
      a - b * q
  }

  /** A quotient `x = a / b` within one of `q` leaves `a - b * q` within one divisor of zero, on `x - q`'s side. */
  lemma QuotientBetween(a: real, b: real, x: real, q: real)
    requires b > 0.0 && b * x == a
    ensures 0.0 <= x - q < 1.0 ==> 0.0 <= a - b * q < b
    ensures -1.0 < x - q <= 0.0 ==> -b < a - b * q <= 0.0
  {
    if 0.0 <= x - q < 1.0 {
      QuotientBelowOne(a, b, x, q);
    } else if -1.0 < x - q <= 0.0 {
      assert b * -x == -a;
      assert b * -q == -(b * q);
      QuotientBelowOne(-a, b, -x, -q);
    }
  }

  lemma QuotientBelowOne(a: real, b: real, x: real, q: real)
    requires b > 0.0 && b * x == a && 0.0 <= x - q < 1.0
    ensures 0.0 <= a - b * q < b
  {
    var t := x - q;
    assert b * t == a - b * q;
    ScaleFraction(b, t);
  }

  lemma ScaleFraction(b: real, t: real)
    requires b > 0.0 && 0.0 <= t < 1.0
    ensures 0.0 <= b * t < b
  {
  }

  /**
   * `formatTime(seconds)`: whole minutes, a colon, whole seconds padded to two
   * digits. For a non-negative time the minutes are written in decimal and the
   * seconds below 60 as exactly two digits, and reading the text back gives
   * the whole seconds.
   */
  function FormatTime(seconds: real): (r: string)
    ensures seconds >= 0.0 ==>
              r == JsBuiltins.NatToString(seconds.Floor / 60) + ":" + TwoDigits(seconds.Floor % 60)
    ensures seconds >= 0.0 ==> ParseTime(r) == Some(seconds.Floor)
  {
    var mins := (seconds / 60.0).Floor;
    var secs := RemReal(seconds, 60.0).Floor;
    var text := JsBuiltins.IntToString(mins) + ":" + JsBuiltins.PadStart(JsBuiltins.IntToString(secs), 2, '0');
    if seconds >= 0.0 then
      FloorParts(seconds);
      ParseTimeOfJoin(seconds.Floor / 60, seconds.Floor % 60);
      text
    else
      text
  }

  /** For a non-negative time, the minutes are the whole seconds over 60 and the seconds the rest. */
  lemma FloorParts(seconds: real)
    requires seconds >= 0.0
    ensures (seconds / 60.0).Floor == seconds.Floor / 60
    ensures RemReal(seconds, 60.0).Floor == seconds.Floor % 60
  {
    var n := seconds.Floor;
    var q, r := n / 60, n % 60;
    assert n == 60 * q + r;
    assert (q as real) <= seconds / 60.0 < (q as real) + 1.0;
    assert (seconds / 60.0).Floor == q;
    var rest := seconds - 60.0 * (q as real);
    assert RemReal(seconds, 60.0) == rest;
    assert (r as real) <= rest < (r as real) + 1.0;
  }

  /** The seconds field of a formatted time: two digits. */
  function TwoDigits(secs: nat): (r: string)
    requires secs < 60
    ensures |r| == 2 && JsBuiltins.AllDigits(r) && JsBuiltins.DecimalValue(r) == secs
  {
    var r := JsBuiltins.PadStart(JsBuiltins.NatToString(secs), 2, '0');
    JsBuiltins.DecimalValueOfNatToString(secs);
    if secs < 10 then
      assert r == ['0', JsBuiltins.DigitChar(secs)];
      assert r[..1] == "0";
      r
    else
      assert r == JsBuiltins.NatToString(secs) by {
        assert |JsBuiltins.NatToString(secs)| != 1;
        JsBuiltins.NatToStringShort(secs);
      }
      r
  }

  /** The text before and after the first colon, if there is one. */
  function SplitAtColon(t: string): Option<(string, string)>
  {
    if t == [] then None
    else if t[0] == ':' then Some(([], t[1..]))
    else match SplitAtColon(t[1..])
      case None => None
      case Some((before, after)) => Some(([t[0]] + before, after))
  }

  lemma {:induction false} SplitAtColonOfJoin(before: string, after: string)
    requires ':' !in before
    ensures SplitAtColon(before + ":" + after) == Some((before, after))
  {
    if before != [] {
      var t := before + ":" + after;
      assert t[0] == before[0] && t[0] != ':';
      assert t[1..] == before[1..] + ":" + after;
      SplitAtColonOfJoin(before[1..], after);
      assert [before[0]] + before[1..] == before;
    }
  }

  /** Reading "m:ss" back as a number of seconds: the inverse of `formatTime`. */
  function ParseTime(t: string): Option<nat> {
    match SplitAtColon(t)
    case None => None
    case Some((mins, secs)) =>
      if |mins| >= 1 && JsBuiltins.AllDigits(mins) && |secs| == 2 && JsBuiltins.AllDigits(secs)
         && JsBuiltins.DecimalValue(secs) < 60
      then Some(JsBuiltins.DecimalValue(mins) * 60 + JsBuiltins.DecimalValue(secs))
      else None
  }

  /** Minutes and two-digit seconds joined by a colon read back as their total in seconds. */
  lemma ParseTimeOfJoin(mins: nat, secs: nat)
    requires secs < 60
    ensures ParseTime(JsBuiltins.NatToString(mins) + ":" + TwoDigits(secs)) == Some(mins * 60 + secs)
  {
    var m, d := JsBuiltins.NatToString(mins), TwoDigits(secs);
    JsBuiltins.DecimalValueOfNatToString(mins);
    assert JsBuiltins.DecimalValue(m) == mins && JsBuiltins.DecimalValue(d) == secs;
    ParseDigitsJoin(m, d);
  }

  /** A digit run, a colon and two digits below 60 read back as minutes and seconds. */
  lemma ParseDigitsJoin(m: string, d: string)
    requires |m| >= 1 && JsBuiltins.AllDigits(m) && |d| == 2 && JsBuiltins.AllDigits(d)
    requires JsBuiltins.DecimalValue(d) < 60
    ensures ParseTime(m + ":" + d) == Some(JsBuiltins.DecimalValue(m) * 60 + JsBuiltins.DecimalValue(d))
  {
    DigitsHaveNoColon(m);
    SplitAtColonOfJoin(m, d);
    ParseTimeOfSplit(m + ":" + d, m, d);
  }

  lemma DigitsHaveNoColon(m: string)
    requires JsBuiltins.AllDigits(m)
    ensures ':' !in m
  {
    forall i | 0 <= i < |m| ensures m[i] != ':' {
      assert JsBuiltins.IsDigit(m[i]);
    }
  }

  /** Text that splits into a digit run and two digits below 60 reads as minutes and seconds. */
  lemma ParseTimeOfSplit(t: string, m: string, d: string)
    requires SplitAtColon(t) == Some((m, d))
    requires |m| >= 1 && JsBuiltins.AllDigits(m) && |d| == 2 && JsBuiltins.AllDigits(d)
    requires JsBuiltins.DecimalValue(d) < 60
    ensures ParseTime(t) == Some(JsBuiltins.DecimalValue(m) * 60 + JsBuiltins.DecimalValue(d))
  {
  }

  /** `progress`: the played percentage, or 0 while the duration is not positive. */
  function Progress(currentTime: real, duration: real): (p: real)
    ensures duration <= 0.0 ==> p == 0.0
    ensures duration > 0.0 && 0.0 <= currentTime <= duration ==> 0.0 <= p <= 100.0
    ensures duration > 0.0 ==> p * duration == currentTime * 100.0
  {
    if duration > 0.0 then (currentTime / duration) * 100.0 else 0.0
  }
}
