/** The `formatTime` helper both offline screens use for their countdowns. */
module Clock {
  import opened Options
  import opened Strings

  /** JavaScript's `a % b` for a positive divisor: the remainder takes the
      sign of the dividend. */
  function JsRemainder(a: int, b: int): (r: int)
    requires b > 0
    ensures a >= 0 ==> 0 <= r < b
    ensures a < 0 ==> -b < r <= 0
    ensures (a - r) % b == 0
  {
    if a >= 0 then
      var q := a / b;
      assert a - a % b == b * q;
      MultipleHasNoRemainder(q, b);
      a % b
    else
      var q := (-a) / b;
      assert a + (-a) % b == b * -q;
      MultipleHasNoRemainder(-q, b);
      -((-a) % b)
  }

  /** A multiple of `b` leaves no remainder. */
  lemma MultipleHasNoRemainder(k: int, b: int)
    requires b > 0
    ensures (b * k) % b == 0
  {
    var m := b * k;
    var d := k - m / b;
    assert b * d == m % b;
    if d >= 1 {
      assert b * d == b + b * (d - 1);
    } else if d <= -1 {
      assert b * d == -b - b * (-d - 1);
    }
  }

  /** `formatTime(seconds)`: whole minutes (`Math.floor(seconds / 60)`),
      a colon, and the remaining seconds padded to two places. */
  function FormatTime(seconds: int): string {
    var mins := seconds / 60;   // Euclidean division by a positive number is the floor
    var secs := JsRemainder(seconds, 60);
    IntToString(mins) + ":" + PadStart(IntToString(secs), 2, '0')
  }

  /** The inverse of `FormatTime` on a clock reading "m:ss". */
  function ReadClock(t: string): Option<int> {
    if |t| < 4 || t[|t| - 3] != ':' then None
    else
      var mins := t[..|t| - 3];
      var secs := t[|t| - 2..];
      if AllDigitsOf(mins, 10) && AllDigitsOf(secs, 10) && DigitsValue(secs, 10) < 60
      then Some(DigitsValue(mins, 10) * 60 + DigitsValue(secs, 10))
      else None
  }

  /** The seconds field of a non-negative time is always two decimal digits. */
  lemma TwoDigitSeconds(secs: nat)
    requires secs < 60
    ensures |PadStart(IntToString(secs), 2, '0')| == 2
    ensures AllDigitsOf(PadStart(IntToString(secs), 2, '0'), 10)
    ensures DigitsValue(PadStart(IntToString(secs), 2, '0'), 10) == secs
  {
    var p := PadStart(IntToString(secs), 2, '0');
    NatToStringValue(secs);
    if secs < 10 {
      assert p == ['0', DigitChar(secs)];
      assert p[..1] == ['0'];
    } else {
      assert p == NatToString(secs);
    }
  }

  /** For any non-negative number of seconds the display reads back as that
      number: minutes, a colon, then exactly two digits of seconds. */
  lemma ReadFormatTime(seconds: nat)
    ensures ReadClock(FormatTime(seconds)) == Some(seconds)
  {
    var mins := seconds / 60;
    var secs := seconds % 60;
    var m := IntToString(mins);
    var p := PadStart(IntToString(secs), 2, '0');
    TwoDigitSeconds(secs);
    NatToStringValue(mins);
    var t := FormatTime(seconds);
    assert t == m + ":" + p;
    assert t[..|t| - 3] == m;
    assert t[|t| - 2..] == p;
  }
}
