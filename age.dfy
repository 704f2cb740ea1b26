/** The age column (`formatDuration` in handlers/handlers.go): a duration in
    nanoseconds is cut into days, hours, minutes and seconds by successive
    truncating divisions, and only the largest non-zero unit is shown. */
module Age {
  import opened Text

  /** `time.Second`, `time.Minute`, `time.Hour` and `24 * time.Hour`, in
      nanoseconds. */
  const Second: int := 1_000_000_000
  const Minute: int := 60_000_000_000
  const Hour: int := 3_600_000_000_000
  const Day: int := 86_400_000_000_000

  /** Go's integer `/`: the quotient rounded toward zero, so the remainder
      it leaves is smaller than the divisor and has the dividend's sign. */
  function GoDiv(a: int, b: int): (q: int)
    requires b > 0
    ensures a >= 0 ==> 0 <= a - q * b < b
    ensures a < 0 ==> -b < a - q * b <= 0
  {
    if a >= 0 then a / b else -((-a) / b)
  }

  /** On a non-negative dividend Go's `/` and `%` are the Euclidean ones. */
  lemma GoDivOfNatural(a: int, b: int)
    requires a >= 0 && b > 0
    ensures GoDiv(a, b) == a / b && GoMod(a, b) == a % b
  {
  }

  /** Go's integer `%`: the remainder takes the sign of the dividend. */
  function GoMod(a: int, b: int): (r: int)
    requires b > 0
    ensures a == GoDiv(a, b) * b + r
    ensures a >= 0 ==> r == a % b
    ensures a < 0 ==> r == -((-a) % b)
  {
    a - GoDiv(a, b) * b
  }

  /** The four counts `formatDuration` computes. */
  datatype Units = Units(days: int, hours: int, minutes: int, seconds: int)

  /** The successive quotients and remainders of the duration. For a
      non-negative duration these are its days and the hours, minutes and
      seconds left over, which add back up to it to within a second. */
  function DurationUnits(d: int): (u: Units)
    ensures d >= 0 ==> u.days >= 0 && 0 <= u.hours < 24 && 0 <= u.minutes < 60 && 0 <= u.seconds < 60
    ensures d >= 0 ==>
      var whole := u.days * Day + u.hours * Hour + u.minutes * Minute + u.seconds * Second;
      whole <= d < whole + Second
  {
    var days := GoDiv(d, Day);
    var d1 := GoMod(d, Day);
    var hours := GoDiv(d1, Hour);
    var d2 := GoMod(d1, Hour);
    var minutes := GoDiv(d2, Minute);
    var d3 := GoMod(d2, Minute);
    var seconds := GoDiv(d3, Second);
    Units(days, hours, minutes, seconds)
  }

  /** The age text: a count followed by its unit letter; a non-negative
      duration's count has no sign. */
  function FormatDuration(d: int): (r: string)
    ensures |r| >= 2 && r[|r| - 1] in "dhms"
    ensures d >= 0 ==> AllDigits(r[..|r| - 1])
  {
    var u := DurationUnits(d);
    if u.days > 0 then IntToString(u.days) + "d"
    else if u.hours > 0 then IntToString(u.hours) + "h"
    else if u.minutes > 0 then IntToString(u.minutes) + "m"
    else IntToString(u.seconds) + "s"
  }

  /** A non-negative duration shows its largest non-zero unit, counted whole
      from the duration itself; below a minute it shows seconds, so zero is
      "0s". */
  lemma FormatDurationLargestUnit(d: int)
    requires d >= 0
    ensures d >= Day ==> FormatDuration(d) == IntToString(d / Day) + "d"
    ensures Hour <= d < Day ==> FormatDuration(d) == IntToString(d / Hour) + "h"
    ensures Minute <= d < Hour ==> FormatDuration(d) == IntToString(d / Minute) + "m"
    ensures d < Minute ==> FormatDuration(d) == IntToString(d / Second) + "s"
  {
    GoDivOfNatural(d, Day);
    if d < Day {
      BelowADay(d);
    }
  }

  /** Below a day, the day count is zero and the hours are counted from the
      whole duration. */
  lemma BelowADay(d: int)
    requires 0 <= d < Day
    ensures Hour <= d ==> FormatDuration(d) == IntToString(d / Hour) + "h"
    ensures Minute <= d < Hour ==> FormatDuration(d) == IntToString(d / Minute) + "m"
    ensures d < Minute ==> FormatDuration(d) == IntToString(d / Second) + "s"
  {
    GoDivOfNatural(d, Day);
    GoDivOfNatural(d, Hour);
    if d < Hour {
      BelowAnHour(d);
    }
  }

  /** Below an hour, minutes and then seconds are counted from the whole
      duration. */
  lemma BelowAnHour(d: int)
    requires 0 <= d < Hour
    ensures Minute <= d ==> FormatDuration(d) == IntToString(d / Minute) + "m"
    ensures d < Minute ==> FormatDuration(d) == IntToString(d / Second) + "s"
  {
    GoDivOfNatural(d, Day);
    GoDivOfNatural(d, Hour);
    GoDivOfNatural(d, Minute);
    if d < Minute {
      BelowAMinute(d);
    }
  }

  /** Below a minute, only seconds are counted. */
  lemma BelowAMinute(d: int)
    requires 0 <= d < Minute
    ensures FormatDuration(d) == IntToString(d / Second) + "s"
  {
    GoDivOfNatural(d, Day);
    GoDivOfNatural(d, Hour);
    GoDivOfNatural(d, Minute);
    GoDivOfNatural(d, Second);
  }

  /** The remainder of `q * Hour + s` by an hour is `s`. */
  lemma ModHourOf(q: int, s: int)
    requires 0 <= s < Hour
    ensures (q * Hour + s) % Hour == s
  {
  }

  lemma ModMinuteOf(q: int, s: int)
    requires 0 <= s < Minute
    ensures (q * Minute + s) % Minute == s
  {
  }

  lemma DayThenHour(x: nat)
    ensures (x % Day) % Hour == x % Hour
  {
    var days, r := x / Day, x % Day;
    ModHourOf(24 * days + r / Hour, r % Hour);
    assert x == (24 * days + r / Hour) * Hour + r % Hour;
  }

  lemma HourThenMinute(x: nat)
    ensures (x % Hour) % Minute == x % Minute
  {
    var hours, r := x / Hour, x % Hour;
    ModMinuteOf(60 * hours + r / Minute, r % Minute);
    assert x == (60 * hours + r / Minute) * Minute + r % Minute;
  }

  /** Taking the remainder by a day or an hour first does not change the
      remainder by the next smaller unit, for either sign. */
  lemma GoModNested(a: int)
    ensures GoMod(GoMod(a, Day), Hour) == GoMod(a, Hour)
    ensures GoMod(GoMod(a, Hour), Minute) == GoMod(a, Minute)
  {
    var x := if a >= 0 then a else -a;
    DayThenHour(x);
    HourThenMinute(x);
  }

  /** For a negative duration every count is at most zero, and the seconds
      are those of the part below a minute. */
  lemma NegativeUnits(d: int)
    requires d < 0
    ensures var u := DurationUnits(d);
      u.days <= 0 && u.hours <= 0 && u.minutes <= 0 && u.seconds == GoDiv(GoMod(d, Minute), Second)
  {
    var d1 := GoMod(d, Day);
    GoModNested(d);
    GoModNested(d1);
    assert GoMod(GoMod(d1, Hour), Minute) == GoMod(d, Minute);
  }

  /** A negative duration (a creation time ahead of the clock) has no
      positive unit, so it shows the seconds of its part below a minute,
      between "-59s" and "0s". */
  lemma FormatNegativeDuration(d: int)
    requires d < 0
    ensures FormatDuration(d) == IntToString(GoDiv(GoMod(d, Minute), Second)) + "s"
    ensures -59 <= GoDiv(GoMod(d, Minute), Second) <= 0
  {
    NegativeUnits(d);
  }
}
