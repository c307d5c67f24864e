/** utils/utils.go: whole hours and calendar days between two instants, and
    the "<n>m" / "<n>h" / "<n>d" duration parser.

    An instant is an integer count of nanoseconds since Go's zero time
    (1 January of year 1, UTC); a duration is an integer count of
    nanoseconds, as Go's `time.Duration` is. */
module TimeUtils {
  import opened Wrappers
  import opened GoNumbers
  import opened GoStrings

  type Instant = int
  type Duration = int

  const Minute: Duration := 60_000_000_000
  const Hour: Duration := 60 * Minute
  const Day: Duration := 24 * Hour

  /** `end.Sub(start)`: Go saturates the difference to the int64 range. */
  function Sub(end: Instant, start: Instant): (d: Duration)
    ensures InInt64(d)
    ensures InInt64(end - start) ==> d == end - start
  {
    Clamp64(end - start)
  }

  /** `HoursBetween(start, end)`: `int(end.Sub(start).Hours())`, the elapsed
      time in whole hours, truncated toward zero. */
  function HoursBetween(start: Instant, end: Instant): (h: int)
    ensures var d := Sub(end, start);
      (d >= 0 ==> 0 <= h && h * Hour <= d < (h + 1) * Hour) &&
      (d < 0 ==> h <= 0 && (h - 1) * Hour < d <= h * Hour)
  {
    Quo(Sub(end, start), Hour)
  }

  /** Equal instants are zero hours apart. */
  lemma HoursBetweenSame(t: Instant)
    ensures HoursBetween(t, t) == 0
  {
  }

  /** An end at least an hour before the start gives a negative count; an end
      before the start by less than an hour still gives 0. */
  lemma HoursBetweenBackwards(start: Instant, end: Instant)
    requires InInt64(end - start)
    ensures end <= start - Hour ==> HoursBetween(start, end) < 0
    ensures start - Hour < end <= start ==> HoursBetween(start, end) == 0
  {
  }

  /** With `start <= end` the hour count is never negative, so `hours + 1`,
      the velocity denominator, is at least 1. */
  lemma HoursBetweenOrdered(start: Instant, end: Instant)
    requires start <= end
    ensures HoursBetween(start, end) >= 0
    ensures HoursBetween(start, end) + 1 >= 1
  {
  }

  /** `t.Truncate(24 * time.Hour)`: the instant rounded down to a multiple of
      24 hours since the zero time. */
  function TruncateToDay(t: Instant): (r: Instant)
    ensures r <= t < r + Day
    ensures r % Day == 0
  {
    t - t % Day
  }

  /** `CalendarDaysBetween(start, end)`: both instants are first floored to a
      24-hour boundary, then the difference is counted in whole days. */
  function CalendarDaysBetween(start: Instant, end: Instant): (days: int)
    ensures var d := Sub(TruncateToDay(end), TruncateToDay(start));
      InInt64(TruncateToDay(end) - TruncateToDay(start)) ==> days * Day == d
  {
    Quo(Sub(TruncateToDay(end), TruncateToDay(start)), Day)
  }

  /** Two instants in the same 24-hour period are 0 calendar days apart, and
      the count of days is exact for whole days. */
  lemma CalendarDaysSameDay(start: Instant, end: Instant)
    requires TruncateToDay(start) == TruncateToDay(end)
    ensures CalendarDaysBetween(start, end) == 0
  {
  }

  lemma {:induction false} CalendarDaysAfterWholeDays(start: Instant, n: int)
    requires InInt64(n * Day)
    ensures CalendarDaysBetween(start, start + n * Day) == n
  {
    var s := TruncateToDay(start);
    assert (start + n * Day) % Day == start % Day by {
      assert start + n * Day == n * Day + start;
    }
    assert TruncateToDay(start + n * Day) - s == n * Day;
  }

  datatype ParseTimeError = UnsupportedInputFormat | NotANumber(cause: NumError)

  function UnitOf(c: char): Option<Duration>
  {
    if c == 'm' then Some(Minute)
    else if c == 'h' then Some(Hour)
    else if c == 'd' then Some(Day)
    else None
  }

  /** `ParseTimeString(input)`: the final character picks the unit (minute,
      hour or 24 hours), the rest must pass `strconv.Atoi`; the product is
      an int64 multiplication and wraps. */
  function ParseTimeString(input: string): (r: Result<Duration, ParseTimeError>)
    ensures input == [] || UnitOf(input[|input| - 1]).None? ==> r == Err(UnsupportedInputFormat)
    ensures r.Ok? ==>
              && input != [] && UnitOf(input[|input| - 1]).Some?
              && Atoi(input[..|input| - 1]).Ok?
              && r.value == Wrap64(Atoi(input[..|input| - 1]).value * UnitOf(input[|input| - 1]).value)
    ensures input != [] && UnitOf(input[|input| - 1]).Some? && Atoi(input[..|input| - 1]).Err? ==>
              r == Err(NotANumber(Atoi(input[..|input| - 1]).error))
  {
    var multiplier :=
      if HasSuffix(input, "m") then Some(Minute)
      else if HasSuffix(input, "h") then Some(Hour)
      else if HasSuffix(input, "d") then Some(Day)
      else None;
    if multiplier.None? then Err(UnsupportedInputFormat)
    else
      var numericPart := TrimSuffix(input, [input[|input| - 1]]);
      assert numericPart == input[..|input| - 1];
      assert multiplier == UnitOf(input[|input| - 1]);
      match Atoi(numericPart)
      case Err(e) => Err(NotANumber(e))
      case Ok(val) => Ok(Wrap64(val * multiplier.value))
  }

  /** A number followed by a unit letter parses to that many units. */
  lemma ParseTimeStringUnits(n: string, unit: char)
    requires Atoi(n).Ok? && UnitOf(unit).Some?
    ensures ParseTimeString(n + [unit]) == Ok(Wrap64(Atoi(n).value * UnitOf(unit).value))
  {
    assert (n + [unit])[..|n|] == n;
  }

  /** Within the int64 range the result is exactly n times the unit. */
  lemma ParseTimeStringExact(n: string, unit: char)
    requires Atoi(n).Ok? && UnitOf(unit).Some?
    requires InInt64(Atoi(n).value * UnitOf(unit).value)
    ensures ParseTimeString(n + [unit]) == Ok(Atoi(n).value * UnitOf(unit).value)
  {
    ParseTimeStringUnits(n, unit);
  }

  /** A unit letter with no number is rejected by `Atoi`; a missing or
      unknown unit letter is an unsupported format. */
  lemma ParseTimeStringRejects()
    ensures ParseTimeString("m") == Err(NotANumber(ErrSyntax))
    ensures ParseTimeString("") == Err(UnsupportedInputFormat)
    ensures ParseTimeString("5s") == Err(UnsupportedInputFormat)
  {
  }

  /** A fractional number is rejected by `Atoi`. */
  lemma ParseTimeStringRejectsFraction()
    ensures ParseTimeString("1.5h").Err?
  {
    assert !AllDigits("1.5") by {
      assert !IsDigit("1.5"[1]);
    }
  }

  /** An amount whose digits overflow before a stray character is Atoi's
      range error, not its syntax error ("99999999999999999999xm"). */
  lemma ParseTimeStringOverflow(d: string, rest: string, unit: char)
    requires AllDigits(d) && DigitsValue(d) > MaxUint64
    requires rest != [] && !IsDigit(rest[0]) && UnitOf(unit).Some?
    ensures ParseTimeString(d + rest + [unit]) == Err(NotANumber(ErrRange))
  {
    OverflowBeforeSyntax(d, rest);
    assert (d + rest + [unit])[..|d + rest|] == d + rest;
  }

  /** A negative number is accepted. */
  lemma ParseTimeStringNegative()
    ensures ParseTimeString("-5m") == Ok(-5 * Minute)
  {
    assert "-5m"[..2] == "-5";
    assert "-5"[1..] == "5";
    assert DigitsValue("5") == 5 by {
      assert "5"[..0] == "";
    }
  }
}
