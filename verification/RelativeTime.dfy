/**
  `GetLastRunText`: the "how long ago" phrase for a build's start time. Parsing the
  timestamp and reading the clock happen outside the model. The input is the signed number
  of whole seconds between the UTC clock and the parsed start, or `None` when the start date
  is missing or does not parse. The parse converts the start to the host's local time, so on
  a host whose zone is not UTC the input is the true age minus the host's UTC offset
  (five hours too much at UTC-5).
 */
module RelativeTime {
  import opened Wrappers
  import opened Text

  const Minute: int := 60
  const Hour: int := 60 * Minute
  const Day: int := 24 * Hour
  const Month: int := 30 * Day
  const Year: int := 365 * Day

  function Abs(x: int): nat {
    if x < 0 then -x else x
  }

  /** Division truncating toward zero, as the components of a `TimeSpan` do. */
  function Quot(a: int, b: int): int
    requires b > 0
  {
    if a >= 0 then a / b else -((-a) / b)
  }

  function Rem(a: int, b: int): int
    requires b > 0
  {
    a - b * Quot(a, b)
  }

  /**
    `TimeSpan.Seconds`, `.Minutes`, `.Hours` and `.Days` of a span of `d` seconds: each is
    the component of the absolute span, and a nonzero component carries the span's sign.
   */
  function SecondsPart(d: int): (r: int)
    ensures Abs(r) == Abs(d) % 60
    ensures r != 0 ==> (r < 0 <==> d < 0)
  {
    Rem(d, 60)
  }

  function MinutesPart(d: int): (r: int)
    ensures Abs(r) == (Abs(d) / Minute) % 60
    ensures r != 0 ==> (r < 0 <==> d < 0)
  {
    Rem(Quot(d, Minute), 60)
  }

  function HoursPart(d: int): (r: int)
    ensures Abs(r) == (Abs(d) / Hour) % 24
    ensures r != 0 ==> (r < 0 <==> d < 0)
  {
    Rem(Quot(d, Hour), 24)
  }

  function DaysPart(d: int): (r: int)
    ensures Abs(r) == Abs(d) / Day
    ensures r != 0 ==> (r < 0 <==> d < 0)
  {
    Quot(d, Day)
  }

  /**
    The phrase for a span of `elapsed` seconds. Buckets are chosen on the absolute span,
    the printed counts are the signed `TimeSpan` components; months and years floor the
    day count (Dafny's `/` by a positive divisor is floor division).
   */
  function LastRunText(elapsed: Option<int>): (r: string)
    ensures r == "" <==> elapsed.None?
  {
    match elapsed
    case None => ""
    case Some(d) =>
      var delta := Abs(d);
      if delta < Minute then
        (if SecondsPart(d) == 1 then "one second ago" else IntToString(SecondsPart(d)) + " seconds ago")
      else if delta < 2 * Minute then "a minute ago"
      else if delta < 45 * Minute then IntToString(MinutesPart(d)) + " minutes ago"
      else if delta < 90 * Minute then "an hour ago"
      else if delta < 24 * Hour then IntToString(HoursPart(d)) + " hours ago"
      else if delta < 48 * Hour then "yesterday"
      else if delta < 30 * Day then IntToString(DaysPart(d)) + " days ago"
      else if delta < 12 * Month then
        var months := DaysPart(d) / 30;
        if months <= 1 then "one month ago" else IntToString(months) + " months ago"
      else
        var years := DaysPart(d) / 365;
        if years <= 1 then "one year ago" else IntToString(years) + " years ago"
  }

  // ---------------------------------------------------------------------------
  // Reading a phrase back as the range of spans it claims.

  /** The half-open range of spans `[lo, hi)` in seconds. */
  datatype Interval = Interval(lo: int, hi: int)

  /** The number of digits at the start of `s`. */
  function LeadingDigits(s: string): (k: nat)
    ensures k <= |s| && AllDigits(s[..k])
    decreases |s|
  {
    if s != [] && IsDigit(s[0]) then
      var k := 1 + LeadingDigits(s[1..]);
      assert s[..k] == [s[0]] + s[1..][..k - 1];
      k
    else 0
  }

  function Scaled(n: nat, unit: int): Interval {
    Interval(n * unit, (n + 1) * unit)
  }

  /** The length of one unit of a counted phrase's unit word, in seconds. */
  function UnitScale(unit: string): Option<int> {
    if unit == " seconds ago" then Some(1)
    else if unit == " minutes ago" then Some(Minute)
    else if unit == " hours ago" then Some(Hour)
    else if unit == " days ago" then Some(Day)
    else if unit == " months ago" then Some(Month)
    else if unit == " years ago" then Some(Year)
    else Option.None
  }

  /** The spans a phrase claims, for a start time in the past; `None` for a text no span produces. */
  function ReadBack(text: string): Option<Interval> {
    var k := LeadingDigits(text);
    if k > 0 then
      match UnitScale(text[k..])
      case Some(unit) => Some(Scaled(DecimalValue(text[..k]), unit))
      case None => Option.None
    else if text == "one second ago" then Some(Interval(1, 2))
    else if text == "a minute ago" then Some(Interval(Minute, 2 * Minute))
    else if text == "an hour ago" then Some(Interval(45 * Minute, 90 * Minute))
    else if text == "yesterday" then Some(Interval(Day, 2 * Day))
    else if text == "one month ago" then Some(Interval(Month, 2 * Month))
    else if text == "one year ago" then Some(Interval(12 * Month, 2 * Year))
    else Option.None
  }

  lemma {:induction false} LeadingDigitsAppend(x: string, y: string)
    requires AllDigits(x)
    ensures LeadingDigits(x + y) == |x| + LeadingDigits(y)
    decreases |x|
  {
    if x != [] {
      assert (x + y)[0] == x[0] && IsDigit(x[0]);
      assert (x + y)[1..] == x[1..] + y;
      LeadingDigitsAppend(x[1..], y);
    } else {
      assert x + y == y;
    }
  }

  /** A number followed by a unit word reads back as that many units. */
  lemma CountReadsBack(n: nat, unit: string)
    requires |unit| > 0 && !IsDigit(unit[0]) && UnitScale(unit).Some?
    ensures ReadBack(NatToString(n) + unit) == Some(Scaled(n, UnitScale(unit).value))
  {
    var digits := NatToString(n);
    var text := digits + unit;
    LeadingDigitsAppend(digits, unit);
    assert LeadingDigits(unit) == 0;
    assert text[..|digits|] == digits;
    assert text[|digits|..] == unit;
    DecimalRoundTrip(n);
  }

  /** The span lies in the range `iv` claims. */
  predicate Covers(iv: Option<Interval>, d: int) {
    iv.Some? && iv.value.lo <= d < iv.value.hi
  }

  // The phrase of each counted bucket, for a start time in the past.

  lemma SecondsText(d: nat)
    requires d < Minute && d != 1
    ensures LastRunText(Some(d)) == NatToString(d) + " seconds ago"
  {
    assert Quot(d, 60) == 0;
    assert SecondsPart(d) == d;
  }

  lemma MinutesText(d: nat)
    requires 2 * Minute <= d < 45 * Minute
    ensures LastRunText(Some(d)) == NatToString(d / Minute) + " minutes ago"
  {
    assert MinutesPart(d) == d / Minute;
  }

  lemma HoursText(d: nat)
    requires 90 * Minute <= d < 24 * Hour
    ensures LastRunText(Some(d)) == NatToString(d / Hour) + " hours ago"
  {
    assert HoursPart(d) == d / Hour;
  }

  lemma DaysText(d: nat)
    requires 48 * Hour <= d < 30 * Day
    ensures LastRunText(Some(d)) == NatToString(d / Day) + " days ago"
  {
    assert DaysPart(d) == d / Day;
  }

  // The fixed phrases, for a start time in the past or in the future.

  /** From one minute up to two the phrase is "a minute ago". */
  lemma MinuteText(d: int)
    requires Minute <= Abs(d) < 2 * Minute
    ensures LastRunText(Some(d)) == "a minute ago"
  {
  }

  /** From 45 minutes up to 90 the phrase is "an hour ago". */
  lemma AnHourText(d: int)
    requires 45 * Minute <= Abs(d) < 90 * Minute
    ensures LastRunText(Some(d)) == "an hour ago"
  {
  }

  /** From one day up to two the phrase is "yesterday". */
  lemma YesterdayText(d: int)
    requires 24 * Hour <= Abs(d) < 48 * Hour
    ensures LastRunText(Some(d)) == "yesterday"
  {
  }

  /** The month count of a span of at least 30 days is its number of whole 30-day months. */
  lemma MonthCount(d: nat)
    requires 30 * Day <= d
    ensures var n := DaysPart(d) / 30; n * Month <= d < (n + 1) * Month
  {
    assert DaysPart(d) == d / Day;
  }

  /** The year count of a span is its number of whole 365-day years. */
  lemma YearCount(d: nat)
    ensures var n := DaysPart(d) / 365; n * Year <= d < (n + 1) * Year
  {
    assert DaysPart(d) == d / Day;
  }

  lemma MonthsText(d: nat)
    requires 30 * Day <= d < 12 * Month
    ensures var n := DaysPart(d) / 30;
            LastRunText(Some(d)) == if n <= 1 then "one month ago" else NatToString(n) + " months ago"
  {
    assert DaysPart(d) >= 0;
  }

  lemma YearsText(d: nat)
    requires 12 * Month <= d
    ensures var n := DaysPart(d) / 365;
            LastRunText(Some(d)) == if n <= 1 then "one year ago" else NatToString(n) + " years ago"
  {
    assert DaysPart(d) >= 0;
  }

  // Each counted phrase reads back as a range holding the span it was made for.

  lemma CountedPhraseCovers(d: nat, unit: string, scale: int)
    requires |unit| > 0 && !IsDigit(unit[0]) && UnitScale(unit) == Some(scale) && scale > 0
    requires (d / scale) * scale <= d < (d / scale + 1) * scale
    ensures Covers(ReadBack(NatToString(d / scale) + unit), d)
  {
    CountReadsBack(d / scale, unit);
  }

  lemma HoursPhraseCovers(d: nat)
    ensures Covers(ReadBack(NatToString(d / Hour) + " hours ago"), d)
  {
    assert UnitScale(" hours ago") == Some(Hour);
    CountedPhraseCovers(d, " hours ago", Hour);
  }

  lemma MinutesPhraseCovers(d: nat)
    ensures Covers(ReadBack(NatToString(d / Minute) + " minutes ago"), d)
  {
    assert UnitScale(" minutes ago") == Some(Minute);
    CountedPhraseCovers(d, " minutes ago", Minute);
  }

  lemma DaysPhraseCovers(d: nat)
    ensures Covers(ReadBack(NatToString(d / Day) + " days ago"), d)
  {
    assert UnitScale(" days ago") == Some(Day);
    CountedPhraseCovers(d, " days ago", Day);
  }

  lemma SecondsPhraseCovers(d: nat)
    ensures Covers(ReadBack(NatToString(d) + " seconds ago"), d)
  {
    assert UnitScale(" seconds ago") == Some(1);
    CountReadsBack(d, " seconds ago");
  }

  lemma MonthsPhraseCovers(d: nat)
    requires 30 * Day <= d < 12 * Month
    ensures var n := DaysPart(d) / 30;
            Covers(ReadBack(if n <= 1 then "one month ago" else NatToString(n) + " months ago"), d)
  {
    var n := DaysPart(d) / 30;
    MonthCount(d);
    if n > 1 {
      assert UnitScale(" months ago") == Some(Month);
      CountReadsBack(n, " months ago");
    }
  }

  lemma YearsPhraseCovers(d: nat)
    requires 12 * Month <= d
    ensures var n := DaysPart(d) / 365;
            Covers(ReadBack(if n <= 1 then "one year ago" else NatToString(n) + " years ago"), d)
  {
    var n := DaysPart(d) / 365;
    YearCount(d);
    if n > 1 {
      assert UnitScale(" years ago") == Some(Year);
      CountReadsBack(n, " years ago");
    }
  }

  /**
    Every phrase for a start time in the past is truthful: reading it back gives a range
    that contains the actual span.
   */
  lemma LastRunTextIsTruthful(d: nat)
    ensures Covers(ReadBack(LastRunText(Some(d))), d)
  {
    if d < Minute {
      if d != 1 {
        SecondsText(d);
        SecondsPhraseCovers(d);
      }
    } else if d < 2 * Minute {
    } else if d < 45 * Minute {
      MinutesText(d);
      MinutesPhraseCovers(d);
    } else if d < 90 * Minute {
    } else if d < 24 * Hour {
      HoursText(d);
      HoursPhraseCovers(d);
    } else if d < 48 * Hour {
    } else if d < 30 * Day {
      DaysText(d);
      DaysPhraseCovers(d);
    } else if d < 12 * Month {
      MonthsText(d);
      MonthsPhraseCovers(d);
    } else {
      YearsText(d);
      YearsPhraseCovers(d);
    }
  }

  /** Under a minute, in either direction, the count is the signed seconds, except for exactly one second. */
  lemma UnderAMinuteCountsSeconds(d: int)
    requires -Minute < d < Minute && d != 1
    ensures LastRunText(Some(d)) == IntToString(d) + " seconds ago"
  {
    var s := SecondsPart(d);
    assert s == d;
    assert s != 1;
  }

  /** Exactly one second has its own singular phrase. */
  lemma OneSecondBoundary()
    ensures LastRunText(Some(1)) == "one second ago"
  {
  }

  /** Ninety minutes has left the "an hour ago" bucket and reads "1 hours ago". */
  lemma NinetyMinutesBoundary()
    ensures LastRunText(Some(90 * Minute)) == "1 hours ago"
  {
    assert HoursPart(90 * Minute) == 1;
    assert IntToString(1) == "1" by {
      assert DigitChar(1) == '1';
    }
  }

  /** One second short of ninety minutes is still "an hour ago". */
  lemma JustUnderNinetyMinutes()
    ensures LastRunText(Some(90 * Minute - 1)) == "an hour ago"
  {
  }

  /** A start time in the future prints the signed component: five seconds ahead reads "-5 seconds ago". */
  lemma FutureStartBoundary()
    ensures LastRunText(Some(-5)) == "-5 seconds ago"
  {
  }
}
