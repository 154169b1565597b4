/** Calendar dates as Go's time package handles them with the layout "2006-01-02": the
    full-date form of section 5.6 of RFC 3339 (4-digit year, 2-digit month, 2-digit day),
    with the day bounded by the month's length in the proleptic Gregorian calendar. */
module Dates {
  import opened Wrappers

  datatype Date = Date(year: int, month: int, day: int)

  /** Gregorian leap years (the rule of section 5.7 of RFC 3339). */
  predicate IsLeap(year: int) {
    year % 4 == 0 && (year % 100 != 0 || year % 400 == 0)
  }

  /** Number of days of `month` (1..12) in `year`. */
  function DaysIn(month: int, year: int): (n: int)
    requires 1 <= month <= 12
    ensures 28 <= n <= 31
    ensures month == 2 ==> (n == 29 <==> IsLeap(year))
  {
    if month == 2 then (if IsLeap(year) then 29 else 28)
    else if month == 4 || month == 6 || month == 9 || month == 11 then 30
    else 31
  }

  predicate IsCalendarDate(d: Date) {
    1 <= d.month <= 12 && 1 <= d.day <= DaysIn(d.month, d.year)
  }

  /** The dates a Go time.Time can denote: month and day always in range. */
  type CalendarDate = d: Date | IsCalendarDate(d) witness Date(1970, 1, 1)

  /** A point in time: its calendar day and the nanoseconds elapsed since that day's
      midnight (time zones are not modelled). */
  datatype Instant = Instant(date: CalendarDate, nanos: nat)

  /** Chronological order of dates. */
  predicate DateLe(a: Date, b: Date) {
    a.year < b.year
    || (a.year == b.year && (a.month < b.month || (a.month == b.month && a.day <= b.day)))
  }

  /** Chronological order of instants. */
  predicate InstantLe(a: Instant, b: Instant) {
    DateLe(a.date, b.date) && (a.date == b.date ==> a.nanos <= b.nanos)
  }

  lemma InstantLeTotal(a: Instant, b: Instant)
    ensures InstantLe(a, b) || InstantLe(b, a)
  {
  }

  predicate IsDigit(c: char) {
    '0' <= c <= '9'
  }

  predicate AllDigits(s: string) {
    forall i :: 0 <= i < |s| ==> IsDigit(s[i])
  }

  function DigitChar(n: int): (c: char)
    requires 0 <= n < 10
    ensures IsDigit(c)
  {
    ('0' as int + n) as char
  }

  /** The value of a string of decimal digits. */
  function Num(s: string): nat
    requires AllDigits(s)
  {
    if s == [] then 0 else Num(s[..|s| - 1]) * 10 + (s[|s| - 1] as int - '0' as int)
  }

  /** Go's appendInt for a non-negative value and a width of at least 1 (the only widths
      used): the decimal digits of `n`, left-padded with zeros to at least `width` digits. */
  function PaddedDigits(n: nat, width: nat): (r: string)
    ensures AllDigits(r)
    decreases n + width
  {
    if n == 0 && width == 0 then []
    else PaddedDigits(n / 10, if width > 0 then width - 1 else 0) + [DigitChar(n % 10)]
  }

  function Pow10(k: nat): (p: nat)
    ensures p >= 1
  {
    if k == 0 then 1 else 10 * Pow10(k - 1)
  }

  /** Padding to `width` produces exactly `width` digits iff the value fits in them. */
  lemma {:induction false} PaddedDigitsLength(n: nat, width: nat)
    ensures |PaddedDigits(n, width)| >= width
    ensures |PaddedDigits(n, width)| == width <==> n < Pow10(width)
    decreases n + width
  {
    if n == 0 && width == 0 {
    } else if width > 0 {
      PaddedDigitsLength(n / 10, width - 1);
    } else {
      PaddedDigitsLength(n / 10, 0);
    }
  }

  /** Reading the padded digits back gives the value. */
  lemma {:induction false} NumPaddedDigits(n: nat, width: nat)
    ensures Num(PaddedDigits(n, width)) == n
    decreases n + width
  {
    if n == 0 && width == 0 {
    } else {
      var r := PaddedDigits(n, width);
      var w' := if width > 0 then width - 1 else 0;
      NumPaddedDigits(n / 10, w');
      assert r[..|r| - 1] == PaddedDigits(n / 10, w');
    }
  }

  /** Padding the value of a digit string to its own length gives the string back. */
  lemma {:induction false} PaddedDigitsNum(s: string)
    requires AllDigits(s)
    ensures PaddedDigits(Num(s), |s|) == s
    decreases |s|
  {
    if s != [] {
      var init := s[..|s| - 1];
      PaddedDigitsNum(init);
      var n := Num(s);
      assert n / 10 == Num(init) && n % 10 == s[|s| - 1] as int - '0' as int;
      assert s == init + [s[|s| - 1]];
    }
  }

  /** Go's Format with layout "2006-01-02": the year ('-' for a negative one, and at least
      four digits), then two-digit month and day. */
  function FormatDate(d: CalendarDate): (s: string)
    ensures |s| >= 10 && s[|s| - 6] == '-' && s[|s| - 3] == '-'
    ensures |s| == 10 <==> 0 <= d.year <= 9999
    ensures AllDigits(s[|s| - 5..|s| - 3]) && AllDigits(s[|s| - 2..])
    ensures Num(s[|s| - 5..|s| - 3]) == d.month && Num(s[|s| - 2..]) == d.day
  {
    PaddedDigitsLength(d.month, 2);
    PaddedDigitsLength(d.day, 2);
    NumPaddedDigits(d.month, 2);
    NumPaddedDigits(d.day, 2);
    var y := FormatYear(d.year);
    var s := y + "-" + PaddedDigits(d.month, 2) + "-" + PaddedDigits(d.day, 2);
    assert s[|s| - 5..|s| - 3] == PaddedDigits(d.month, 2);
    assert s[|s| - 2..] == PaddedDigits(d.day, 2);
    s
  }

  /** The year field: at least four digits, preceded by '-' exactly when the year is
      negative. */
  function FormatYear(year: int): (s: string)
    ensures |s| >= 4
    ensures |s| == 4 <==> 0 <= year <= 9999
    ensures year < 0 <==> s[0] == '-'
    ensures year >= 0 ==> AllDigits(s)
  {
    if year < 0 then
      PaddedDigitsLength(-year, 4);
      "-" + PaddedDigits(-year, 4)
    else
      PaddedDigitsLength(year, 4);
      PaddedDigits(year, 4)
  }

  /** Go's time.Parse with layout "2006-01-02": exactly four year digits, '-', two month
      digits, '-', two day digits and nothing else; the month must be 01..12 and the day
      must exist in that month of that year. */
  function ParseDate(s: string): (r: Option<CalendarDate>)
    ensures r.Some? ==> |s| == 10 && 0 <= r.value.year <= 9999
  {
    if |s| == 10 && AllDigits(s[0..4]) && s[4] == '-' && AllDigits(s[5..7]) && s[7] == '-'
       && AllDigits(s[8..10])
    then
      var d := Date(Num(s[0..4]), Num(s[5..7]), Num(s[8..10]));
      NumBound(s[0..4]);
      if IsCalendarDate(d) then Some(d) else None
    else None
  }

  lemma {:induction false} NumBound(s: string)
    requires AllDigits(s)
    ensures Num(s) < Pow10(|s|)
    decreases |s|
  {
    if s != [] {
      NumBound(s[..|s| - 1]);
    }
  }

  /** A well-formed date string is exactly the formatting of the date it parses to. */
  lemma {:induction false} FormatParseDate(s: string)
    requires ParseDate(s).Some?
    ensures FormatDate(ParseDate(s).value) == s
  {
    var d := ParseDate(s).value;
    PaddedDigitsNum(s[0..4]);
    PaddedDigitsNum(s[5..7]);
    PaddedDigitsNum(s[8..10]);
    assert s == s[0..4] + "-" + s[5..7] + "-" + s[8..10];
  }

  /** Formatting a date and parsing it back gives the date exactly when its year has at
      most four digits and no sign; any other year formats to a string the parser refuses. */
  lemma {:induction false} ParseFormatDate(d: CalendarDate)
    ensures ParseDate(FormatDate(d)) == if 0 <= d.year <= 9999 then Some(d) else None
  {
    if 0 <= d.year <= 9999 {
      ParseFormatFourDigitYear(d);
    } else {
      FormatLongYear(d);
    }
  }

  lemma {:induction false} ParseFormatFourDigitYear(d: CalendarDate)
    requires 0 <= d.year <= 9999
    ensures ParseDate(FormatDate(d)) == Some(d)
  {
    var s := FormatDate(d);
    var y := FormatYear(d.year);
    PaddedDigitsLength(d.month, 2);
    PaddedDigitsLength(d.day, 2);
    assert s == y + "-" + PaddedDigits(d.month, 2) + "-" + PaddedDigits(d.day, 2);
    assert s[0..4] == y;
    assert s[5..7] == s[|s| - 5..|s| - 3] && s[8..10] == s[|s| - 2..];
    NumPaddedDigits(d.year, 4);
  }

  lemma {:induction false} FormatLongYear(d: CalendarDate)
    requires !(0 <= d.year <= 9999)
    ensures |FormatDate(d)| > 10
  {
    if d.year > 9999 {
      PaddedDigitsLength(d.year, 4);
    } else {
      PaddedDigitsLength(-d.year, 4);
    }
    PaddedDigitsLength(d.month, 2);
    PaddedDigitsLength(d.day, 2);
  }
}
