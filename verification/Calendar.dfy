/** The proleptic Gregorian calendar of section 21.4.1 of ECMA-262, and the chart's date buckets. */
module Calendar {
  import opened Text

  // ---------- day numbers ----------

  predicate Leap(y: int) { y % 4 == 0 && (y % 100 != 0 || y % 400 == 0) }

  function DaysInYear(y: int): int { if Leap(y) then 366 else 365 }

  function DaysInMonth(y: int, m: int): int {
    if m == 2 then (if Leap(y) then 29 else 28)
    else if m == 4 || m == 6 || m == 9 || m == 11 then 30
    else 31
  }

  /** `DayFromYear`: the day number of the first of January, counted from 1970. */
  function DayFromYear(y: int): int {
    365 * (y - 1970) + (y - 1969) / 4 - (y - 1901) / 100 + (y - 1601) / 400
  }

  /** Days of the year before month `m`. */
  function DaysBefore(y: int, m: int): int
    requires 1 <= m <= 13
  {
    if m == 1 then 0 else DaysBefore(y, m - 1) + DaysInMonth(y, m - 1)
  }

  datatype Date = Date(year: int, month: int, day: int) {
    predicate Valid() { 1 <= month <= 12 && 1 <= day <= DaysInMonth(year, month) }
  }

  function DayNumber(d: Date): int
    requires d.Valid()
  {
    DayFromYear(d.year) + DaysBefore(d.year, d.month) + d.day - 1
  }

  /** `WeekDay`: 0 is Sunday; 1 January 1970 was a Thursday. */
  function WeekDay(day: int): (w: int)
    ensures 0 <= w < 7
  {
    (day + 4) % 7
  }

  /** The last year, from `y` on, that starts no later than the day. */
  function YearFrom(day: int, y: int): (r: int)
    requires DayFromYear(y) <= day
    ensures DayFromYear(r) <= day < DayFromYear(r + 1)
    decreases day - DayFromYear(y)
  {
    YearStep(y);
    if day < DayFromYear(y + 1) then y else YearFrom(day, y + 1)
  }

  function YearOf(day: int): (r: int)
    ensures DayFromYear(r) <= day < DayFromYear(r + 1)
  {
    if day >= 0 then YearFrom(day, 1970) else YearFrom(day, 1970 + day)
  }

  /** The month, from `m` on, that holds the day of the year. */
  function MonthFrom(y: int, dayOfYear: int, m: int): (r: int)
    requires 1 <= m <= 12 && DaysBefore(y, m) <= dayOfYear < DaysInYear(y)
    ensures m <= r <= 12 && DaysBefore(y, r) <= dayOfYear < DaysBefore(y, r + 1)
    decreases 12 - m
  {
    YearLength(y);
    if dayOfYear < DaysBefore(y, m + 1) then m else MonthFrom(y, dayOfYear, m + 1)
  }

  /** The date with a place in its year. */
  function DateIn(y: int, dayOfYear: int): (d: Date)
    requires 0 <= dayOfYear < DaysInYear(y)
    ensures d.Valid()
  {
    var m := MonthFrom(y, dayOfYear, 1);
    Date(y, m, dayOfYear - DaysBefore(y, m) + 1)
  }

  /** The day of its year, in its year. */
  function DayOfYear(day: int): (n: int)
    ensures 0 <= n < DaysInYear(YearOf(day))
  {
    YearStep(YearOf(day));
    day - DayFromYear(YearOf(day))
  }

  /** The date of a day number, as `setDate` computes it. */
  function DateOf(day: int): (d: Date)
    ensures d.Valid()
  {
    DateIn(YearOf(day), DayOfYear(day))
  }

  /** The calendar successor, by the lengths of the months: the reference for day numbers. */
  function Tomorrow(d: Date): (r: Date)
    requires d.Valid()
    ensures r.Valid()
  {
    if d.day < DaysInMonth(d.year, d.month) then d.(day := d.day + 1)
    else if d.month < 12 then Date(d.year, d.month + 1, 1)
    else Date(d.year + 1, 1, 1)
  }

  lemma Fourth(y: int)
    ensures (y - 1968) / 4 - (y - 1969) / 4 == if y % 4 == 0 then 1 else 0
  {}

  lemma Hundredth(y: int)
    ensures (y - 1900) / 100 - (y - 1901) / 100 == if y % 100 == 0 then 1 else 0
  {}

  lemma FourHundredth(y: int)
    ensures (y - 1600) / 400 - (y - 1601) / 400 == if y % 400 == 0 then 1 else 0
  {}

  lemma Of100(n: int)
    ensures 100 * n % 100 == 0
  {}

  lemma Of4(n: int)
    ensures 4 * n % 4 == 0
  {}

  lemma Centuries(y: int)
    ensures (y % 400 == 0 ==> y % 100 == 0) && (y % 100 == 0 ==> y % 4 == 0)
  {
    if y % 400 == 0 {
      var q := y / 400;
      assert y == 100 * (4 * q);
      Of100(4 * q);
    }
    if y % 100 == 0 {
      var q := y / 100;
      assert y == 4 * (25 * q);
      Of4(25 * q);
    }
  }

  /** Consecutive years start one year apart, so `DayFromYear` follows the leap rule. */
  lemma YearStep(y: int)
    ensures DayFromYear(y + 1) - DayFromYear(y) == DaysInYear(y)
  {
    Fourth(y);
    Hundredth(y);
    FourHundredth(y);
    Centuries(y);
    assert DayFromYear(y + 1) == 365 * (y - 1969) + (y - 1968) / 4 - (y - 1900) / 100 + (y - 1600) / 400;
  }

  lemma YearLength(y: int)
    ensures DaysBefore(y, 13) == DaysInYear(y)
  {
    var leap := if Leap(y) then 1 else 0;
    assert DaysBefore(y, 2) == 31;
    assert DaysBefore(y, 3) == 59 + leap;
    assert DaysBefore(y, 4) == 90 + leap;
    assert DaysBefore(y, 5) == 120 + leap;
    assert DaysBefore(y, 6) == 151 + leap;
    assert DaysBefore(y, 7) == 181 + leap;
    assert DaysBefore(y, 8) == 212 + leap;
    assert DaysBefore(y, 9) == 243 + leap;
    assert DaysBefore(y, 10) == 273 + leap;
    assert DaysBefore(y, 11) == 304 + leap;
    assert DaysBefore(y, 12) == 334 + leap;
  }

  lemma {:induction false} MonthsGrow(y: int, a: int, b: int)
    requires 1 <= a <= b <= 13
    ensures DaysBefore(y, a) + 28 * (b - a) <= DaysBefore(y, b)
  {
    if a < b { MonthsGrow(y, a, b - 1); }
  }

  lemma {:induction false} YearsGrow(a: int, b: int)
    requires a <= b
    ensures DayFromYear(a) + 365 * (b - a) <= DayFromYear(b)
    decreases b - a
  {
    if a < b {
      YearsGrow(a, b - 1);
      YearStep(b - 1);
    }
  }

  lemma DayOfYearBounds(d: Date)
    requires d.Valid()
    ensures DayFromYear(d.year) <= DayNumber(d) < DayFromYear(d.year + 1)
  {
    YearStep(d.year);
    YearLength(d.year);
    MonthsGrow(d.year, 1, d.month);
    MonthsGrow(d.year, d.month + 1, 13);
  }

  /** Day numbers follow the calendar: the next date has the next number, across months, years and leap days. */
  lemma TomorrowIsNext(d: Date)
    requires d.Valid()
    ensures DayNumber(Tomorrow(d)) == DayNumber(d) + 1
  {
    YearStep(d.year);
    YearLength(d.year);
  }

  lemma SameYear(day: int, a: int, b: int)
    requires DayFromYear(a) <= day < DayFromYear(a + 1)
    requires DayFromYear(b) <= day < DayFromYear(b + 1)
    ensures a == b
  {
    if a < b { YearsGrow(a + 1, b); }
    if b < a { YearsGrow(b + 1, a); }
  }

  lemma SameMonth(y: int, dayOfYear: int, a: int, b: int)
    requires 1 <= a <= 12 && 1 <= b <= 12
    requires DaysBefore(y, a) <= dayOfYear < DaysBefore(y, a + 1)
    requires DaysBefore(y, b) <= dayOfYear < DaysBefore(y, b + 1)
    ensures a == b
  {
    if a < b { MonthsGrow(y, a + 1, b); }
    if b < a { MonthsGrow(y, b + 1, a); }
  }

  lemma OnlyYear(day: int, y: int)
    requires DayFromYear(y) <= day < DayFromYear(y + 1)
    ensures YearOf(day) == y
  {
    SameYear(day, YearOf(day), y);
  }

  lemma YearOfDate(d: Date)
    requires d.Valid()
    ensures YearOf(DayNumber(d)) == d.year
  {
    DayOfYearBounds(d);
    OnlyYear(DayNumber(d), d.year);
  }

  lemma PlaceInYear(d: Date, day: int)
    requires d.Valid() && day == DayNumber(d) && YearOf(day) == d.year
    ensures DayOfYear(day) == DaysBefore(d.year, d.month) + d.day - 1
  {}

  lemma MonthOfDate(d: Date, dayOfYear: int)
    requires d.Valid() && dayOfYear == DaysBefore(d.year, d.month) + d.day - 1
    ensures 0 <= dayOfYear < DaysInYear(d.year) && DateIn(d.year, dayOfYear) == d
  {
    YearLength(d.year);
    MonthsGrow(d.year, 1, d.month);
    MonthsGrow(d.year, d.month + 1, 13);
    SameMonth(d.year, dayOfYear, MonthFrom(d.year, dayOfYear, 1), d.month);
  }

  /** Dates and day numbers correspond one to one. */
  lemma DateRoundTrip(d: Date)
    requires d.Valid()
    ensures DateOf(DayNumber(d)) == d
  {
    YearOfDate(d);
    PlaceInYear(d, DayNumber(d));
    MonthOfDate(d, DayOfYear(DayNumber(d)));
  }

  lemma DayRoundTrip(day: int)
    ensures DayNumber(DateOf(day)) == day
  {}

  // ---------- moments and buckets ----------

  /** A point in local time, to the hour. */
  datatype Moment = Moment(date: Date, hour: int) {
    predicate Valid() { date.Valid() && 0 <= hour < 24 }
  }

  datatype DateGrouping = Hour | Day | Week | Month | Year

  /** `d.setDate(d.getDate() - d.getDay())` */
  function WeekStart(d: Date): (r: Date)
    requires d.Valid()
    ensures r.Valid()
  {
    DateOf(DayNumber(d) - WeekDay(DayNumber(d)))
  }

  function YearText(d: Date): string { IntText(d.year) }

  function MonthText(d: Date): string
    requires d.Valid()
  { YearText(d) + "-" + Pad2(d.month) }

  function DayText(d: Date): string
    requires d.Valid()
  { MonthText(d) + "-" + Pad2(d.day) }

  /** The label of the bucket a moment falls into. */
  function BucketKey(m: Moment, g: DateGrouping): string
    requires m.Valid()
  {
    match g
    case Hour => DayText(m.date) + " " + Pad2(m.hour) + ":00"
    case Day => DayText(m.date)
    case Week => "W" + DayText(WeekStart(m.date))
    case Month => MonthText(m.date)
    case Year => YearText(m.date)
  }

  lemma SamePrefix(a: string, b: string, s: string, t: string)
    requires |s| == |t| && a + s == b + t
    ensures a == b && s == t
  {
    assert |a| == |b|;
    assert (a + s)[..|a|] == a && (b + t)[..|b|] == b;
    assert (a + s)[|a|..] == s && (b + t)[|b|..] == t;
  }

  lemma MonthTextInjective(a: Date, b: Date)
    requires a.Valid() && b.Valid() && MonthText(a) == MonthText(b)
    ensures a.year == b.year && a.month == b.month
  {
    Pad2ReadsBack(a.month);
    Pad2ReadsBack(b.month);
    SamePrefix(YearText(a) + "-", YearText(b) + "-", Pad2(a.month), Pad2(b.month));
    SamePrefix(YearText(a), YearText(b), "-", "-");
    IntTextInjective(a.year, b.year);
  }

  lemma DayTextInjective(a: Date, b: Date)
    requires a.Valid() && b.Valid() && DayText(a) == DayText(b)
    ensures a == b
  {
    Pad2ReadsBack(a.day);
    Pad2ReadsBack(b.day);
    SamePrefix(MonthText(a) + "-", MonthText(b) + "-", Pad2(a.day), Pad2(b.day));
    SamePrefix(MonthText(a), MonthText(b), "-", "-");
    MonthTextInjective(a, b);
  }

  lemma HourTextSplits(a: Moment, b: Moment)
    requires a.Valid() && b.Valid() && BucketKey(a, Hour) == BucketKey(b, Hour)
    ensures DayText(a.date) == DayText(b.date) && a.hour == b.hour
  {
    Pad2ReadsBack(a.hour);
    Pad2ReadsBack(b.hour);
    SamePrefix(DayText(a.date) + " " + Pad2(a.hour), DayText(b.date) + " " + Pad2(b.hour), ":00", ":00");
    SamePrefix(DayText(a.date) + " ", DayText(b.date) + " ", Pad2(a.hour), Pad2(b.hour));
    SamePrefix(DayText(a.date), DayText(b.date), " ", " ");
  }

  /** A bucket of one size lies inside one bucket of every coarser size that nests with it. */
  predicate Coarser(fine: DateGrouping, coarse: DateGrouping) {
    fine == coarse || fine == Hour || (fine == Day && coarse != Hour) || (fine == Month && coarse == Year)
  }

  /** Two moments share a bucket exactly when the calendar says so: same hour, day, week (the same
      Sunday starts it), month or year. */
  predicate SameBucket(a: Moment, b: Moment, g: DateGrouping)
    requires a.Valid() && b.Valid()
  {
    match g
    case Hour => a == b
    case Day => a.date == b.date
    case Week => WeekStart(a.date) == WeekStart(b.date)
    case Month => a.date.year == b.date.year && a.date.month == b.date.month
    case Year => a.date.year == b.date.year
  }

  lemma KeysAreExact(a: Moment, b: Moment, g: DateGrouping)
    requires a.Valid() && b.Valid()
    ensures BucketKey(a, g) == BucketKey(b, g) <==> SameBucket(a, b, g)
  {
    if BucketKey(a, g) == BucketKey(b, g) {
      match g {
        case Hour => HourTextSplits(a, b); DayTextInjective(a.date, b.date);
        case Day => DayTextInjective(a.date, b.date);
        case Week =>
          assert ("W" + DayText(WeekStart(a.date)))[1..] == DayText(WeekStart(a.date));
          assert ("W" + DayText(WeekStart(b.date)))[1..] == DayText(WeekStart(b.date));
          DayTextInjective(WeekStart(a.date), WeekStart(b.date));
        case Month => MonthTextInjective(a.date, b.date);
        case Year => IntTextInjective(a.date.year, b.date.year);
      }
    }
  }

  /** Equal labels at one size imply equal labels at every coarser nesting size: hour, day, then
      week, month and year, and month, year. */
  lemma FinerKeyDecidesCoarser(a: Moment, b: Moment, fine: DateGrouping, coarse: DateGrouping)
    requires a.Valid() && b.Valid() && Coarser(fine, coarse)
    requires BucketKey(a, fine) == BucketKey(b, fine)
    ensures BucketKey(a, coarse) == BucketKey(b, coarse)
  {
    KeysAreExact(a, b, fine);
    KeysAreExact(a, b, coarse);
  }

  lemma DatesByNumber(a: Date, b: Date)
    requires a.Valid() && b.Valid()
    ensures a == b <==> DayNumber(a) == DayNumber(b)
  {
    DateRoundTrip(a);
    DateRoundTrip(b);
  }

  lemma WeekStartNumber(d: Date)
    requires d.Valid()
    ensures DayNumber(WeekStart(d)) == DayNumber(d) - WeekDay(DayNumber(d))
  {
    DayRoundTrip(DayNumber(d) - WeekDay(DayNumber(d)));
  }

  /** Weeks of day numbers. */
  lemma SevenDays(n: int, k: int, a: int, b: int)
    requires a == n - WeekDay(n) && b == k - WeekDay(k)
    ensures WeekDay(a) == 0 && (a == b <==> a <= k < a + 7)
  {}

  /** The week label dates a Sunday, 0 to 6 days before the day itself; so a week is exactly seven
      consecutive days. */
  lemma WeekStartsOnSunday(d: Date, e: Date)
    requires d.Valid() && e.Valid()
    ensures WeekDay(DayNumber(WeekStart(d))) == 0
    ensures DayNumber(d) - 6 <= DayNumber(WeekStart(d)) <= DayNumber(d)
    ensures WeekStart(e) == WeekStart(d) <==> DayNumber(WeekStart(d)) <= DayNumber(e) < DayNumber(WeekStart(d)) + 7
  {
    var a, b := DayNumber(WeekStart(d)), DayNumber(WeekStart(e));
    WeekStartNumber(d);
    WeekStartNumber(e);
    SevenDays(DayNumber(d), DayNumber(e), a, b);
    DatesByNumber(WeekStart(d), WeekStart(e));
  }

  /** Going on by `k` days along the calendar. */
  function DaysLater(d: Date, k: nat): (r: Date)
    requires d.Valid()
    ensures r.Valid()
  {
    if k == 0 then d else Tomorrow(DaysLater(d, k - 1))
  }

  lemma {:induction false} DaysLaterNumber(d: Date, k: nat)
    requires d.Valid()
    ensures DayNumber(DaysLater(d, k)) == DayNumber(d) + k
  {
    if k > 0 {
      DaysLaterNumber(d, k - 1);
      TomorrowIsNext(DaysLater(d, k - 1));
    }
  }

  /** Walking the calendar forward from the week's first day reaches the date after `getDay` steps,
      whatever month ends, year ends or leap days lie between. */
  lemma WeekStartReachesDate(d: Date)
    requires d.Valid()
    ensures DaysLater(WeekStart(d), WeekDay(DayNumber(d))) == d
  {
    WeekStartNumber(d);
    DaysLaterNumber(WeekStart(d), WeekDay(DayNumber(d)));
    DatesByNumber(d, DaysLater(WeekStart(d), WeekDay(DayNumber(d))));
  }

  // ---------- the calendar's own Sundays ----------

  /** A Sunday to count the weeks from. */
  const SUNDAY := Date(1970, 1, 4)

  /** A whole number of weeks lies between the dates, whichever is the earlier. */
  ghost predicate WeeksApart(a: Date, b: Date)
    requires a.Valid() && b.Valid()
  {
    exists k: nat :: DaysLater(a, 7 * k) == b || DaysLater(b, 7 * k) == a
  }

  ghost predicate WithinAWeek(s: Date, d: Date)
    requires s.Valid() && d.Valid()
  {
    exists k: nat :: k < 7 && DaysLater(s, k) == d
  }

  lemma SundayNumber()
    ensures DayNumber(SUNDAY) == 3
  {}

  lemma LaterIff(a: Date, b: Date, k: nat)
    requires a.Valid() && b.Valid()
    ensures DaysLater(a, k) == b <==> DayNumber(a) + k == DayNumber(b)
  {
    DaysLaterNumber(a, k);
    DatesByNumber(DaysLater(a, k), b);
  }

  lemma WeeksApartIff(a: Date, b: Date, m: int, n: int)
    requires a.Valid() && b.Valid() && m == DayNumber(a) && n == DayNumber(b)
    ensures WeeksApart(a, b) <==> (n - m) % 7 == 0
  {
    if (n - m) % 7 == 0 {
      var k := (n - m) / 7;
      if k >= 0 { LaterIff(a, b, 7 * k); } else { LaterIff(b, a, 7 * -k); }
    }
    if k: nat :| DaysLater(a, 7 * k) == b || DaysLater(b, 7 * k) == a {
      LaterIff(a, b, 7 * k);
      LaterIff(b, a, 7 * k);
      SevenTimes(k);
    }
  }

  lemma SevenTimes(k: int)
    ensures 7 * k % 7 == 0 && -(7 * k) % 7 == 0
  {
    assert -(7 * k) == 7 * -k;
  }

  lemma WithinIff(s: Date, d: Date, t: int, n: int)
    requires s.Valid() && d.Valid() && t == DayNumber(s) && n == DayNumber(d)
    ensures WithinAWeek(s, d) <==> t <= n < t + 7
  {
    if t <= n < t + 7 { LaterIff(s, d, n - t); }
    if k: nat :| k < 7 && DaysLater(s, k) == d { LaterIff(s, d, k); }
  }

  lemma WeekStartByNumber(n: int, t: int)
    ensures t == n - WeekDay(n) <==> (t - 3) % 7 == 0 && t <= n < t + 7
  {}

  lemma StartIff(d: Date, s: Date, n: int, t: int)
    requires d.Valid() && s.Valid() && n == DayNumber(d) && t == DayNumber(s)
    ensures s == WeekStart(d) <==> t == n - WeekDay(n)
  {
    WeekStartNumber(d);
    DatesByNumber(s, WeekStart(d));
  }

  lemma WeekStartAt(d: Date, s: Date, n: int, t: int)
    requires d.Valid() && s.Valid() && n == DayNumber(d) && t == DayNumber(s)
    ensures s == WeekStart(d) <==> WeeksApart(SUNDAY, s) && WithinAWeek(s, d)
  {
    SundayNumber();
    StartIff(d, s, n, t);
    WeeksApartIff(SUNDAY, s, 3, t);
    WithinIff(s, d, t, n);
    WeekStartByNumber(n, t);
  }

  /** The start of a date's week, walked along the calendar: the one date that is a whole number of weeks
      from Sunday, 4 January 1970, and from which the date is reached in less than a week. */
  lemma WeekStartIs(d: Date, s: Date)
    requires d.Valid() && s.Valid()
    ensures s == WeekStart(d) <==> WeeksApart(SUNDAY, s) && WithinAWeek(s, d)
  {
    WeekStartAt(d, s, DayNumber(d), DayNumber(s));
  }

  /** The months' lengths follow the rule that they are as even as twelve months of a 367-day year, with
      one or two days taken out behind February. */
  lemma MonthsAreEven(y: int, m: int)
    requires 1 <= m <= 12
    ensures DaysBefore(y, m) == (367 * m - 362) / 12 - (if m <= 2 then 0 else if Leap(y) then 1 else 2)
  {
    YearLength(y);
    var leap := if Leap(y) then 1 else 0;
    assert DaysBefore(y, 2) == 31 && DaysBefore(y, 3) == 59 + leap && DaysBefore(y, 4) == 90 + leap;
    assert DaysBefore(y, 5) == 120 + leap && DaysBefore(y, 6) == 151 + leap && DaysBefore(y, 7) == 181 + leap;
    assert DaysBefore(y, 8) == 212 + leap && DaysBefore(y, 9) == 243 + leap && DaysBefore(y, 10) == 273 + leap;
    assert DaysBefore(y, 11) == 304 + leap && DaysBefore(y, 12) == 334 + leap;
  }

  // ---------- reading a label ----------

  /** Two decimal digits of a text. */
  predicate TwoDigits(s: string, at: int, n: int) {
    0 <= at <= |s| - 2 && AllDigits(s[at..at + 2]) && NatValue(s[at..at + 2]) == n
  }

  predicate WholeNumber(s: string, n: int) {
    (AllDigits(s) && NatValue(s) == n) || (s != "" && s[0] == '-' && AllDigits(s[1..]) && NatValue(s[1..]) == -n)
  }

  /** Year, dash, two digits. */
  predicate ReadsMonth(s: string, year: int, month: int) {
    |s| >= 3 && WholeNumber(s[..|s| - 3], year) && s[|s| - 3] == '-' && TwoDigits(s, |s| - 2, month)
  }

  /** Year, dash, two digits, dash, two digits. */
  predicate ReadsDate(s: string, d: Date) {
    |s| >= 3 && ReadsMonth(s[..|s| - 3], d.year, d.month) && s[|s| - 3] == '-' && TwoDigits(s, |s| - 2, d.day)
  }

  /** What a label says, read from its digits. */
  predicate Reads(s: string, m: Moment, g: DateGrouping)
    requires m.Valid()
  {
    match g
    case Hour =>
      |s| >= 6 && ReadsDate(s[..|s| - 6], m.date) && s[|s| - 6] == ' ' && TwoDigits(s, |s| - 5, m.hour) &&
      s[|s| - 3..] == ":00"
    case Day => ReadsDate(s, m.date)
    case Week => s != "" && s[0] == 'W' && ReadsDate(s[1..], WeekStart(m.date))
    case Month => ReadsMonth(s, m.date.year, m.date.month)
    case Year => WholeNumber(s, m.date.year)
  }

  lemma YearReads(n: int)
    ensures WholeNumber(IntText(n), n)
  {
    if n < 0 {
      NatTextReadsBack(-n);
      Cons('-', NatText(-n));
      assert IntText(n) == ['-'] + NatText(-n);
    } else {
      NatTextReadsBack(n);
    }
  }

  /** Two digits behind a text and a mark. */
  lemma DigitsBehind(front: string, mark: string, n: nat, s: string)
    requires n < 100 && |mark| == 1 && s == front + mark + Pad2(n)
    ensures |s| == |front| + 3 && s[..|s| - 3] == front && s[|s| - 3] == mark[0] && TwoDigits(s, |s| - 2, n)
  {
    Pad2ReadsBack(n);
    assert s[..|s| - 3] == front && s[|s| - 2..|s| - 2 + 2] == Pad2(n);
  }

  lemma MonthReads(d: Date)
    requires d.Valid()
    ensures ReadsMonth(MonthText(d), d.year, d.month)
  {
    YearReads(d.year);
    DigitsBehind(YearText(d), "-", d.month, MonthText(d));
  }

  lemma DayReads(d: Date)
    requires d.Valid()
    ensures ReadsDate(DayText(d), d)
  {
    MonthReads(d);
    DigitsBehind(MonthText(d), "-", d.day, DayText(d));
  }

  lemma HourReads(m: Moment)
    requires m.Valid()
    ensures Reads(BucketKey(m, Hour), m, Hour)
  {
    var front := DayText(m.date) + " " + Pad2(m.hour);
    var s := BucketKey(m, Hour);
    DayReads(m.date);
    DigitsBehind(DayText(m.date), " ", m.hour, front);
    assert s == front + ":00" && s[..|s| - 6] == DayText(m.date) && s[|s| - 3..] == ":00";
    assert s[|s| - 5..|s| - 5 + 2] == front[|front| - 2..|front| - 2 + 2];
  }

  /** Every label reads back, digit by digit, as its moment's hour, day, week start, month or year. */
  lemma LabelsReadBack(m: Moment, g: DateGrouping)
    requires m.Valid()
    ensures Reads(BucketKey(m, g), m, g)
  {
    match g {
      case Hour => HourReads(m);
      case Day => DayReads(m.date);
      case Week =>
        DayReads(WeekStart(m.date));
        assert BucketKey(m, Week)[1..] == DayText(WeekStart(m.date));
      case Month => MonthReads(m.date);
      case Year => YearReads(m.date.year);
    }
  }
}
