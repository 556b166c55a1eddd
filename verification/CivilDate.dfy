/**
 Dates from day counts by integer division (`src/bin/foxhole_analyze.rs`), against a calendar that
 is advanced one day at a time.
 */
module CivilDate {
  import opened Basics
  import opened Text

  // ----- the Gregorian calendar, day by day -----

  datatype Date = Date(year: int, month: int, day: int)

  predicate Leap(year: int) {
    year % 4 == 0 && (year % 100 != 0 || year % 400 == 0)
  }

  function DaysInMonth(year: int, month: int): int {
    if month == 2 then (if Leap(year) then 29 else 28)
    else if month in {4, 6, 9, 11} then 30
    else 31
  }

  predicate Valid(d: Date) {
    1 <= d.month <= 12 && 1 <= d.day <= DaysInMonth(d.year, d.month)
  }

  function NextDay(d: Date): Date {
    if d.day < DaysInMonth(d.year, d.month) then d.(day := d.day + 1)
    else if d.month < 12 then Date(d.year, d.month + 1, 1)
    else Date(d.year + 1, 1, 1)
  }

  const EPOCH := Date(1970, 1, 1)

  /** The date `n` days after 1 January 1970. */
  function CalendarDay(n: nat): Date {
    if n == 0 then EPOCH else NextDay(CalendarDay(n - 1))
  }

  predicate Earlier(a: Date, b: Date) {
    a.year < b.year || (a.year == b.year && (a.month < b.month || (a.month == b.month && a.day < b.day)))
  }

  // ----- the conversion -----

  function YearOfEra(dayOfEra: nat): int {
    (dayOfEra - dayOfEra / 1460 + dayOfEra / 36524 - dayOfEra / 146096) / 365
  }

  function EraDay(dayOfEra: nat): (int, int) {
    var yearOfEra := YearOfEra(dayOfEra);
    (yearOfEra, dayOfEra - (365 * yearOfEra + yearOfEra / 4 - yearOfEra / 100))
  }

  /** The date of a day of a year that begins on 1 March. */
  function DayOfMarchYear(year: int, dayOfYear: int): Date {
    var monthPrime := (5 * dayOfYear + 2) / 153;
    var day := dayOfYear - (153 * monthPrime + 2) / 5 + 1;
    var month := monthPrime + if monthPrime < 10 then 3 else -9;
    Date(year + (if month <= 2 then 1 else 0), month, day)
  }

  function CivilDateFromUnixDays(days: nat): Date {
    var shifted := days + 719468;
    var era := shifted / 146097;
    var dayOfEra := shifted - era * 146097;
    var (yearOfEra, dayOfYear) := EraDay(dayOfEra);
    DayOfMarchYear(yearOfEra + era * 400, dayOfYear)
  }

  // ----- years that begin on 1 March -----

  /** The number of days from 1 March of year 0 to 1 March of `year`. */
  function YearStart(year: nat): nat {
    365 * year + year / 4 - year / 100 + year / 400
  }

  /** The leap day is the last day of such a year, so it belongs to the next calendar year. */
  function YearLength(year: nat): nat {
    if Leap(year + 1) then 366 else 365
  }

  /** A year is `100 * c + 4 * q + r` into its era of 400. */
  lemma YearParts(era: nat, c: nat, q: nat, r: nat)
    requires c <= 3 && q <= 24 && r <= 3
    ensures var year := 400 * era + 100 * c + 4 * q + r;
            && YearStart(year) == 146097 * era + 36524 * c + 1461 * q + 365 * r
            && (YearLength(year) == 366 <==> r == 3 && (q < 24 || c == 3))
  {
    var year := 400 * era + 100 * c + 4 * q + r;
    Quotient(year, 4, 100 * era + 25 * c + q);
    Quotient(year, 100, 4 * era + c);
    Quotient(year, 400, era);
    LeapParts(era, c, q, r);
  }

  lemma LeapParts(era: nat, c: nat, q: nat, r: nat)
    requires c <= 3 && q <= 24 && r <= 3
    ensures Leap(400 * era + 100 * c + 4 * q + r + 1) <==> r == 3 && (q < 24 || c == 3)
  {
    var next := 400 * era + 100 * c + 4 * q + r + 1;
    Quotient(next, 4, 100 * era + 25 * c + q + if r == 3 then 1 else 0);
    Quotient(next, 100, 4 * era + c + if q == 24 && r == 3 then 1 else 0);
    Quotient(next, 400, era + if c == 3 && q == 24 && r == 3 then 1 else 0);
  }

  lemma SplitYear(year: nat) returns (e: nat, c: nat, q: nat, r: nat)
    ensures c <= 3 && q <= 24 && r <= 3 && year == 400 * e + 100 * c + 4 * q + r
  {
    e := year / 400;
    var inEra := year - 400 * e;
    c := inEra / 100;
    q := (inEra - 100 * c) / 4;
    r := inEra - 100 * c - 4 * q;
  }

  lemma YearStartStep(year: nat)
    ensures YearStart(year + 1) == YearStart(year) + YearLength(year)
  {
    var e, c, q, r := SplitYear(year);
    YearPartsStep(e, c, q, r);
  }

  lemma YearPartsStep(e: nat, c: nat, q: nat, r: nat)
    requires c <= 3 && q <= 24 && r <= 3
    ensures var year := 400 * e + 100 * c + 4 * q + r; YearStart(year + 1) == YearStart(year) + YearLength(year)
  {
    YearParts(e, c, q, r);
    if r < 3 { YearParts(e, c, q, r + 1); }
    else if q < 24 { YearParts(e, c, q + 1, 0); }
    else if c < 3 { YearParts(e, c + 1, 0, 0); }
    else { YearParts(e + 1, 0, 0, 0); }
  }

  lemma {:induction false} YearStartMonotone(a: nat, b: nat)
    requires a < b
    ensures YearStart(a) + YearLength(a) <= YearStart(b)
    decreases b - a
  {
    YearStartStep(a);
    if a + 1 < b { YearStartMonotone(a + 1, b); }
  }

  predicate InYear(shifted: nat, year: nat, dayOfYear: nat) {
    dayOfYear < YearLength(year) && shifted == YearStart(year) + dayOfYear
  }

  lemma InYearUnique(shifted: nat, y0: nat, d0: nat, y1: nat, d1: nat)
    requires InYear(shifted, y0, d0) && InYear(shifted, y1, d1)
    ensures y0 == y1 && d0 == d1
  {
    if y0 < y1 { YearStartMonotone(y0, y1); }
    if y1 < y0 { YearStartMonotone(y1, y0); }
  }

  // ----- the divisions are exact -----

  /** A day of an era is `s` days into year `r` of leap cycle `q` of century `c`. */
  predicate DayParts(dayOfEra: nat, c: nat, q: nat, r: nat, s: nat) {
    && c <= 3 && q <= 24 && r <= 3
    && (s < 365 || (s == 365 && r == 3 && (q < 24 || c == 3)))
    && dayOfEra == 36524 * c + 1461 * q + 365 * r + s
  }

  lemma SplitDay(dayOfEra: nat) returns (c: nat, q: nat, r: nat, s: nat)
    requires dayOfEra < 146097
    ensures DayParts(dayOfEra, c, q, r, s)
  {
    c := if dayOfEra == 146096 then 3 else dayOfEra / 36524;
    var inCentury := dayOfEra - 36524 * c;
    q := inCentury / 1461;
    var inCycle := inCentury - 1461 * q;
    r := if inCycle == 1460 then 3 else inCycle / 365;
    s := inCycle - 365 * r;
  }

  lemma YearOfEraExact(dayOfEra: nat, c: nat, q: nat, r: nat, s: nat, y: nat)
    requires DayParts(dayOfEra, c, q, r, s) && y == 100 * c + 4 * q + r
    ensures YearOfEra(dayOfEra) == y
  {
    var last := if dayOfEra == 146096 then 1 else 0;
    Quotient(dayOfEra, 146096, last);
    Quotient(dayOfEra, 36524, c + last);
    var e := if 24 * c + q + 365 * r + s >= 1460 then 1 else 0;
    Quotient(dayOfEra, 1460, 25 * c + q + e);
    Quotient(365 * y + s - e, 365, y);
  }

  lemma DayOfYearExact(dayOfEra: nat, c: nat, q: nat, r: nat, s: nat, y: nat)
    requires DayParts(dayOfEra, c, q, r, s) && y == 100 * c + 4 * q + r
    ensures dayOfEra - (365 * y + y / 4 - y / 100) == s
  {
    Quotient(y, 4, 25 * c + q);
    Quotient(y, 100, c);
  }

  lemma EraDayOf(dayOfEra: nat, y: nat, s: nat)
    requires YearOfEra(dayOfEra) == y && dayOfEra - (365 * y + y / 4 - y / 100) == s
    ensures EraDay(dayOfEra) == (y, s)
  {}

  lemma EraDayInYear(shifted: nat, era: nat, dayOfEra: nat) returns (y: nat, s: nat)
    requires shifted == 146097 * era + dayOfEra && dayOfEra < 146097
    ensures EraDay(dayOfEra) == (y, s)
    ensures InYear(shifted, y + era * 400, s)
  {
    var c, q, r, t := SplitDay(dayOfEra);
    y, s := 100 * c + 4 * q + r, t;
    YearOfEraExact(dayOfEra, c, q, r, s, y);
    DayOfYearExact(dayOfEra, c, q, r, s, y);
    EraDayOf(dayOfEra, y, s);
    PartsInYear(shifted, era, dayOfEra, c, q, r, s, y + era * 400);
  }

  lemma PartsInYear(shifted: nat, era: nat, dayOfEra: nat, c: nat, q: nat, r: nat, s: nat, year: nat)
    requires DayParts(dayOfEra, c, q, r, s) && year == 100 * c + 4 * q + r + era * 400
    requires shifted == 146097 * era + dayOfEra
    ensures InYear(shifted, year, s)
  {
    YearParts(era, c, q, r);
  }

  lemma ConversionOf(days: nat, era: nat, y: int, s: int)
    requires era == (days + 719468) / 146097 && EraDay(days + 719468 - era * 146097) == (y, s)
    ensures CivilDateFromUnixDays(days) == DayOfMarchYear(y + era * 400, s)
  {}

  /** The shifted count falls in exactly the year and on exactly the day that the divisions give. */
  lemma DivisionsAreExact(days: nat) returns (year: nat, dayOfYear: nat)
    ensures InYear(days + 719468, year, dayOfYear)
    ensures CivilDateFromUnixDays(days) == DayOfMarchYear(year, dayOfYear)
  {
    var shifted: nat := days + 719468;
    var era: nat := shifted / 146097;
    var y, s := EraDayInYear(shifted, era, shifted - era * 146097);
    ConversionOf(days, era, y, s);
    year, dayOfYear := y + era * 400, s;
  }

  // ----- months -----

  /** Months are counted from March: the table the two month divisions stand for. */
  function MonthStart(monthPrime: int): int {
    if monthPrime <= 0 then 0 else if monthPrime == 1 then 31 else if monthPrime == 2 then 61
    else if monthPrime == 3 then 92 else if monthPrime == 4 then 122 else if monthPrime == 5 then 153
    else if monthPrime == 6 then 184 else if monthPrime == 7 then 214 else if monthPrime == 8 then 245
    else if monthPrime == 9 then 275 else if monthPrime == 10 then 306 else 337
  }

  function CalendarMonth(monthPrime: int): int {
    if monthPrime < 10 then monthPrime + 3 else monthPrime - 9
  }

  lemma MonthDivisions(dayOfYear: nat) returns (m: nat)
    requires dayOfYear < 366
    ensures m == (5 * dayOfYear + 2) / 153 && m <= 11
    ensures (153 * m + 2) / 5 == MonthStart(m) <= dayOfYear
    ensures m < 11 ==> dayOfYear < MonthStart(m + 1)
  {
    m := (5 * dayOfYear + 2) / 153;
  }

  lemma MonthLengths(year: nat, m: nat)
    requires m <= 11
    ensures var y := if CalendarMonth(m) <= 2 then year + 1 else year;
            DaysInMonth(y, CalendarMonth(m)) == (if m < 11 then MonthStart(m + 1) else YearLength(year)) - MonthStart(m)
  {}

  lemma DateOfDay(year: nat, dayOfYear: nat)
    requires dayOfYear < YearLength(year)
    ensures Valid(DayOfMarchYear(year, dayOfYear))
    ensures DayOfMarchYear(year, dayOfYear).day == 1 + dayOfYear - MonthStart((5 * dayOfYear + 2) / 153)
  {
    var m := MonthDivisions(dayOfYear);
    MonthLengths(year, m);
  }

  lemma NextDayInMonth(year: nat, dayOfYear: nat, m: nat)
    requires dayOfYear + 1 < YearLength(year) && m <= 11 && MonthStart(m) <= dayOfYear
    requires m < 11 ==> dayOfYear + 1 < MonthStart(m + 1)
    ensures DayOfMarchYear(year, dayOfYear + 1) == NextDay(DayOfMarchYear(year, dayOfYear))
  {
    MonthOfDay(dayOfYear, m);
    MonthOfDay(dayOfYear + 1, m);
    MonthLengths(year, m);
  }

  lemma NextDayInMonthEnd(year: nat, dayOfYear: nat, m: nat)
    requires dayOfYear + 1 < YearLength(year) && m < 11
    requires MonthStart(m) <= dayOfYear == MonthStart(m + 1) - 1
    ensures DayOfMarchYear(year, dayOfYear + 1) == NextDay(DayOfMarchYear(year, dayOfYear))
  {
    MonthOfDay(dayOfYear, m);
    MonthOfDay(dayOfYear + 1, m + 1);
    MonthLengths(year, m);
  }

  lemma NextDayInYear(year: nat, dayOfYear: nat)
    requires dayOfYear + 1 < YearLength(year)
    ensures DayOfMarchYear(year, dayOfYear + 1) == NextDay(DayOfMarchYear(year, dayOfYear))
  {
    var m := MonthDivisions(dayOfYear);
    if m < 11 && dayOfYear + 1 == MonthStart(m + 1) {
      NextDayInMonthEnd(year, dayOfYear, m);
    } else {
      NextDayInMonth(year, dayOfYear, m);
    }
  }

  lemma MonthOfDay(dayOfYear: nat, m: nat)
    requires dayOfYear < 366 && m <= 11 && MonthStart(m) <= dayOfYear
    requires m < 11 ==> dayOfYear < MonthStart(m + 1)
    ensures (5 * dayOfYear + 2) / 153 == m && (153 * m + 2) / 5 == MonthStart(m)
  {
    var n := MonthDivisions(dayOfYear);
  }

  lemma NextDayAfterYear(year: nat)
    ensures DayOfMarchYear(year + 1, 0) == NextDay(DayOfMarchYear(year, YearLength(year) - 1))
  {
    var m := MonthDivisions(YearLength(year) - 1);
    MonthLengths(year, m);
  }

  // ----- the conversion is the calendar -----

  lemma NextDate(shifted: nat, y0: nat, d0: nat, y1: nat, d1: nat)
    requires InYear(shifted, y0, d0) && InYear(shifted + 1, y1, d1)
    ensures DayOfMarchYear(y1, d1) == NextDay(DayOfMarchYear(y0, d0))
  {
    YearStartStep(y0);
    if d0 + 1 < YearLength(y0) {
      InYearUnique(shifted + 1, y0, d0 + 1, y1, d1);
      NextDayInYear(y0, d0);
    } else {
      InYearUnique(shifted + 1, y0 + 1, 0, y1, d1);
      NextDayAfterYear(y0);
    }
  }

  lemma CivilStep(days: nat)
    ensures CivilDateFromUnixDays(days + 1) == NextDay(CivilDateFromUnixDays(days))
  {
    var y0, d0 := DivisionsAreExact(days);
    var y1, d1 := DivisionsAreExact(days + 1);
    NextDate(days + 719468, y0, d0, y1, d1);
  }

  ghost predicate Steps(date: nat -> Date) {
    forall n: nat :: date(n + 1) == NextDay(date(n))
  }

  lemma {:induction false} StepsAreCalendar(date: nat -> Date, n: nat)
    requires date(0) == EPOCH && Steps(date)
    ensures date(n) == CalendarDay(n)
  {
    if n > 0 {
      StepsAreCalendar(date, n - 1);
      assert date(n - 1 + 1) == NextDay(date(n - 1));
    }
  }

  lemma CivilSteps()
    ensures Steps(CivilDateFromUnixDays)
  {
    forall n: nat ensures CivilDateFromUnixDays(n + 1) == NextDay(CivilDateFromUnixDays(n)) {
      CivilStep(n);
    }
  }

  lemma CivilEpoch()
    ensures CivilDateFromUnixDays(0) == EPOCH
  {
    var year, dayOfYear := DivisionsAreExact(0);
    assert InYear(719468, 1969, 306);
    InYearUnique(719468, 1969, 306, year, dayOfYear);
  }

  /** The divisions give, for every day count, the date that many steps into the calendar. */
  lemma CivilIsCalendar(days: nat)
    ensures CivilDateFromUnixDays(days) == CalendarDay(days)
  {
    CivilSteps();
    CivilEpoch();
    StepsAreCalendar(CivilDateFromUnixDays, days);
  }

  lemma {:induction false} CalendarIsValid(n: nat)
    ensures Valid(CalendarDay(n))
  {
    if n > 0 { CalendarIsValid(n - 1); }
  }

  lemma {:induction false} CalendarIsIncreasing(a: nat, b: nat)
    requires a < b
    ensures Earlier(CalendarDay(a), CalendarDay(b))
    decreases b
  {
    CalendarIsValid(b - 1);
    if a < b - 1 { CalendarIsIncreasing(a, b - 1); }
  }

  /** Every date is a real one, and a later day count always gives a later date. */
  lemma CivilIsIncreasing(a: nat, b: nat)
    requires a < b
    ensures Valid(CivilDateFromUnixDays(a)) && Earlier(CivilDateFromUnixDays(a), CivilDateFromUnixDays(b))
  {
    CivilIsCalendar(a);
    CivilIsCalendar(b);
    CalendarIsValid(a);
    CalendarIsIncreasing(a, b);
  }

  // ----- the way back -----

  /** The day count of a date, by counting whole years and months. */
  function UnixDaysFromCivilDate(d: Date): int
    requires Valid(d) && d.year >= 1
  {
    var year := if d.month <= 2 then d.year - 1 else d.year;
    var monthPrime := if d.month <= 2 then d.month + 9 else d.month - 3;
    YearStart(year) + MonthStart(monthPrime) + d.day - 1 - 719468
  }

  lemma DayNumberOfDay(year: nat, dayOfYear: nat)
    requires year > 0 && dayOfYear < YearLength(year)
    ensures Valid(DayOfMarchYear(year, dayOfYear)) && DayOfMarchYear(year, dayOfYear).year >= 1
    ensures UnixDaysFromCivilDate(DayOfMarchYear(year, dayOfYear)) == YearStart(year) + dayOfYear - 719468
  {
    DateOfDay(year, dayOfYear);
    var m := MonthDivisions(dayOfYear);
  }

  lemma DayNumberOfCivil(days: nat)
    ensures Valid(CivilDateFromUnixDays(days)) && CivilDateFromUnixDays(days).year >= 1
    ensures UnixDaysFromCivilDate(CivilDateFromUnixDays(days)) == days
  {
    var year, dayOfYear := DivisionsAreExact(days);
    DayNumberOfDay(year, dayOfYear);
  }

  lemma DayOfDate(d: Date) returns (year: nat, dayOfYear: nat)
    requires Valid(d) && d.year >= 1970
    ensures dayOfYear < YearLength(year) && DayOfMarchYear(year, dayOfYear) == d
    ensures UnixDaysFromCivilDate(d) == YearStart(year) + dayOfYear - 719468
    ensures year > 1969 || (year == 1969 && dayOfYear >= 306)
  {
    year := if d.month <= 2 then d.year - 1 else d.year;
    var m := if d.month <= 2 then d.month + 9 else d.month - 3;
    dayOfYear := MonthStart(m) + d.day - 1;
    MonthLengths(year, m);
    assert CalendarMonth(m) == d.month;
    var n := MonthDivisions(dayOfYear);
    assert n == m;
  }

  /** Every date from 1970 on is the date of exactly one day count: the conversion is onto. */
  lemma CivilOfDayNumber(d: Date)
    requires Valid(d) && d.year >= 1970
    ensures UnixDaysFromCivilDate(d) >= 0
    ensures CivilDateFromUnixDays(UnixDaysFromCivilDate(d)) == d
  {
    var year, dayOfYear := DayOfDate(d);
    assert YearStart(1969) + 306 == 719468;
    if year > 1969 { YearStartMonotone(1969, year); }
    var days: nat := YearStart(year) + dayOfYear - 719468;
    var y1, d1 := DivisionsAreExact(days);
    InYearUnique(days + 719468, year, dayOfYear, y1, d1);
  }

  // ----- the label printed for a timestamp -----

  function DayLabel(month: nat, day: nat): string {
    "-" + Padded(month, 2) + "-" + Padded(day, 2) + " "
  }

  function ClockLabel(hour: nat, minute: nat, second: nat): string {
    Padded(hour, 2) + ":" + Padded(minute, 2) + ":" + Padded(second, 2) + " UTC"
  }

  function FormatUnixMs(timestampMs: u64): string {
    if timestampMs == 0 then "unknown date"
    else
      var seconds := timestampMs / 1000;
      var secondsInDay := seconds % 86400;
      var date := CivilDateFromUnixDays(seconds / 86400);
      CivilIsIncreasing(seconds / 86400, seconds / 86400 + 1);
      DayNumberOfCivil(seconds / 86400);
      Padded(date.year, 4) + (DayLabel(date.month, date.day)
        + ClockLabel(secondsInDay / 3600, secondsInDay % 3600 / 60, secondsInDay % 60))
  }

  lemma TwoDigits(n: nat)
    requires n < 100
    ensures |Padded(n, 2)| == 2
  {
    assert |Padded(n / 100, 0)| == 0;
    assert |Padded(n / 10, 1)| == 1;
  }

  lemma DayLabelInjective(m0: nat, d0: nat, m1: nat, d1: nat)
    requires m0 < 100 && d0 < 100 && m1 < 100 && d1 < 100
    ensures |DayLabel(m0, d0)| == 7
    ensures DayLabel(m0, d0) == DayLabel(m1, d1) ==> m0 == m1 && d0 == d1
  {
    TwoDigits(m0);
    TwoDigits(d0);
    TwoDigits(m1);
    TwoDigits(d1);
    var s, t := DayLabel(m0, d0), DayLabel(m1, d1);
    if s == t {
      assert s[1..3] == Padded(m0, 2) && t[1..3] == Padded(m1, 2);
      assert s[4..6] == Padded(d0, 2) && t[4..6] == Padded(d1, 2);
      PaddedInjective(m0, m1, 2);
      PaddedInjective(d0, d1, 2);
    }
  }

  lemma ClockLabelInjective(h0: nat, m0: nat, s0: nat, h1: nat, m1: nat, s1: nat)
    requires h0 < 100 && m0 < 100 && s0 < 100 && h1 < 100 && m1 < 100 && s1 < 100
    ensures |ClockLabel(h0, m0, s0)| == 12
    ensures ClockLabel(h0, m0, s0) == ClockLabel(h1, m1, s1) ==> h0 == h1 && m0 == m1 && s0 == s1
  {
    TwoDigits(h0);
    TwoDigits(m0);
    TwoDigits(s0);
    TwoDigits(h1);
    TwoDigits(m1);
    TwoDigits(s1);
    var s, t := ClockLabel(h0, m0, s0), ClockLabel(h1, m1, s1);
    if s == t {
      assert s[0..2] == Padded(h0, 2) && t[0..2] == Padded(h1, 2);
      assert s[3..5] == Padded(m0, 2) && t[3..5] == Padded(m1, 2);
      assert s[6..8] == Padded(s0, 2) && t[6..8] == Padded(s1, 2);
      PaddedInjective(h0, h1, 2);
      PaddedInjective(m0, m1, 2);
      PaddedInjective(s0, s1, 2);
    }
  }

  lemma LabelParts(y0: nat, m0: nat, d0: nat, c0: string, y1: nat, m1: nat, d1: nat, c1: string)
    requires m0 < 100 && d0 < 100 && m1 < 100 && d1 < 100 && |c0| == |c1| == 12
    requires Padded(y0, 4) + (DayLabel(m0, d0) + c0) == Padded(y1, 4) + (DayLabel(m1, d1) + c1)
    ensures y0 == y1 && m0 == m1 && d0 == d1 && c0 == c1
  {
    DayLabelInjective(m0, d0, m1, d1);
    DayLabelInjective(m1, d1, m0, d0);
    SameParts(Padded(y0, 4), DayLabel(m0, d0) + c0, Padded(y1, 4), DayLabel(m1, d1) + c1);
    SameParts(DayLabel(m0, d0), c0, DayLabel(m1, d1), c1);
    PaddedInjective(y0, y1, 4);
  }

  lemma SmallDate(days: nat)
    ensures var d := CivilDateFromUnixDays(days); Valid(d) && d.year >= 1 && d.month < 100 && d.day < 100
  {
    DayNumberOfCivil(days);
  }

  lemma ClockIsSecond(a: nat, b: nat)
    requires a % 86400 / 3600 == b % 86400 / 3600 && a % 86400 % 3600 / 60 == b % 86400 % 3600 / 60
    requires a % 86400 % 60 == b % 86400 % 60
    ensures a % 86400 == b % 86400
  {
    SecondOfClock(a % 86400);
    SecondOfClock(b % 86400);
  }

  lemma SecondOfClock(s: nat)
    ensures s == s / 3600 * 3600 + s % 3600 / 60 * 60 + s % 60
  {
    var h, rest := s / 3600, s % 3600;
    assert s == 60 * (60 * h) + rest;
    assert rest == 60 * (rest / 60) + rest % 60;
    Quotient(s, 60, 60 * h + rest / 60);
  }

  lemma SameDate(a: nat, b: nat)
    requires CivilDateFromUnixDays(a) == CivilDateFromUnixDays(b)
    ensures a == b
  {
    DayNumberOfCivil(a);
    DayNumberOfCivil(b);
  }

  /** Two timestamps are shown alike exactly when they lie in the same second. */
  lemma LabelNamesTheSecond(a: u64, b: u64)
    requires a != 0 && b != 0
    ensures FormatUnixMs(a) == FormatUnixMs(b) <==> a / 1000 == b / 1000
  {
    var s, t := a / 1000, b / 1000;
    var d, e := CivilDateFromUnixDays(s / 86400), CivilDateFromUnixDays(t / 86400);
    SmallDate(s / 86400);
    SmallDate(t / 86400);
    var u, v := s % 86400, t % 86400;
    ClockLabelInjective(u / 3600, u % 3600 / 60, u % 60, v / 3600, v % 3600 / 60, v % 60);
    ClockLabelInjective(v / 3600, v % 3600 / 60, v % 60, u / 3600, u % 3600 / 60, u % 60);
    if FormatUnixMs(a) == FormatUnixMs(b) {
      LabelParts(d.year, d.month, d.day, ClockLabel(u / 3600, u % 3600 / 60, u % 60),
                 e.year, e.month, e.day, ClockLabel(v / 3600, v % 3600 / 60, v % 60));
      SameDate(s / 86400, t / 86400);
      ClockIsSecond(s, t);
    }
  }

  lemma SplitInstant(days: nat, hour: nat, minute: nat, second: nat, millis: nat)
    requires hour < 24 && minute < 60 && second < 60 && millis < 1000
    ensures var inDay := 3600 * hour + 60 * minute + second;
            var ms := 1000 * (86400 * days + inDay) + millis;
            && ms / 1000 / 86400 == days && ms / 1000 % 86400 == inDay
            && inDay / 3600 == hour && inDay % 3600 / 60 == minute && inDay % 60 == second
  {
    var inDay := 3600 * hour + 60 * minute + second;
    Quotient(1000 * (86400 * days + inDay) + millis, 1000, 86400 * days + inDay);
    Quotient(86400 * days + inDay, 86400, days);
    Quotient(inDay, 3600, hour);
    Quotient(inDay, 60, 60 * hour + minute);
  }

  lemma SpelledLabel(ms: u64, days: nat, inDay: nat, hour: nat, minute: nat, second: nat)
    requires ms != 0 && ms / 1000 / 86400 == days && ms / 1000 % 86400 == inDay
    requires inDay / 3600 == hour && inDay % 3600 / 60 == minute && inDay % 60 == second
    ensures var d := CivilDateFromUnixDays(days);
            FormatUnixMs(ms) == Padded(d.year, 4) + (DayLabel(d.month, d.day) + ClockLabel(hour, minute, second))
  {}

  /** A calendar date and a time of day from 1970 on are printed as they are read. */
  lemma LabelOfInstant(d: Date, hour: nat, minute: nat, second: nat, millis: nat, ms: u64)
    requires Valid(d) && d.year >= 1970 && hour < 24 && minute < 60 && second < 60 && millis < 1000
    requires ms != 0 && ms == 1000 * (86400 * UnixDaysFromCivilDate(d) + (3600 * hour + 60 * minute + second)) + millis
    ensures FormatUnixMs(ms) == Padded(d.year, 4) + (DayLabel(d.month, d.day) + ClockLabel(hour, minute, second))
  {
    var days := UnixDaysFromCivilDate(d);
    CivilOfDayNumber(d);
    SplitInstant(days, hour, minute, second, millis);
    SpelledLabel(ms, days, 3600 * hour + 60 * minute + second, hour, minute, second);
  }

  // ----- the label, place by place -----

  /** The characters from `from` on are the decimal digits of `n`. */
  predicate Shows(text: string, from: nat, width: nat, n: int) {
    from + width <= |text| && Decimal(text[from..from + width]) == n
  }

  predicate Punctuated(text: string) {
    && |text| == 23 && text[4] == '-' && text[7] == '-' && text[10] == ' ' && text[13] == ':' && text[16] == ':'
    && text[19..] == " UTC"
  }

  lemma TwoPlaces(n: nat)
    requires n < 100
    ensures |Padded(n, 2)| == 2 && Decimal(Padded(n, 2)) == n
  {
    TwoDigits(n);
    PaddedIsDecimal(n, 2);
  }

  lemma FourPlaces(n: nat)
    requires n < 10000
    ensures |Padded(n, 4)| == 4 && Decimal(Padded(n, 4)) == n
  {
    assert TenTo(1) == 10 && TenTo(2) == 100 && TenTo(3) == 1000 && TenTo(4) == 10000;
    PaddedWidth(n, 4);
    PaddedIsDecimal(n, 4);
  }

  lemma PlacesOf(y: string, mo: string, d: string, h: string, mi: string, s: string)
    requires |y| == 4 && |mo| == |d| == |h| == |mi| == |s| == 2
    ensures var text := y + (("-" + mo + "-" + d + " ") + (h + ":" + mi + ":" + s + " UTC"));
            && Punctuated(text) && text[0..4] == y && text[5..7] == mo && text[8..10] == d
            && text[11..13] == h && text[14..16] == mi && text[17..19] == s
  {
    var text := y + (("-" + mo + "-" + d + " ") + (h + ":" + mi + ":" + s + " UTC"));
    assert text[19..] == " UTC";
  }

  /** Up to the year 9999 the label is `YYYY-MM-DD hh:mm:ss UTC`. */
  lemma LabelInPlaces(d: Date, hour: nat, minute: nat, second: nat, millis: nat, ms: u64)
    requires Valid(d) && 1970 <= d.year <= 9999 && hour < 24 && minute < 60 && second < 60 && millis < 1000
    requires ms != 0 && ms == 1000 * (86400 * UnixDaysFromCivilDate(d) + (3600 * hour + 60 * minute + second)) + millis
    ensures var text := FormatUnixMs(ms);
            && Punctuated(text) && Shows(text, 0, 4, d.year) && Shows(text, 5, 2, d.month) && Shows(text, 8, 2, d.day)
            && Shows(text, 11, 2, hour) && Shows(text, 14, 2, minute) && Shows(text, 17, 2, second)
  {
    LabelOfInstant(d, hour, minute, second, millis, ms);
    FourPlaces(d.year);
    TwoPlaces(d.month);
    TwoPlaces(d.day);
    TwoPlaces(hour);
    TwoPlaces(minute);
    TwoPlaces(second);
    PlacesOf(Padded(d.year, 4), Padded(d.month, 2), Padded(d.day, 2), Padded(hour, 2), Padded(minute, 2), Padded(second, 2));
  }
}
