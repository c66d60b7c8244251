/** The Gregorian calendar of Go's time package. */
module Calendar {

  /** A date; month and day count from 1. */
  datatype Date = Date(year: int, month: int, day: int)

  /** Months are counted from January of the year 0; day 0 is Monday, 1 January of the year 1. */
  const JANUARY_OF_YEAR_1 := 12

  predicate IsLeap(year: int) {
    year % 4 == 0 && (year % 100 != 0 || year % 400 == 0)
  }

  function DaysInMonth(year: int, month: int): int {
    if month == 2 then if IsLeap(year) then 29 else 28
    else if month == 4 || month == 6 || month == 9 || month == 11 then 30
    else 31
  }

  predicate IsDate(d: Date) {
    1 <= d.month <= 12 && 1 <= d.day <= DaysInMonth(d.year, d.month)
  }

  /** The date after a date, as a wall calendar has it. */
  function NextDate(d: Date): Date {
    if d.day < DaysInMonth(d.year, d.month) then Date(d.year, d.month, d.day + 1)
    else if d.month < 12 then Date(d.year, d.month + 1, 1)
    else Date(d.year + 1, 1, 1)
  }

  /** The length of the n-th month. */
  function Length(n: int): (days: int)
    ensures 28 <= days <= 31
  {
    DaysInMonth(n / 12, n % 12 + 1)
  }

  /** The day the n-th month starts. */
  function MonthStart(n: int): int
    decreases if n < JANUARY_OF_YEAR_1 then JANUARY_OF_YEAR_1 - n else n - JANUARY_OF_YEAR_1
  {
    if n == JANUARY_OF_YEAR_1 then 0
    else if n > JANUARY_OF_YEAR_1 then MonthStart(n - 1) + Length(n - 1)
    else MonthStart(n + 1) - Length(n)
  }

  /** What time.Date makes of a date: month and day may lie outside their usual range. */
  function DayNumber(year: int, month: int, day: int): int {
    MonthStart(12 * year + month - 1) + day - 1
  }

  function Over(a: int, b: int): nat {
    if a < b then 0 else a - b
  }

  /** The month a day falls in, searched for from the n-th month. */
  function MonthFrom(n: int, day: int): (m: int)
    ensures MonthStart(m) <= day < MonthStart(m) + Length(m)
    decreases Over(MonthStart(n), day), Over(day, MonthStart(n))
  {
    if day < MonthStart(n) then MonthLength(n - 1); MonthFrom(n - 1, day)
    else if MonthStart(n) + Length(n) <= day then MonthLength(n); MonthFrom(n + 1, day)
    else n
  }

  function MonthOf(day: int): int {
    MonthFrom(JANUARY_OF_YEAR_1, day)
  }

  function DateOf(day: int): Date {
    var n := MonthOf(day);
    Date(n / 12, n % 12 + 1, day - MonthStart(n) + 1)
  }

  /** Days since Monday. */
  function SinceMonday(day: int): int {
    day % 7
  }

  // ----- Dates and day numbers -----

  lemma MonthLength(n: int)
    ensures MonthStart(n + 1) == MonthStart(n) + Length(n)
  {
  }

  lemma {:induction false} MonthsAdvance(n: int, m: int)
    requires n <= m
    ensures MonthStart(n) + 28 * (m - n) <= MonthStart(m)
    decreases m - n
  {
    if n < m {
      MonthsAdvance(n, m - 1);
      MonthLength(m - 1);
    }
  }

  /** The months from `first` up to `next` hold exactly the days from the start of one to the start of the other. */
  lemma {:induction false} DaysOfMonths(first: int, next: int, day: int)
    ensures first <= MonthOf(day) < next <==> MonthStart(first) <= day < MonthStart(next)
  {
    var n := MonthOf(day);
    MonthLength(n);
    if first <= n { MonthsAdvance(first, n); } else { MonthsAdvance(n + 1, first); }
    if n < next { MonthsAdvance(n + 1, next); } else { MonthsAdvance(next, n); }
  }

  /** A day's date is a date, and time.Date gives the day back. */
  lemma {:induction false} DateOfDay(day: int)
    ensures var d := DateOf(day); IsDate(d) && DayNumber(d.year, d.month, d.day) == day
  {
    var n := MonthOf(day);
    assert 12 * (n / 12) + n % 12 == n;
  }

  /** Days outside the month count on. */
  lemma {:induction false} DaysCountOn(day: int, k: int)
    ensures var d := DateOf(day); DayNumber(d.year, d.month, d.day + k) == day + k
  {
    var n := MonthOf(day);
    assert 12 * (n / 12) + n % 12 == n;
  }

  lemma {:induction false} DayOfDate(d: Date)
    requires IsDate(d)
    ensures DateOf(DayNumber(d.year, d.month, d.day)) == d
  {
    var n := 12 * d.year + d.month - 1;
    assert n / 12 == d.year && n % 12 == d.month - 1;
    MonthLength(n);
    DaysOfMonths(n, n + 1, DayNumber(d.year, d.month, d.day));
  }

  lemma {:induction false} NextDay(d: Date)
    requires IsDate(d)
    ensures var e := NextDate(d);
            IsDate(e) && DayNumber(e.year, e.month, e.day) == DayNumber(d.year, d.month, d.day) + 1
  {
    var n := 12 * d.year + d.month - 1;
    if d.day == DaysInMonth(d.year, d.month) {
      assert n / 12 == d.year && n % 12 == d.month - 1;
      MonthLength(n);
    }
  }

  /** The date after a date is the date of the next day. */
  lemma {:induction false} DatesAdvance(day: int)
    ensures DateOf(day + 1) == NextDate(DateOf(day))
  {
    var d := DateOf(day);
    DateOfDay(day);
    NextDay(d);
    var e := NextDate(d);
    DayOfDate(e);
    assert DayNumber(e.year, e.month, e.day) == day + 1;
  }

  lemma {:induction false} DatesBegin()
    ensures DateOf(0) == Date(1, 1, 1)
  {
    DayOfDate(Date(1, 1, 1));
  }

  // ----- The Gregorian rule -----

  /** One day more every 4 years, but for every 100 and again for every 400. */
  function LeapDay(year: int): int {
    if year % 400 == 0 then 1 else if year % 100 == 0 then 0 else if year % 4 == 0 then 1 else 0
  }

  /** The days of a common year before each month. */
  const BEFORE_MONTH: seq<int> := [0, 31, 59, 90, 120, 151, 181, 212, 243, 273, 304, 334, 365]

  lemma {:induction false} Multiples(year: int)
    ensures year % 100 == 0 ==> year % 4 == 0
    ensures year % 400 == 0 ==> year % 100 == 0
  {
  }

  lemma {:induction false} LengthIs(year: int, m: nat)
    requires m < 12
    ensures Length(12 * year + m) == BEFORE_MONTH[m + 1] - BEFORE_MONTH[m] + if m == 1 then LeapDay(year) else 0
  {
    var n := 12 * year + m;
    assert n / 12 == year && n % 12 == m;
    Multiples(year);
  }

  lemma {:induction false} MonthInYear(year: int, m: nat)
    requires m <= 12
    ensures MonthStart(12 * year + m) ==
            MonthStart(12 * year) + BEFORE_MONTH[m] + if m >= 2 then LeapDay(year) else 0
  {
    if m > 0 {
      MonthInYear(year, m - 1);
      LengthIs(year, m - 1);
      MonthLength(12 * year + (m - 1));
    }
  }

  lemma {:induction false} OneMore4(y: int)
    ensures (y + 1) / 4 == y / 4 + if (y + 1) % 4 == 0 then 1 else 0
  {
  }

  lemma {:induction false} OneMore100(y: int)
    ensures (y + 1) / 100 == y / 100 + if (y + 1) % 100 == 0 then 1 else 0
  {
  }

  lemma {:induction false} OneMore400(y: int)
    ensures (y + 1) / 400 == y / 400 + if (y + 1) % 400 == 0 then 1 else 0
  {
  }

  /** The days of the first y years: 365 for each and the leap days among them. */
  function DaysOfYears(y: int): int {
    365 * y + y / 4 - y / 100 + y / 400
  }

  lemma {:induction false} OneYearOn(y: int)
    ensures DaysOfYears(y + 1) == DaysOfYears(y) + 365 + LeapDay(y + 1)
  {
    OneMore4(y);
    OneMore100(y);
    OneMore400(y);
    Multiples(y + 1);
  }

  lemma {:induction false} YearStart(year: int)
    ensures MonthStart(12 * year) == DaysOfYears(year - 1)
    decreases if year < 1 then 1 - year else year - 1
  {
    if year > 1 {
      YearStart(year - 1);
      NextYear(year - 1);
      OneYearOn(year - 2);
    } else if year < 1 {
      YearStart(year + 1);
      NextYear(year);
      OneYearOn(year - 1);
    }
  }

  lemma {:induction false} NextYear(year: int)
    ensures MonthStart(12 * (year + 1)) == MonthStart(12 * year) + 365 + LeapDay(year)
  {
    MonthInYear(year, 12);
    assert 12 * (year + 1) == 12 * year + 12;
  }

  lemma {:induction false} LeapDayIs(year: int)
    ensures LeapDay(year) == if year % 4 == 0 && (year % 100 != 0 || year % 400 == 0) then 1 else 0
  {
    Multiples(year);
  }

  /** The day of a date in closed form, by the rule of 4, 100 and 400 years. */
  lemma {:induction false} DayInClosedForm(year: int, month: int, day: int)
    requires 1 <= month <= 12
    ensures var leap := year % 4 == 0 && (year % 100 != 0 || year % 400 == 0);
            DayNumber(year, month, day) ==
            365 * (year - 1) + (year - 1) / 4 - (year - 1) / 100 + (year - 1) / 400
            + [0, 31, 59, 90, 120, 151, 181, 212, 243, 273, 304, 334][month - 1]
            + (if month > 2 && leap then 1 else 0) + day - 1
  {
    DayInYear(year, month, day);
    LeapDayIs(year);
    BeforeMonths(month);
  }

  lemma {:induction false} BeforeMonths(month: int)
    requires 1 <= month <= 12
    ensures BEFORE_MONTH[month - 1] == [0, 31, 59, 90, 120, 151, 181, 212, 243, 273, 304, 334][month - 1]
  {
  }

  lemma {:induction false} DayInYear(year: int, month: int, day: int)
    requires 1 <= month <= 12
    ensures DayNumber(year, month, day) ==
            DaysOfYears(year - 1) + BEFORE_MONTH[month - 1] + (if month > 2 then LeapDay(year) else 0) + day - 1
  {
    YearStart(year);
    MonthInYear(year, month - 1);
  }

  /** 400 years have 146097 days, whenever they begin. */
  lemma {:induction false} FourHundredYears(year: int, month: int, day: int)
    requires 1 <= month <= 12
    ensures DayNumber(year + 400, month, day) == DayNumber(year, month, day) + 146_097
  {
    DayInYear(year, month, day);
    DayInYear(year + 400, month, day);
    YearsOn(year - 1);
    SameLeapDay(year);
  }

  lemma {:induction false} YearsOn(y: int)
    ensures DaysOfYears(y + 400) == DaysOfYears(y) + 146_097
  {
    assert (y + 400) / 4 == y / 4 + 100;
    assert (y + 400) / 100 == y / 100 + 4;
    assert (y + 400) / 400 == y / 400 + 1;
  }

  lemma {:induction false} SameLeapDay(year: int)
    ensures LeapDay(year + 400) == LeapDay(year)
  {
    assert (year + 400) % 4 == year % 4;
    assert (year + 400) % 100 == year % 100;
    assert (year + 400) % 400 == year % 400;
  }

  /** The Unix epoch is a Thursday, 1 January 1970. */
  lemma {:induction false} UnixEpoch(year: int)
    requires year == 1970
    ensures DayNumber(year, 1, 1) == 719_162 && SinceMonday(DayNumber(year, 1, 1)) == 3
  {
    assert DaysOfYears(1969) == 719_162;
    DayInYear(year, 1, 1);
  }

  /** After 28 February comes 29 February in leap years and 1 March in all others. */
  lemma {:induction false} LeapDayFollows(year: int)
    ensures var leap := year % 4 == 0 && (year % 100 != 0 || year % 400 == 0);
            DateOf(DayNumber(year, 2, 28) + 1) == if leap then Date(year, 2, 29) else Date(year, 3, 1)
  {
    DayOfDate(Date(year, 2, 28));
    DatesAdvance(DayNumber(year, 2, 28));
  }
}
