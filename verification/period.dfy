/**
 Calendar periods: pkg/reporting/period.go. A day, a week from Monday, a month, a quarter or a year is the half-open
 interval between two midnights of a zone, made by handing dates with days and months outside their usual range to
 time.Date. Periods of a kind tile the timeline: Next and Previous lead through all of them.
 */
module Periods {
  import opened Calendar

  /** Instants are nanoseconds counted from midnight of 1 January of the year 1, UTC. */
  const NANOSECONDS_PER_DAY := 86_400_000_000_000

  datatype Kind = Day | Week | Month | Quarter | Year | Unknown(name: string)

  /** The half-open interval from start to end; the zone is its offset from UTC in nanoseconds. */
  datatype Period = Period(kind: Kind, start: int, end: int, zone: int) {

    predicate Contains(t: int) {
      start <= t < end
    }

    function Previous(): Period {
      PeriodAt(kind, start - 1, zone)
    }

    function Next(): Period {
      PeriodAt(kind, end, zone)
    }
  }

  function Midnight(day: int, zone: int): int {
    day * NANOSECONDS_PER_DAY - zone
  }

  function DayAt(t: int, zone: int): int {
    (t + zone) / NANOSECONDS_PER_DAY
  }

  /** Go numbers weekdays from Sunday. */
  function WeekdayOf(day: int): int {
    (SinceMonday(day) + 1) % 7
  }

  function DaysSinceMonday(weekday: int): int {
    (weekday + 6) % 7
  }

  function PeriodAt(kind: Kind, at: int, zone: int): Period {
    var today := DayAt(at, zone);
    var date := DateOf(today);
    var y, m, d := date.year, date.month, date.day;
    match kind
    case Week =>
      var offset := DaysSinceMonday(WeekdayOf(today));
      PeriodOf(kind, DayNumber(y, m, d - offset), DayNumber(y, m, d - offset + 7), zone)
    case Month => PeriodOf(kind, DayNumber(y, m, 1), DayNumber(y, m + 1, 1), zone)
    case Quarter =>
      var qm := (m - 1) / 3 * 3 + 1;
      PeriodOf(kind, DayNumber(y, qm, 1), DayNumber(y, qm + 3, 1), zone)
    case Year => PeriodOf(kind, DayNumber(y, 1, 1), DayNumber(y + 1, 1, 1), zone)
    case _ => PeriodOf(Day, DayNumber(y, m, d), DayNumber(y, m, d + 1), zone)
  }

  function PeriodOf(kind: Kind, first: int, next: int, zone: int): Period {
    Period(kind, Midnight(first, zone), Midnight(next, zone), zone)
  }

  // ----- Which days a period has -----

  /** Whether two days belong together, by the calendar alone. */
  predicate SameUnit(kind: Kind, a: int, b: int) {
    var d, e := DateOf(a), DateOf(b);
    match kind
    case Week => a / 7 == b / 7
    case Month => d.year == e.year && d.month == e.month
    case Quarter => d.year == e.year && (d.month - 1) / 3 == (e.month - 1) / 3
    case Year => d.year == e.year
    case _ => a == b
  }

  lemma {:induction false} DaysBetweenMidnights(first: int, next: int, t: int, zone: int)
    ensures Midnight(first, zone) <= t < Midnight(next, zone) <==> first <= DayAt(t, zone) < next
  {
  }

  /** Three months at a time, or twelve, counted from January of the year 0. */
  lemma {:induction false} DaysOfUnits(size: int, unit: int, day: int)
    requires size > 0
    ensures MonthOf(day) / size == unit <==> MonthStart(unit * size) <= day < MonthStart(unit * size + size)
  {
    DaysOfMonths(unit * size, unit * size + size, day);
    QuotientIs(MonthOf(day), size, unit);
  }

  lemma {:induction false} QuotientIs(n: int, size: int, q: int)
    requires size > 0
    ensures n / size == q <==> q * size <= n < q * size + size
  {
    var e := n / size - q;
    assert n == (n / size) * size + n % size;
    assert n - q * size == e * size + n % size;
    Multiple(e, size);
  }

  lemma {:induction false} Multiple(e: int, size: int)
    requires size > 0
    ensures (e >= 1 ==> e * size >= size) && (e <= -1 ==> e * size <= -size)
  {
  }

  lemma {:induction false} QuarterOf(n: int)
    ensures n / 3 == 4 * (n / 12) + n % 12 / 3 && 0 <= n % 12 / 3 < 4
  {
    assert n == 12 * (n / 12) + n % 12;
  }

  lemma {:induction false} QuartersOfAYear(n: int, k: int)
    ensures n / 12 == k / 12 && n % 12 / 3 == k % 12 / 3 <==> n / 3 == k / 3
    ensures n / 12 * 12 + n % 12 / 3 * 3 == n / 3 * 3
  {
    QuarterOf(n);
    QuarterOf(k);
  }

  lemma {:induction false} MonthsOfAYear(n: int, k: int)
    ensures n / 12 == k / 12 && n % 12 == k % 12 <==> n == k
  {
    assert n == 12 * (n / 12) + n % 12 && k == 12 * (k / 12) + k % 12;
  }

  /** `size` months of the calendar as a period of instants. */
  lemma {:induction false} MonthsHold(size: int, at: int, zone: int, t: int)
    requires size > 0
    ensures var first := MonthOf(DayAt(at, zone)) / size * size;
            Midnight(MonthStart(first), zone) <= t < Midnight(MonthStart(first + size), zone) <==>
            MonthOf(DayAt(t, zone)) / size == MonthOf(DayAt(at, zone)) / size
  {
    var unit := MonthOf(DayAt(at, zone)) / size;
    DaysOfUnits(size, unit, DayAt(t, zone));
    DaysBetweenMidnights(MonthStart(unit * size), MonthStart(unit * size + size), t, zone);
  }

  lemma {:induction false} MonthAt(at: int, zone: int)
    ensures var n := MonthOf(DayAt(at, zone));
            PeriodAt(Month, at, zone) == PeriodOf(Month, MonthStart(n), MonthStart(n + 1), zone)
  {
    var n := MonthOf(DayAt(at, zone));
    assert 12 * (n / 12) + n % 12 == n;
  }

  lemma {:induction false} MonthHolds(at: int, zone: int, t: int)
    ensures PeriodAt(Month, at, zone).Contains(t) <==> SameUnit(Month, DayAt(at, zone), DayAt(t, zone))
  {
    var n := MonthOf(DayAt(at, zone));
    MonthAt(at, zone);
    DaysBetweenMidnights(MonthStart(n), MonthStart(n + 1), t, zone);
    DaysOfMonths(n, n + 1, DayAt(t, zone));
    MonthsOfAYear(n, MonthOf(DayAt(t, zone)));
  }

  lemma {:induction false} QuarterHolds(at: int, zone: int, t: int)
    ensures PeriodAt(Quarter, at, zone).Contains(t) <==> SameUnit(Quarter, DayAt(at, zone), DayAt(t, zone))
  {
    MonthsHold(3, at, zone, t);
    QuartersOfAYear(MonthOf(DayAt(at, zone)), MonthOf(DayAt(t, zone)));
  }

  lemma {:induction false} YearHolds(at: int, zone: int, t: int)
    ensures PeriodAt(Year, at, zone).Contains(t) <==> SameUnit(Year, DayAt(at, zone), DayAt(t, zone))
  {
    MonthsHold(12, at, zone, t);
  }

  lemma {:induction false} WeekOf(at: int, zone: int)
    ensures var a := DayAt(at, zone); PeriodAt(Week, at, zone) == PeriodOf(Week, a - a % 7, a - a % 7 + 7, zone)
  {
    var a := DayAt(at, zone);
    assert DaysSinceMonday(WeekdayOf(a)) == a % 7;
    DaysCountOn(a, -(a % 7));
    DaysCountOn(a, -(a % 7) + 7);
  }

  lemma {:induction false} WeekHolds(at: int, zone: int, t: int)
    ensures PeriodAt(Week, at, zone).Contains(t) <==> SameUnit(Week, DayAt(at, zone), DayAt(t, zone))
  {
    var a := DayAt(at, zone);
    WeekOf(at, zone);
    DaysBetweenMidnights(a - a % 7, a - a % 7 + 7, t, zone);
    SameWeek(a, DayAt(t, zone));
  }

  lemma {:induction false} SameWeek(a: int, b: int)
    ensures a - a % 7 <= b < a - a % 7 + 7 <==> a / 7 == b / 7
  {
  }

  lemma {:induction false} DayHolds(at: int, zone: int, t: int)
    ensures PeriodAt(Day, at, zone).Contains(t) <==> DayAt(at, zone) == DayAt(t, zone)
  {
    var a := DayAt(at, zone);
    DaysCountOn(a, 0);
    DaysCountOn(a, 1);
    DaysBetweenMidnights(a, a + 1, t, zone);
  }

  /**
   A period has exactly the instants whose local date falls in the same day, week from Monday, month,
   quarter or year as the instant it was made for, out-of-range days and months notwithstanding.
   */
  lemma {:induction false} HoldsExactly(kind: Kind, at: int, zone: int, t: int)
    ensures PeriodAt(kind, at, zone).Contains(t) <==> SameUnit(kind, DayAt(at, zone), DayAt(t, zone))
  {
    match kind
    case Week => WeekHolds(at, zone, t);
    case Month => MonthHolds(at, zone, t);
    case Quarter => QuarterHolds(at, zone, t);
    case Year => YearHolds(at, zone, t);
    case _ =>
      assert PeriodAt(kind, at, zone) == PeriodAt(Day, at, zone);
      DayHolds(at, zone, t);
  }

  // ----- Periods of a kind tile the timeline -----

  /** Whoever asks for a period by an instant in it gets that period. */
  lemma {:induction false} MadeForAll(kind: Kind, zone: int, at: int, t: int)
    ensures PeriodAt(kind, at, zone).Contains(at)
    ensures PeriodAt(kind, at, zone).Contains(t) ==> PeriodAt(kind, t, zone) == PeriodAt(kind, at, zone)
  {
    HoldsExactly(kind, at, zone, at);
    if PeriodAt(kind, at, zone).Contains(t) {
      SameInterval(kind, at, zone, t);
    }
  }

  /** The interval is settled by the instants in it. */
  lemma {:induction false} SameInterval(kind: Kind, at: int, zone: int, t: int)
    requires PeriodAt(kind, at, zone).Contains(t)
    ensures PeriodAt(kind, t, zone) == PeriodAt(kind, at, zone)
  {
    var p, q := PeriodAt(kind, at, zone), PeriodAt(kind, t, zone);
    HoldsExactly(kind, at, zone, t);
    HoldsExactly(kind, t, zone, t);
    forall x
      ensures p.Contains(x) <==> q.Contains(x)
    {
      HoldsExactly(kind, t, zone, x);
      HoldsExactly(kind, at, zone, x);
    }
    SameBounds(p, q, t);
  }

  lemma {:induction false} SameBounds(p: Period, q: Period, t: int)
    requires (forall x :: p.Contains(x) <==> q.Contains(x)) && p.Contains(t)
    ensures p.start == q.start && p.end == q.end
  {
    assert p.Contains(p.start) && q.Contains(q.start);
    assert p.Contains(p.end - 1) && q.Contains(q.end - 1);
  }

  /** The kind a period is of in the end: an unknown one is read as a day. */
  function Own(kind: Kind): Kind {
    if kind.Unknown? then Day else kind
  }

  lemma {:induction false} KeepsKind(kind: Kind, at: int, zone: int)
    ensures var p := PeriodAt(kind, at, zone);
            p.kind == Own(kind) && p.zone == zone && p == PeriodAt(Own(kind), at, zone)
  {
  }

  /** Two periods of a kind are the same or have no instant in common. */
  lemma {:induction false} Disjoint(kind: Kind, zone: int, at: int, u: int, t: int)
    requires PeriodAt(kind, at, zone).Contains(t) && PeriodAt(kind, u, zone).Contains(t)
    ensures PeriodAt(kind, at, zone) == PeriodAt(kind, u, zone)
  {
    SameInterval(kind, at, zone, t);
    SameInterval(kind, u, zone, t);
  }

  lemma {:induction false} NextIs(p: Period, kind: Kind)
    requires p.kind == Own(kind)
    ensures p.Next() == PeriodAt(kind, p.end, p.zone)
  {
    if kind.Unknown? {
      KeepsKind(kind, p.end, p.zone);
    }
  }

  lemma {:induction false} PreviousIs(p: Period, kind: Kind)
    requires p.kind == Own(kind)
    ensures p.Previous() == PeriodAt(kind, p.start - 1, p.zone)
  {
    if kind.Unknown? {
      KeepsKind(kind, p.start - 1, p.zone);
    }
  }

  /** A period asked for right after p starts where p ends. */
  lemma {:induction false} AfterStarts(p: Period, q: Period, kind: Kind, at: int, zone: int)
    requires p == PeriodAt(kind, at, zone) && q == PeriodAt(kind, p.end, zone)
    ensures q.start == p.end < q.end
  {
    MadeForAll(kind, zone, at, at);
    MadeForAll(kind, zone, p.end, p.end);
    if q.Contains(p.end - 1) {
      Disjoint(kind, zone, at, p.end, p.end - 1);
      assert false;
    }
  }

  /** A period asked for right before p ends where p starts. */
  lemma {:induction false} BeforeEnds(p: Period, q: Period, kind: Kind, at: int, zone: int)
    requires p == PeriodAt(kind, at, zone) && q == PeriodAt(kind, p.start - 1, zone)
    ensures q.start < q.end == p.start
  {
    MadeForAll(kind, zone, at, at);
    MadeForAll(kind, zone, p.start - 1, p.start - 1);
    if q.Contains(p.start) {
      Disjoint(kind, zone, at, p.start - 1, p.start);
      assert false;
    }
  }

  /** Next starts where the period ends, and Previous undoes it. */
  lemma {:induction false} NextMeets(p: Period, kind: Kind, at: int, zone: int)
    requires p == PeriodAt(kind, at, zone)
    ensures p.Next().start == p.end && p.Next().Previous() == p
  {
    var q := p.Next();
    KeepsKind(kind, at, zone);
    KeepsKind(kind, p.end, zone);
    NextIs(p, kind);
    PreviousIs(q, kind);
    AfterStarts(p, q, kind, at, zone);
    MadeForAll(kind, zone, at, p.end - 1);
  }

  /** Previous ends where the period starts, and Next undoes it. */
  lemma {:induction false} PreviousMeets(p: Period, kind: Kind, at: int, zone: int)
    requires p == PeriodAt(kind, at, zone)
    ensures p.Previous().end == p.start && p.Previous().Next() == p
  {
    var q := p.Previous();
    KeepsKind(kind, at, zone);
    KeepsKind(kind, p.start - 1, zone);
    PreviousIs(p, kind);
    NextIs(q, kind);
    BeforeEnds(p, q, kind, at, zone);
    MadeForAll(kind, zone, at, p.start);
  }

  /** The n-th period after a period. */
  function Ahead(p: Period, n: nat): Period
    decreases n
  {
    if n == 0 then p else Ahead(p.Next(), n - 1)
  }

  /** Every later instant lies in one of the periods that follow: the one made for it. */
  lemma {:induction false} EveryInstantIsReached(p: Period, kind: Kind, at: int, zone: int, t: int) returns (n: nat)
    requires p == PeriodAt(kind, at, zone) && at <= t
    ensures Ahead(p, n) == PeriodAt(kind, t, zone)
    decreases if t < p.end then 0 else t - p.end + 1
  {
    MadeForAll(kind, zone, at, t);
    if t < p.end {
      return 0;
    }
    KeepsKind(kind, at, zone);
    NextIs(p, kind);
    AfterStarts(p, p.Next(), kind, at, zone);
    n := EveryInstantIsReached(p.Next(), kind, p.end, zone, t);
    n := n + 1;
  }

  /** The n-th period before a period. */
  function Behind(p: Period, n: nat): Period
    decreases n
  {
    if n == 0 then p else Behind(p.Previous(), n - 1)
  }

  /** And every earlier one in one of the periods that come before. */
  lemma {:induction false} EveryEarlierInstantIsReached(p: Period, kind: Kind, at: int, zone: int, t: int)
    returns (n: nat)
    requires p == PeriodAt(kind, at, zone) && t <= at
    ensures Behind(p, n) == PeriodAt(kind, t, zone)
    decreases if t >= p.start then 0 else p.start - t
  {
    MadeForAll(kind, zone, at, t);
    MadeForAll(kind, zone, at, at);
    if t >= p.start {
      return 0;
    }
    KeepsKind(kind, at, zone);
    PreviousIs(p, kind);
    BeforeEnds(p, p.Previous(), kind, at, zone);
    n := EveryEarlierInstantIsReached(p.Previous(), kind, p.start - 1, zone, t);
    n := n + 1;
  }

  // ----- Where periods begin and end -----

  lemma {:induction false} MidnightIs(day: int, zone: int)
    ensures DayAt(Midnight(day, zone), zone) == day
    ensures (Midnight(day, zone) + zone) % (24 * 60 * 60 * 1_000_000_000) == 0
  {
  }

  /** The first of a month; the month after December is January. */
  lemma {:induction false} FirstOfMonth(year: int, month: int)
    requires 1 <= month <= 13
    ensures DateOf(DayNumber(year, month, 1)) == if month == 13 then Date(year + 1, 1, 1) else Date(year, month, 1)
  {
    if month == 13 {
      DayOfDate(Date(year + 1, 1, 1));
      assert 12 * year + 13 - 1 == 12 * (year + 1) + 1 - 1;
    } else {
      DayOfDate(Date(year, month, 1));
    }
  }

  /** The date a day number falls on, at its local midnight. */
  function DateAt(t: int, zone: int): Date {
    DateOf(DayAt(t, zone))
  }

  /** A period from the first of one month up to the first of another. */
  lemma {:induction false} MonthsSpan(kind: Kind, year: int, first: int, next: int, zone: int)
    requires 1 <= first <= 12 && 1 <= next <= 13
    ensures var p := PeriodOf(kind, DayNumber(year, first, 1), DayNumber(year, next, 1), zone);
            && DateAt(p.start, zone) == Date(year, first, 1)
            && DateAt(p.end, zone) == if next == 13 then Date(year + 1, 1, 1) else Date(year, next, 1)
  {
    MidnightIs(DayNumber(year, first, 1), zone);
    MidnightIs(DayNumber(year, next, 1), zone);
    FirstOfMonth(year, first);
    FirstOfMonth(year, next);
  }

  /** A month runs from its first up to the first of the next one. */
  lemma {:induction false} MonthsBegin(at: int, zone: int)
    ensures var p, d := PeriodAt(Month, at, zone), DateAt(at, zone);
            && DateAt(p.start, zone) == Date(d.year, d.month, 1)
            && DateAt(p.end, zone) == if d.month == 12 then Date(d.year + 1, 1, 1) else Date(d.year, d.month + 1, 1)
  {
    var d := DateAt(at, zone);
    DateOfDay(DayAt(at, zone));
    MonthsSpan(Month, d.year, d.month, d.month + 1, zone);
  }

  lemma {:induction false} QuarterStart(month: int)
    requires 1 <= month <= 12
    ensures (month - 1) / 3 * 3 + 1 == if month <= 3 then 1 else if month <= 6 then 4 else if month <= 9 then 7 else 10
  {
  }

  /** Quarters begin with January, April, July and October. */
  lemma {:induction false} QuartersBegin(at: int, zone: int)
    ensures var p, d := PeriodAt(Quarter, at, zone), DateAt(at, zone);
            && DateAt(p.start, zone) ==
               Date(d.year, if d.month <= 3 then 1 else if d.month <= 6 then 4 else if d.month <= 9 then 7 else 10, 1)
            && DateAt(p.end, zone) ==
               if d.month > 9 then Date(d.year + 1, 1, 1)
               else Date(d.year, if d.month <= 3 then 4 else if d.month <= 6 then 7 else 10, 1)
  {
    var d := DateAt(at, zone);
    DateOfDay(DayAt(at, zone));
    var first := (d.month - 1) / 3 * 3 + 1;
    QuarterStart(d.month);
    MonthsSpan(Quarter, d.year, first, first + 3, zone);
  }

  lemma {:induction false} YearsBegin(at: int, zone: int)
    ensures var p, d := PeriodAt(Year, at, zone), DateAt(at, zone);
            DateAt(p.start, zone) == Date(d.year, 1, 1) && DateAt(p.end, zone) == Date(d.year + 1, 1, 1)
  {
    var y := DateAt(at, zone).year;
    MonthsSpan(Year, y, 1, 13, zone);
    assert 12 * (y + 1) + 1 - 1 == 12 * y + 13 - 1;
  }

  /** Weekdays are numbered from Sunday, one after the other. */
  lemma {:induction false} WeekdaysFollow(day: int)
    ensures WeekdayOf(day + 1) == if WeekdayOf(day) == 6 then 0 else WeekdayOf(day) + 1
    ensures 0 <= WeekdayOf(day) <= 6
    ensures day - DaysSinceMonday(WeekdayOf(day)) <= day && WeekdayOf(day - DaysSinceMonday(WeekdayOf(day))) == 1
  {
  }

  lemma {:induction false} EpochIsThursday(year: int)
    requires year == 1970
    ensures WeekdayOf(DayNumber(year, 1, 1)) == 4
  {
    UnixEpoch(year);
  }

  lemma {:induction false} MondayBefore(day: int)
    ensures SinceMonday(day - day % 7) == 0 && day - day % 7 <= day < day - day % 7 + 7
  {
  }

  /** Weeks have seven days from a Monday. */
  lemma {:induction false} WeeksBegin(at: int, zone: int)
    ensures var p := PeriodAt(Week, at, zone);
            && SinceMonday(DayAt(p.start, zone)) == 0 && DayAt(p.end, zone) == DayAt(p.start, zone) + 7
            && DayAt(p.start, zone) <= DayAt(at, zone) < DayAt(p.end, zone)
  {
    var first := DayAt(at, zone) - DayAt(at, zone) % 7;
    WeekOf(at, zone);
    MondayBefore(DayAt(at, zone));
    MidnightIs(first, zone);
    MidnightIs(first + 7, zone);
  }

  lemma {:induction false} PeriodSpans(kind: Kind, at: int, zone: int) returns (first: int, next: int)
    ensures PeriodAt(kind, at, zone) == PeriodOf(Own(kind), first, next, zone)
  {
    var d := DateAt(at, zone);
    var y, m, day := d.year, d.month, d.day;
    match kind
    case Week =>
      WeekOf(at, zone);
      first := DayAt(at, zone) - DayAt(at, zone) % 7;
      next := first + 7;
    case Month => first, next := DayNumber(y, m, 1), DayNumber(y, m + 1, 1);
    case Quarter =>
      var qm := (m - 1) / 3 * 3 + 1;
      first, next := DayNumber(y, qm, 1), DayNumber(y, qm + 3, 1);
    case Year => first, next := DayNumber(y, 1, 1), DayNumber(y + 1, 1, 1);
    case _ => first, next := DayNumber(y, m, day), DayNumber(y, m, day + 1);
  }

  /** Every period begins and ends at midnight in its zone: a whole number of days of 24 times 60 times 60 seconds. */
  lemma {:induction false} MidnightToMidnight(kind: Kind, at: int, zone: int)
    ensures var p := PeriodAt(kind, at, zone);
            && (p.start + zone) % (24 * 60 * 60 * 1_000_000_000) == 0
            && (p.end + zone) % (24 * 60 * 60 * 1_000_000_000) == 0
  {
    var first, next := PeriodSpans(kind, at, zone);
    MidnightIs(first, zone);
    MidnightIs(next, zone);
  }

  lemma {:induction false} EpochIs(seconds: int, day: int)
    requires seconds == 62_135_596_800 && day == 719_162
    ensures seconds * 1_000_000_000 == Midnight(day, 0)
    ensures (seconds - 3 * 24 * 60 * 60) * 1_000_000_000 == Midnight(day - 3, 0)
    ensures day % 7 == 3
  {
  }

  /** The week of the Unix epoch, a Thursday, begins on 29 December 1969; its month is January 1970. */
  lemma {:induction false} EpochPeriods(year: int, seconds: int)
    requires year == 1970 && seconds == 62_135_596_800
    ensures DateAt(seconds * 1_000_000_000, 0) == Date(year, 1, 1)
    ensures PeriodAt(Week, seconds * 1_000_000_000, 0).start == (seconds - 3 * 24 * 60 * 60) * 1_000_000_000
    ensures PeriodAt(Month, seconds * 1_000_000_000, 0).start == seconds * 1_000_000_000
  {
    var day := DayNumber(year, 1, 1);
    UnixEpoch(year);
    EpochIs(seconds, day);
    MidnightIs(day, 0);
    DayOfDate(Date(year, 1, 1));
    WeekOf(Midnight(day, 0), 0);
    MonthStartsAt(Midnight(day, 0), year, 1);
  }

  lemma {:induction false} MonthStartsAt(at: int, year: int, month: int)
    requires DateAt(at, 0) == Date(year, month, 1)
    ensures PeriodAt(Month, at, 0).start == Midnight(DayNumber(year, month, 1), 0)
  {
  }
}
