/** Seconds since 1970 to a calendar date (extract_date_params in time.c). */
module Calendar {
  import opened Common

  /** 2000-03-01, counted from 1970-01-01 in seconds. */
  const LEAPOCH: nat := 946684800 + 86400 * (31 + 29)

  /** The same day, counted in days. */
  const MARCH_2000: nat := 11017

  const DAYS_PER_400Y: nat := 365 * 400 + 97
  const DAYS_PER_100Y: nat := 365 * 100 + 24
  const DAYS_PER_4Y: nat := 365 * 4 + 1

  /** How many values an `unsigned long` has on the devices: 32 bits on i386 and the gateways, 64 on a 64-bit host. */
  const ULONG_32: nat := 0x1_0000_0000
  const ULONG_64: nat := 0x1_0000_0000_0000_0000

  const INT_MAX: nat := 0x7fff_ffff

  datatype DateParams = DateParams(
    tm_year: int,   // years since 2000
    tm_mon: int,    // 1..12
    tm_mday: int,   // 1..31
    tm_wday: int,   // 0 is Sunday
    tm_yday: int,   // days since January 1st
    tm_hour: int,
    tm_min: int,
    tm_sec: int)

  // ---- The Gregorian calendar, year by year and month by month ----

  predicate LeapYear(y: int) {
    y % 4 == 0 && (y % 100 != 0 || y % 400 == 0)
  }

  function YearLength(y: int): nat {
    if LeapYear(y) then 366 else 365
  }

  function MonthLength(y: int, m: int): nat
    requires 1 <= m <= 12
  {
    if m == 2 then (if LeapYear(y) then 29 else 28)
    else if m in {4, 6, 9, 11} then 30 else 31
  }

  /** Days from 1970-01-01 to January 1st of year y. */
  function DaysBeforeYear(y: int): nat
    requires y >= 1970
  {
    if y == 1970 then 0 else DaysBeforeYear(y - 1) + YearLength(y - 1)
  }

  /** Days from January 1st of year y to the first of month m. */
  function DaysBeforeMonth(y: int, m: int): nat
    requires 1 <= m <= 12
  {
    if m == 1 then 0 else DaysBeforeMonth(y, m - 1) + MonthLength(y, m - 1)
  }

  predicate ValidDate(d: DateParams) {
    && 0 <= d.tm_year && 1 <= d.tm_mon <= 12
    && 1 <= d.tm_mday <= MonthLength(2000 + d.tm_year, d.tm_mon)
    && 0 <= d.tm_hour < 24 && 0 <= d.tm_min < 60 && 0 <= d.tm_sec < 60
  }

  function DayNumber(d: DateParams): nat
    requires ValidDate(d)
  {
    DaysBeforeYear(2000 + d.tm_year) + DaysBeforeMonth(2000 + d.tm_year, d.tm_mon) + d.tm_mday - 1
  }

  /** The moment a date denotes, in seconds since 1970. */
  function Seconds(d: DateParams): nat
    requires ValidDate(d)
  {
    86400 * DayNumber(d) + 3600 * d.tm_hour + 60 * d.tm_min + d.tm_sec
  }

  /** Day of the week and day of the year belong to the date; 1970-01-01 was a Thursday. */
  predicate Consistent(d: DateParams)
    requires ValidDate(d)
  {
    && d.tm_wday == (DayNumber(d) + 4) % 7
    && d.tm_yday == DaysBeforeMonth(2000 + d.tm_year, d.tm_mon) + d.tm_mday - 1
  }

  /** The calendar is anchored: 2000-01-01 was a Saturday, and 946684800 seconds after 1970-01-01. */
  lemma NewYear2000(d: DateParams)
    requires d.tm_year == 0 && d.tm_mon == 1 && d.tm_mday == 1 && d.tm_hour == 0 && d.tm_min == 0 && d.tm_sec == 0
    ensures ValidDate(d) && Seconds(d) == 946684800
    ensures Consistent(d) <==> d.tm_wday == 6 && d.tm_yday == 0
  {
    DaysBefore2000(2000 + d.tm_year);
  }

  lemma DaysBefore2000(y: int)
    requires y == 2000
    ensures DaysBeforeYear(y) == 10957
  {
    DaysBeforeYearClosed(y);
    LeapDaysBefore(y - 1, 1969);
  }

  lemma LeapDaysBefore(a: nat, b: nat)
    requires a == 1999 && b == 1969
    ensures LeapDays(a) == 484 && LeapDays(b) == 477
  {
  }

  // ---- Closed forms ----

  /** Leap days in the years 1..y. */
  function LeapDays(y: nat): int {
    y / 4 - y / 100 + y / 400
  }

  lemma LeapDaysStep(y: nat)
    requires y > 0
    ensures LeapDays(y) == LeapDays(y - 1) + if LeapYear(y) then 1 else 0
  {
    assert y / 4 == (y - 1) / 4 + if y % 4 == 0 then 1 else 0;
    Century(y);
  }

  lemma Century(y: nat)
    requires y > 0
    ensures y / 100 == (y - 1) / 100 + if y % 100 == 0 then 1 else 0
    ensures y / 400 == (y - 1) / 400 + if y % 400 == 0 then 1 else 0
    ensures (y % 100 == 0 ==> y % 4 == 0) && (y % 400 == 0 ==> y % 100 == 0)
  {
    assert y == 100 * (y / 100) + y % 100;
    assert y == 400 * (y / 400) + y % 400;
  }

  lemma {:induction false} DaysBeforeYearClosed(y: nat)
    requires y >= 1970
    ensures DaysBeforeYear(y) == 365 * (y - 1970) + LeapDays(y - 1) - LeapDays(1969)
  {
    if y > 1970 {
      DaysBeforeYearClosed(y - 1);
      LeapDaysStep(y - 1);
    }
  }

  /** Position of a day counted from 2000-03-01 inside the 400/100/4/1-year cycles. */
  datatype Cycles = Cycles(qc: nat, c: nat, q: nat, years: nat, rest: nat)

  predicate ValidCycles(x: Cycles) {
    && x.c <= 3 && x.q <= 24 && x.years <= 3 && x.rest <= 365
    // the 366th day exists only in a year that ends with February 29th
    && (x.rest == 365 ==> x.years == 3 && (x.q < 24 || x.c == 3))
  }

  function YearOf(x: Cycles): nat {
    2000 + x.years + 4 * x.q + 100 * x.c + 400 * x.qc
  }

  function DaysOf(x: Cycles): nat {
    DAYS_PER_400Y * x.qc + DAYS_PER_100Y * x.c + DAYS_PER_4Y * x.q + 365 * x.years + x.rest
  }

  /** Within 400 years: four centuries, of which the last one keeps the extra day. */
  function CenturyOf(inQc: nat): (c: nat)
    requires inQc < DAYS_PER_400Y
    ensures c <= 3 && 0 <= inQc - c * DAYS_PER_100Y <= DAYS_PER_100Y
    ensures inQc - c * DAYS_PER_100Y == DAYS_PER_100Y ==> c == 3
  {
    if inQc / DAYS_PER_100Y == 4 then 3 else inQc / DAYS_PER_100Y
  }

  /** Within a century: 25 groups of four years, of which the last one may lack the extra day. */
  function GroupOf(inC: nat): (q: nat)
    requires inC <= DAYS_PER_100Y
    ensures q <= 24 && 0 <= inC - q * DAYS_PER_4Y < DAYS_PER_4Y
    ensures inC - q * DAYS_PER_4Y == DAYS_PER_4Y - 1 ==> q < 24 || inC == DAYS_PER_100Y
  {
    if inC / DAYS_PER_4Y == 25 then 24 else inC / DAYS_PER_4Y
  }

  /** Within a group: four years, of which the last one may have the extra day. */
  function YearIn(inQ: nat): (years: nat)
    requires inQ < DAYS_PER_4Y
    ensures years <= 3 && 0 <= inQ - years * 365 <= 365
    ensures inQ - years * 365 == 365 ==> years == 3 && inQ == DAYS_PER_4Y - 1
  {
    if inQ / 365 == 4 then 3 else inQ / 365
  }

  function SplitGroup(qc: nat, c: nat, inC: nat): Cycles
    requires inC <= DAYS_PER_100Y
  {
    var q := GroupOf(inC);
    var inQ := inC - q * DAYS_PER_4Y;
    Cycles(qc, c, q, YearIn(inQ), inQ - YearIn(inQ) * 365)
  }

  /** How a day number falls into the cycles. */
  function Split(days: nat): Cycles {
    var inQc := days % DAYS_PER_400Y;
    SplitGroup(days / DAYS_PER_400Y, CenturyOf(inQc), inQc - CenturyOf(inQc) * DAYS_PER_100Y)
  }

  lemma SplitGroupIsValid(qc: nat, c: nat, inC: nat)
    requires inC <= DAYS_PER_100Y && c <= 3 && (inC == DAYS_PER_100Y ==> c == 3)
    ensures var x := SplitGroup(qc, c, inC);
            ValidCycles(x) && DaysOf(x) == DAYS_PER_400Y * qc + DAYS_PER_100Y * c + inC
  {
  }

  /** The split stays in range and loses no day. */
  lemma SplitIsValid(days: nat)
    ensures ValidCycles(Split(days)) && DaysOf(Split(days)) == days
  {
    var qc, inQc := days / DAYS_PER_400Y, days % DAYS_PER_400Y;
    assert days == DAYS_PER_400Y * qc + inQc;
    SplitGroupIsValid(qc, CenturyOf(inQc), inQc - CenturyOf(inQc) * DAYS_PER_100Y);
  }

  /** January 1st and March 1st of the year the cycles point at. */
  lemma CyclesMeanDays(x: Cycles)
    requires ValidCycles(x)
    ensures DaysBeforeYear(YearOf(x)) + DaysBeforeMonth(YearOf(x), 3) + x.rest == DaysOf(x) + MARCH_2000
  {
    var y := YearOf(x);
    MarchFirst(x);
    DaysBeforeYearClosed(y);
    LeapDaysStep(y);
    FirstTwoMonths(y);
    assert DaysBeforeYear(y) == 365 * (y - 1970) + LeapDays(y - 1) - 477;
  }

  lemma FirstTwoMonths(y: int)
    ensures DaysBeforeMonth(y, 2) == 31 && DaysBeforeMonth(y, 3) == 59 + if LeapYear(y) then 1 else 0
  {
    assert DaysBeforeMonth(y, 2) == DaysBeforeMonth(y, 1) + MonthLength(y, 1);
    assert DaysBeforeMonth(y, 3) == DaysBeforeMonth(y, 2) + MonthLength(y, 2);
  }

  lemma MarchFirst(x: Cycles)
    requires ValidCycles(x)
    ensures LeapDays(YearOf(x)) == 485 + x.q + 24 * x.c + 97 * x.qc
    ensures LeapYear(YearOf(x)) <==> x.years == 0 && (x.q > 0 || x.c == 0)
    ensures LeapYear(YearOf(x) + 1) <==> x.years == 3 && (x.q < 24 || x.c == 3)
  {
    By4(500 + x.q + 25 * x.c + 100 * x.qc, x.years);
    By100(20 + x.c + 4 * x.qc, x.years + 4 * x.q);
    By400(5 + x.qc, x.years + 4 * x.q + 100 * x.c);
    NextLeapYear(x);
  }

  lemma NextLeapYear(x: Cycles)
    requires ValidCycles(x)
    ensures LeapYear(YearOf(x) + 1) <==> x.years == 3 && (x.q < 24 || x.c == 3)
  {
    if x.years < 3 {
      By4(500 + x.q + 25 * x.c + 100 * x.qc, x.years + 1);
    } else {
      By4(501 + x.q + 25 * x.c + 100 * x.qc, 0);
      if x.q < 24 {
        By100(20 + x.c + 4 * x.qc, 4 + 4 * x.q);
      } else if x.c < 3 {
        By100(21 + x.c + 4 * x.qc, 0);
        By400(5 + x.qc, 100 + 100 * x.c);
      } else {
        By400(6 + x.qc, 0);
      }
    }
  }

  lemma By4(q: nat, r: nat)
    requires r < 4
    ensures (4 * q + r) / 4 == q && (4 * q + r) % 4 == r
  {
  }

  lemma By100(q: nat, r: nat)
    requires r < 100
    ensures (100 * q + r) / 100 == q && (100 * q + r) % 100 == r
  {
  }

  lemma By400(q: nat, r: nat)
    requires r < 400
    ensures (400 * q + r) / 400 == q && (400 * q + r) % 400 == r
  {
  }

  // ---- The conversion ----

  /** Lengths of March .. February, with February at its longest. */
  const DAYS_IN_MONTH: seq<int> := [31, 30, 31, 30, 31, 31, 30, 31, 30, 31, 31, 29]

  /** Days of the first k entries. */
  function TableDays(k: nat): nat
    requires k <= 12
  {
    if k == 0 then 0 else TableDays(k - 1) + DAYS_IN_MONTH[k - 1]
  }

  /** The cycle counts of a day number, by division and correction: they lose no day and stay in range. */
  method SplitDays(days: nat) returns (qc_cycles: nat, c_cycles: nat, q_cycles: nat, remyears: nat, remdays: nat)
    ensures var x := Cycles(qc_cycles, c_cycles, q_cycles, remyears, remdays);
            ValidCycles(x) && DaysOf(x) == days
  {
    SplitIsValid(days);
    qc_cycles := days / DAYS_PER_400Y;
    remdays := days % DAYS_PER_400Y;
    ghost var inQc := remdays;

    c_cycles := remdays / DAYS_PER_100Y;
    if c_cycles == 4 {
      c_cycles := c_cycles - 1;
    }
    assert c_cycles == CenturyOf(inQc);
    remdays := remdays - c_cycles * DAYS_PER_100Y;
    ghost var inC := remdays;

    q_cycles := remdays / DAYS_PER_4Y;
    if q_cycles == 25 {
      q_cycles := q_cycles - 1;
    }
    assert q_cycles == GroupOf(inC);
    remdays := remdays - q_cycles * DAYS_PER_4Y;

    remyears := remdays / 365;
    if remyears == 4 {
      remyears := remyears - 1;
    }
    remdays := remdays - remyears * 365;
    assert Cycles(qc_cycles, c_cycles, q_cycles, remyears, remdays) == Split(days);
  }

  /** The month loop: it stays inside the table for every day of a year that begins in March. */
  method FindMonth(dayOfYear: nat) returns (months: nat, remdays: nat)
    requires dayOfYear <= 365
    ensures months <= 11 && remdays < DAYS_IN_MONTH[months] && TableDays(months) + remdays == dayOfYear
  {
    months, remdays := 0, dayOfYear;
    while DAYS_IN_MONTH[months] <= remdays
      invariant 0 <= months <= 11 && TableDays(months) + remdays == dayOfYear
      decreases 12 - months
    {
      TableTotal();
      remdays := remdays - DAYS_IN_MONTH[months];
      months := months + 1;
    }
  }

  /** The moment that an argument stands for: itself from 2000-03-01 on; the unsigned subtraction wraps before. */
  function Moment(t: nat, ulongRange: nat): nat {
    if t >= LEAPOCH then t else t + ulongRange
  }

  /** The first second of the first year whose count from 2000 is too big for an int. */
  const END_OF_YEARS: nat := 86400 * 784352307262

  /** The result is the calendar date of that moment.  None is a year that overflows its int, in the sum of the
      cycles or when the last months of such a year carry into the next one. */
  method ExtractDateParams(t: nat, ulongRange: nat) returns (tm: Option<DateParams>)
    requires ulongRange in {ULONG_32, ULONG_64} && t < ulongRange
    ensures tm.Some? <==> Moment(t, ulongRange) < END_OF_YEARS
    ensures tm.Some? ==> && ValidDate(tm.value) && Consistent(tm.value) && tm.value.tm_year <= INT_MAX
                         && Seconds(tm.value) == Moment(t, ulongRange)
  {
    var secs := (t - LEAPOCH) % ulongRange;
    SinceMarch2000(t, ulongRange);
    var days := secs / 86400;
    var remsecs := secs % 86400;

    var wday := (3 + days) % 7;

    var qc_cycles, c_cycles, q_cycles, remyears, remdays := SplitDays(days);
    ghost var x := Cycles(qc_cycles, c_cycles, q_cycles, remyears, remdays);

    var leap := if remyears == 0 && (q_cycles != 0 || c_cycles == 0) then 1 else 0;
    var yday := remdays + 31 + 28 + leap;
    if yday >= 365 + leap {
      yday := yday - (365 + leap);
    }

    var years := remyears + 4 * q_cycles + 100 * c_cycles + 400 * qc_cycles;
    var months;
    months, remdays := FindMonth(remdays);

    var year, mon := years, months + 3;
    if mon > 12 {
      mon := mon - 12;
      year := year + 1;
    }
    TimeOfDay(remsecs);
    var date := DateParams(year, mon, remdays + 1, wday, yday, remsecs / 3600, remsecs / 60 % 60, remsecs % 60);
    DateIsRight(x, months, remdays, date);
    DayAndTime(secs, date);
    YearFits(date);
    tm := if year <= INT_MAX then Some(date) else None;
  }

  lemma TimeOfDay(r: nat)
    requires r < 86400
    ensures 0 <= r / 3600 < 24 && 3600 * (r / 3600) + 60 * (r / 60 % 60) + r % 60 == r
  {
    assert r / 60 == 60 * (r / 3600) + r / 60 % 60;
  }

  lemma SinceMarch2000(t: nat, ulongRange: nat)
    requires ulongRange in {ULONG_32, ULONG_64} && t < ulongRange
    ensures (t - LEAPOCH) % ulongRange == Moment(t, ulongRange) - LEAPOCH
  {
  }

  lemma DayAndTime(secs: nat, d: DateParams)
    requires ValidDate(d) && DayNumber(d) == secs / 86400 + MARCH_2000
    requires 3600 * d.tm_hour + 60 * d.tm_min + d.tm_sec == secs % 86400
    ensures Seconds(d) == secs + LEAPOCH
    ensures (3 + secs / 86400) % 7 == (DayNumber(d) + 4) % 7
  {
    assert secs == 86400 * (secs / 86400) + secs % 86400;
    Weeks(3 + secs / 86400, 1574);
  }

  lemma Weeks(n: nat, k: nat)
    ensures (n + 7 * k) % 7 == n % 7
  {
  }

  lemma {:induction false} MonthsFromMarch(y: int, m: int)
    requires 3 <= m <= 12
    ensures DaysBeforeMonth(y, m) == DaysBeforeMonth(y, 3) + TableDays(m - 3)
  {
    if m > 3 {
      MonthsFromMarch(y, m - 1);
    }
  }

  lemma TableTotal()
    ensures TableDays(10) == 306 && TableDays(11) == 337
  {
    assert TableDays(4) == 122;
    assert TableDays(8) == 245;
  }

  /** The table has the month lengths, but for the last day of February in common years, which no year reaches. */
  lemma MonthInTable(x: Cycles, months: nat, remdays: nat)
    requires ValidCycles(x) && months <= 11 && remdays < DAYS_IN_MONTH[months]
    requires TableDays(months) + remdays == x.rest
    ensures var next := months + 3 > 12;
            remdays + 1 <= MonthLength(YearOf(x) + (if next then 1 else 0), if next then months - 9 else months + 3)
  {
    if months == 11 {
      TableTotal();
      NextLeapYear(x);
    }
  }

  /** The month loop stops at the month that holds the day. */
  lemma MonthFound(x: Cycles, months: nat, remdays: nat)
    requires ValidCycles(x) && months <= 11 && remdays < DAYS_IN_MONTH[months]
    requires TableDays(months) + remdays == x.rest
    ensures var next := months + 3 > 12;
            var y, m := YearOf(x) + (if next then 1 else 0), if next then months - 9 else months + 3;
            && DaysBeforeMonth(y, m) + remdays
            == DaysBeforeMonth(YearOf(x), 3) + x.rest - if next then YearLength(YearOf(x)) else 0
  {
    TableTotal();
    FirstTwoMonths(YearOf(x));
    FirstTwoMonths(YearOf(x) + 1);
    if months + 3 <= 12 {
      MonthsFromMarch(YearOf(x), months + 3);
    }
  }

  lemma DateIsRight(x: Cycles, months: nat, remdays: nat, d: DateParams)
    requires ValidCycles(x) && months <= 11 && remdays < DAYS_IN_MONTH[months]
    requires TableDays(months) + remdays == x.rest
    requires d.tm_year == YearOf(x) - 2000 + (if months + 3 > 12 then 1 else 0)
    requires d.tm_mon == (if months + 3 > 12 then months - 9 else months + 3) && d.tm_mday == remdays + 1
    requires 0 <= d.tm_hour < 24 && 0 <= d.tm_min < 60 && 0 <= d.tm_sec < 60
    ensures ValidDate(d) && DayNumber(d) == DaysOf(x) + MARCH_2000
    ensures DaysBeforeMonth(2000 + d.tm_year, d.tm_mon) + remdays
         == if x.rest >= 306 then x.rest - 306
            else x.rest + 59 + (if x.years == 0 && (x.q != 0 || x.c == 0) then 1 else 0)
  {
    CyclesMeanDays(x);
    MonthInTable(x, months, remdays);
    MonthFound(x, months, remdays);
    MarchFirst(x);
    FirstTwoMonths(YearOf(x));
    TableTotal();
    TableGrows(months);
  }

  lemma TableGrows(k: nat)
    requires k <= 11
    ensures if k >= 10 then TableDays(k) >= 306 else TableDays(k) + DAYS_IN_MONTH[k] <= 306
  {
    TableTotal();
    assert TableDays(9) == 275 && TableDays(8) == 245;
    assert TableDays(5) == 153 && TableDays(6) == 184 && TableDays(7) == 214;
  }

  // ---- The date is determined by the second it denotes ----

  lemma {:induction false} YearsGrow(y: int, z: int)
    requires 1970 <= y < z
    ensures DaysBeforeYear(y) + YearLength(y) <= DaysBeforeYear(z)
    decreases z
  {
    if y + 1 < z {
      YearsGrow(y, z - 1);
    }
  }

  lemma {:induction false} MonthsGrow(y: int, m: int, n: int)
    requires 1 <= m < n <= 12
    ensures DaysBeforeMonth(y, m) + MonthLength(y, m) <= DaysBeforeMonth(y, n)
    decreases n
  {
    if m + 1 < n {
      MonthsGrow(y, m, n - 1);
    }
  }

  lemma WholeYear(y: int)
    ensures DaysBeforeMonth(y, 12) + 31 == YearLength(y)
  {
    FirstTwoMonths(y);
    MonthsFromMarch(y, 12);
    TableGrows(9);
  }

  lemma DayWithinYear(d: DateParams)
    requires ValidDate(d)
    ensures DayNumber(d) < DaysBeforeYear(2000 + d.tm_year) + YearLength(2000 + d.tm_year)
  {
    var y := 2000 + d.tm_year;
    WholeYear(y);
    if d.tm_mon < 12 {
      MonthsGrow(y, d.tm_mon, 12);
    }
  }

  lemma SameDay(d: DateParams, e: DateParams)
    requires ValidDate(d) && ValidDate(e) && DayNumber(d) == DayNumber(e)
    ensures d.tm_year == e.tm_year && d.tm_mon == e.tm_mon && d.tm_mday == e.tm_mday
  {
    DayWithinYear(d);
    DayWithinYear(e);
    if d.tm_year < e.tm_year {
      YearsGrow(2000 + d.tm_year, 2000 + e.tm_year);
    } else if e.tm_year < d.tm_year {
      YearsGrow(2000 + e.tm_year, 2000 + d.tm_year);
    } else if d.tm_mon < e.tm_mon {
      MonthsGrow(2000 + d.tm_year, d.tm_mon, e.tm_mon);
    } else if e.tm_mon < d.tm_mon {
      MonthsGrow(2000 + d.tm_year, e.tm_mon, d.tm_mon);
    }
  }

  lemma EndOfYears()
    ensures END_OF_YEARS == 86400 * DaysBeforeYear(2000 + INT_MAX + 1)
  {
    DaysBeforeYearClosed(2000 + INT_MAX + 1);
  }

  lemma YearFits(d: DateParams)
    requires ValidDate(d)
    ensures d.tm_year <= INT_MAX <==> Seconds(d) < END_OF_YEARS
  {
    EndOfYears();
    var y := 2000 + d.tm_year;
    DayWithinYear(d);
    if d.tm_year < INT_MAX {
      YearsGrow(y, 2000 + INT_MAX + 1);
    } else if d.tm_year > INT_MAX + 1 {
      YearsGrow(2000 + INT_MAX + 1, y);
    }
  }

  /** No two valid dates denote the same second, so the conversion has only one right answer. */
  lemma SecondsInjective(d: DateParams, e: DateParams)
    requires ValidDate(d) && ValidDate(e) && Consistent(d) && Consistent(e)
    requires Seconds(d) == Seconds(e)
    ensures d == e
  {
    var a := 3600 * d.tm_hour + 60 * d.tm_min + d.tm_sec;
    var b := 3600 * e.tm_hour + 60 * e.tm_min + e.tm_sec;
    assert 0 <= a < 86400 && 0 <= b < 86400;
    SameDay(d, e);
  }
}
