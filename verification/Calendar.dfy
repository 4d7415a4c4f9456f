/** The two calendar formulas of the firmware: the day count of time_manager.cpp and the
    month lengths and weekday of rtc_manager.cpp. They were written independently; here
    they are proved to describe one calendar. */
module Calendar {
  datatype Date = Date(year: int, month: int, day: int)

  // ---- rtc_manager.cpp ------------------------------------------------------------

  predicate LeapYear(year: int) {
    (year % 4 == 0 && year % 100 != 0) || year % 400 == 0
  }

  const MONTH_DAYS: seq<int> := [31, 28, 31, 30, 31, 30, 31, 31, 30, 31, 30, 31]

  function DaysInMonth(year: int, month: int): int {
    if month < 1 || month > 12 then 0
    else if month == 2 && LeapYear(year) then 29
    else MONTH_DAYS[month - 1]
  }

  predicate ValidDate(d: Date) {
    1 <= d.month <= 12 && 1 <= d.day <= DaysInMonth(d.year, d.month)
  }

  const MONTH_OFFSETS: seq<int> := [0, 3, 2, 5, 0, 3, 5, 1, 4, 6, 2, 4]

  /** year is a uint16_t, so January and February of year 0 belong to year 65535. */
  function RtcWeekday(d: Date): int
    requires 0 <= d.year < 0x1_0000 && 1 <= d.month <= 12
  {
    var adjusted := if d.month < 3 then (d.year - 1) % 0x1_0000 else d.year;
    (adjusted + adjusted / 4 - adjusted / 100 + adjusted / 400 + MONTH_OFFSETS[d.month - 1] + d.day) % 7
  }

  // ---- time_manager.cpp -----------------------------------------------------------

  /** Division of C: the quotient is cut toward zero. */
  function TruncatedQuotient(n: int, m: int): int
    requires m > 0
  {
    if n >= 0 then n / m else -((-n) / m)
  }

  function DaysFromCivil(d: Date): int {
    var year := if d.month <= 2 then d.year - 1 else d.year;
    var era := TruncatedQuotient(if year >= 0 then year else year - 399, 400);
    var yearOfEra := year - era * 400;
    var dayOfYear := (153 * (if d.month > 2 then d.month - 3 else d.month + 9) + 2) / 5 + d.day - 1;
    var dayOfEra := yearOfEra * 365 + yearOfEra / 4 - yearOfEra / 100 + dayOfYear;
    era * 146097 + dayOfEra - 719468
  }

  // ---- One calendar -----------------------------------------------------------------

  function Successor(d: Date): Date {
    if d.day < DaysInMonth(d.year, d.month) then Date(d.year, d.month, d.day + 1)
    else if d.month < 12 then Date(d.year, d.month + 1, 1)
    else Date(d.year + 1, 1, 1)
  }

  predicate Before(a: Date, b: Date) {
    a.year < b.year || (a.year == b.year && (a.month < b.month || (a.month == b.month && a.day < b.day)))
  }

  /** Days before 1 March of a year, on the scale of DaysFromCivil. */
  function MarchFirst(year: int): int {
    365 * year + year / 4 - year / 100 + year / 400 - 719468
  }

  /** Days from 1 March to the first of a month. */
  const MONTH_BASE: seq<int> := [306, 337, 0, 31, 61, 92, 122, 153, 184, 214, 245, 275]

  lemma MonthTable(month: int)
    requires 1 <= month <= 12
    ensures (153 * (if month > 2 then month - 3 else month + 9) + 2) / 5 == MONTH_BASE[month - 1]
  {
  }

  /** The era arithmetic amounts to the plain count of leap days, in every year. */
  lemma DaysFromMarch(d: Date)
    requires 1 <= d.month <= 12
    ensures DaysFromCivil(d)
         == MarchFirst(if d.month <= 2 then d.year - 1 else d.year) + MONTH_BASE[d.month - 1] + d.day - 1
  {
    var year := if d.month <= 2 then d.year - 1 else d.year;
    EraIsFloor(year);
    EraCountsLeapDays(year / 400, year % 400);
    MonthTable(d.month);
  }

  lemma EraIsFloor(year: int)
    ensures TruncatedQuotient(if year >= 0 then year else year - 399, 400) == year / 400
  {
  }

  lemma EraCountsLeapDays(era: int, yoe: int)
    requires 0 <= yoe < 400
    ensures era * 146097 + yoe * 365 + yoe / 4 - yoe / 100 - 719468 == MarchFirst(era * 400 + yoe)
  {
    var year := era * 400 + yoe;
    assert year / 4 == era * 100 + yoe / 4;
    assert year / 100 == era * 4 + yoe / 100;
    assert year / 400 == era;
  }

  lemma MarchFirstGrows(year: int)
    ensures MarchFirst(year) == MarchFirst(year - 1) + if LeapYear(year) then 366 else 365
  {
    QuotientStep(year, 4);
    QuotientStep(year, 100);
    QuotientStep(year, 400);
    Multiples(year);
  }

  lemma Multiples(n: int)
    ensures n % 400 == 0 ==> n % 100 == 0
    ensures n % 100 == 0 ==> n % 4 == 0
  {
    if n % 400 == 0 {
      assert n == 100 * (4 * (n / 400));
      TimesHundred(4 * (n / 400));
    }
    if n % 100 == 0 {
      assert n == 4 * (25 * (n / 100));
      TimesFour(25 * (n / 100));
    }
  }

  lemma TimesHundred(q: int)
    ensures 100 * q % 100 == 0
  {
  }

  lemma TimesFour(q: int)
    ensures 4 * q % 4 == 0
  {
  }

  lemma QuotientStep(n: int, m: int)
    requires m == 4 || m == 100 || m == 400
    ensures n / m == (n - 1) / m + if n % m == 0 then 1 else 0
  {
  }

  lemma Epoch()
    ensures ValidDate(Date(1970, 1, 1)) && DaysFromCivil(Date(1970, 1, 1)) == 0
  {
  }

  lemma StepInMonth(d: Date)
    requires 1 <= d.month <= 12
    ensures DaysFromCivil(Date(d.year, d.month, d.day + 1)) == DaysFromCivil(d) + 1
  {
  }

  lemma StepToMonth(year: int, month: int)
    requires 1 <= month < 12
    ensures DaysFromCivil(Date(year, month + 1, 1)) == DaysFromCivil(Date(year, month, DaysInMonth(year, month))) + 1
  {
    DaysFromMarch(Date(year, month, DaysInMonth(year, month)));
    DaysFromMarch(Date(year, month + 1, 1));
    if month == 2 {
      MarchFirstGrows(year);
    } else {
      MonthBaseStep(month);
    }
  }

  lemma MonthBaseStep(month: int)
    requires 1 <= month < 12 && month != 2
    ensures MONTH_BASE[month] == MONTH_BASE[month - 1] + MONTH_DAYS[month - 1]
  {
  }

  lemma StepToYear(year: int)
    ensures DaysFromCivil(Date(year + 1, 1, 1)) == DaysFromCivil(Date(year, 12, 31)) + 1
  {
    DaysFromMarch(Date(year, 12, 31));
    DaysFromMarch(Date(year + 1, 1, 1));
  }

  lemma SuccessorIsValid(d: Date)
    requires ValidDate(d)
    ensures ValidDate(Successor(d))
  {
  }

  /** One calendar day is one step of the day count, over all years. */
  lemma DayStep(d: Date)
    requires ValidDate(d)
    ensures DaysFromCivil(Successor(d)) == DaysFromCivil(d) + 1
  {
    if d.day < DaysInMonth(d.year, d.month) {
      StepInMonth(d);
    } else if d.month < 12 {
      StepToMonth(d.year, d.month);
    } else {
      StepToYear(d.year);
    }
  }

  lemma {:induction false} StrictlyIncreasing(a: Date, b: Date)
    requires ValidDate(a) && ValidDate(b) && Before(a, b)
    ensures DaysFromCivil(a) < DaysFromCivil(b)
    decreases b.year - a.year, 12 - a.month, 31 - a.day
  {
    var next := Successor(a);
    DayStep(a);
    NextIsNotLater(a, b);
    if next != b {
      StrictlyIncreasing(next, b);
    }
  }

  lemma NextIsNotLater(a: Date, b: Date)
    requires ValidDate(a) && ValidDate(b) && Before(a, b)
    ensures var next := Successor(a);
      && ValidDate(next) && (next == b || Before(next, b))
      && (next.year > a.year || (next.year == a.year && (next.month > a.month || (next.month == a.month && next.day > a.day))))
      && next.year <= b.year && next.month <= 12 && next.day <= 31
  {
  }

  function Predecessor(d: Date): Date {
    if d.day > 1 then Date(d.year, d.month, d.day - 1)
    else if d.month > 1 then Date(d.year, d.month - 1, DaysInMonth(d.year, d.month - 1))
    else Date(d.year - 1, 12, 31)
  }

  lemma PredecessorIsValid(d: Date)
    requires ValidDate(d)
    ensures ValidDate(Predecessor(d)) && Successor(Predecessor(d)) == d
  {
  }

  /** The date a day number stands for, counted out from the epoch. */
  ghost function DateOf(n: int): (d: Date)
    ensures ValidDate(d) && DaysFromCivil(d) == n
    decreases if n < 0 then -n else n
  {
    if n == 0 then Epoch(); Date(1970, 1, 1)
    else if n > 0 then
      var d := DateOf(n - 1);
      SuccessorIsValid(d); DayStep(d); Successor(d)
    else
      var d := DateOf(n + 1);
      PredecessorIsValid(d); DayStep(Predecessor(d)); Predecessor(d)
  }

  /** days_from_civil is a bijection between the valid dates and the integers. */
  lemma DatesAreDayNumbers(d: Date, n: int)
    requires ValidDate(d)
    ensures DaysFromCivil(d) == n <==> d == DateOf(n)
  {
    if DaysFromCivil(d) == n && d != DateOf(n) {
      if Before(d, DateOf(n)) {
        StrictlyIncreasing(d, DateOf(n));
      } else {
        StrictlyIncreasing(DateOf(n), d);
      }
    }
  }

  lemma ModSeven(n: int, q: int)
    ensures (7 * q + n) % 7 == n % 7
  {
  }

  lemma MonthOffsetsAreBases(month: int)
    requires 1 <= month <= 12
    ensures (MONTH_BASE[month - 1] + 2 - MONTH_OFFSETS[month - 1]) % 7 == 0
  {
  }

  /** The sum rtc_weekday reduces, before any wrap of its year. */
  function WeekdaySum(d: Date): int
    requires 1 <= d.month <= 12
  {
    var year := if d.month < 3 then d.year - 1 else d.year;
    year + year / 4 - year / 100 + year / 400 + MONTH_OFFSETS[d.month - 1] + d.day
  }

  lemma CountModSeven(d: Date)
    requires 1 <= d.month <= 12
    ensures (DaysFromCivil(d) + 4) % 7 == WeekdaySum(d) % 7
  {
    var year := if d.month <= 2 then d.year - 1 else d.year;
    var k := (MONTH_BASE[d.month - 1] + 2 - MONTH_OFFSETS[d.month - 1]) / 7;
    DaysFromMarch(d);
    MonthOffsetsAreBases(d.month);
    assert DaysFromCivil(d) + 4 == 7 * (52 * year - 102781 + k) + WeekdaySum(d);
    ModSeven(WeekdaySum(d), 52 * year - 102781 + k);
  }

  lemma UnwrappedWeekday(d: Date)
    requires 0 <= d.year < 0x1_0000 && 1 <= d.month <= 12
    requires !(d.year == 0 && d.month < 3)
    ensures RtcWeekday(d) == WeekdaySum(d) % 7
  {
  }

  lemma WrappedWeekday(month: int, day: int)
    requires 1 <= month < 3
    ensures RtcWeekday(Date(0, month, day)) != WeekdaySum(Date(0, month, day)) % 7
  {
    var n := MONTH_OFFSETS[month - 1] + day;
    assert RtcWeekday(Date(0, month, day)) == (7 * 11632 + (n + 2)) % 7;
    assert WeekdaySum(Date(0, month, day)) == 7 * -1 + (n + 5);
    ModSeven(n + 2, 11632);
    ModSeven(n + 5, -1);
  }

  /** The weekday formula agrees with the day count exactly where its 16-bit year does not
      wrap, that is everywhere but January and February of year 0. */
  lemma WeekdayAgrees(d: Date)
    requires ValidDate(d) && 0 <= d.year < 0x1_0000
    ensures RtcWeekday(d) == (DaysFromCivil(d) + 4) % 7 <==> !(d.year == 0 && d.month < 3)
  {
    CountModSeven(d);
    if d.year == 0 && d.month < 3 {
      WrappedWeekday(d.month, d.day);
    } else {
      UnwrappedWeekday(d);
    }
  }
}
