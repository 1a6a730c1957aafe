/** Concrete instances of the toolkit's behaviour.

    Most start from 2021-01-02 15:04:05 UTC, a Saturday, which is Unix second
    1609599845. Instants are passed as parameters fixed by a precondition, and
    each date used is established once, by its own lemma, through the
    field-level lemmas of `Civil`. */
module Scenarios {
  import opened Civil
  import opened TimeKits

  /** `time.Date` of a valid date whose day number is `z`. */
  lemma DateIs(y: int, m: int, d: int, h: int, mi: int, s: int, z: int, t: int)
    requires ValidDate(y, m, d) && DaysFromCivil(y, m, d) == z
    requires 0 <= h * 3600 + mi * 60 + s < 86400 && t == z * 86400 + h * 3600 + mi * 60 + s
    ensures Date(y, m, d, h, mi, s) == t
    ensures CivilOf(t) == CivilDate(y, m, d) && SecondOfDay(t) == h * 3600 + mi * 60 + s
  {
    NormalizeInRange(y, m);
    CivilOfDayNumber(y, m, d, h * 3600 + mi * 60 + s, t);
  }

  // ---------------------------------------------------------------- dates

  /** 2021-01-02 15:04:05, a Saturday. */
  lemma Saturday20210102(t: int)
    requires t == 1609599845
    ensures Date(2021, 1, 2, 15, 4, 5) == t
    ensures CivilOf(t) == CivilDate(2021, 1, 2) && SecondOfDay(t) == 54245
  {
    assert DaysFromCivil(2021, 1, 2) == 18629;
    DateIs(2021, 1, 2, 15, 4, 5, 18629, t);
  }

  lemma SaturdayWeekday(t: int)
    requires t == 1609599845
    ensures WeekdayOf(t) == Saturday && OnWeekend(t)
  {
  }

  /** 2020-12-28 00:00:00, a Monday. */
  lemma Monday20201228(t: int)
    requires t == 1609113600
    ensures Date(2020, 12, 28, 0, 0, 0) == t
    ensures CivilOf(t) == CivilDate(2020, 12, 28) && SecondOfDay(t) == 0
  {
    assert DaysFromCivil(2020, 12, 28) == 18624;
    DateIs(2020, 12, 28, 0, 0, 0, 18624, t);
  }

  /** 2021-01-08 15:04:05, a Friday. */
  lemma Friday20210108(t: int)
    requires t == 1610118245
    ensures Date(2021, 1, 8, 15, 4, 5) == t
    ensures CivilOf(t) == CivilDate(2021, 1, 8) && SecondOfDay(t) == 54245
  {
    assert DaysFromCivil(2021, 1, 8) == 18635;
    DateIs(2021, 1, 8, 15, 4, 5, 18635, t);
  }

  lemma FridayWeekday(t: int)
    requires t == 1610118245
    ensures WeekdayOf(t) == Friday && !OnWeekend(t)
  {
  }

  /** 2020-09-18 10:30:40. */
  lemma September20200918(t: int)
    requires t == 1600425040
    ensures Date(2020, 9, 18, 10, 30, 40) == t
    ensures CivilOf(t) == CivilDate(2020, 9, 18) && SecondOfDay(t) == 37840
  {
    assert DaysFromCivil(2020, 9, 18) == 18523;
    DateIs(2020, 9, 18, 10, 30, 40, 18523, t);
  }

  // ------------------------------------------------------------- examples

  /** `StartOfCentury` on 2021 goes to the year 2000; before year 0 the
      truncating remainder rounds toward 0. */
  lemma CenturyYears()
    ensures CenturyStart(2021) == 2000 && CenturyEnd(2021) == 2099
    ensures CenturyStart(-2021) == -2000 && CenturyEnd(-2021) == -1901
  {
  }

  /** From 2021-01-02 15:04:05, `StartOfCentury` gives 2000-01-01 00:00:00. */
  method StartOfCenturyExample(t0: int) returns (t: int)
    requires t0 == 1609599845
    ensures CivilOf(t) == CivilDate(2000, 1, 1) && SecondOfDay(t) == 0
  {
    Saturday20210102(t0);
    CenturyYears();
    var k := new TimeKit.NewTimeKit(t0);
    var r := k.StartOfCentury();
    t := k.instant;
  }

  /** With the default Monday start, the week of Saturday 2021-01-02 starts
      on Monday 2020-12-28. */
  lemma WeekStartExample(t: int)
    requires t == 1609599845
    ensures WeekStartAt(t, Monday) == 1609113600
  {
    assert DayNumber(t) == 18629 && SecondOfDay(t) == 54245;
    assert WeekdayOf(t) == DayWeekday(18629) == Saturday;
    assert (Saturday - Monday) % 7 == 5;
  }

  method StartOfWeekExample(t0: int) returns (t: int)
    requires t0 == 1609599845
    ensures t == 1609113600
  {
    WeekStartExample(t0);
    var k := new TimeKit.NewTimeKit(t0);
    var r := k.StartOfWeek();
    t := k.instant;
  }

  /** The weekday walk from Saturday 2021-01-02: Sunday is skipped and the
      fifth weekday is Friday 2021-01-08, at the same clock. */
  lemma {:induction false} WalkExample(t: int)
    requires t == 1609599845
    ensures WalkWeekdays(t, 5, 1) == 1610118245
  {
    var d := 86400;
    assert OnWeekend(t + d);
    assert WalkWeekdays(t, 5, 1) == WalkWeekdays(t + d, 5, 1);
    assert WalkWeekdays(t + d, 5, 1) == WalkWeekdays(t + 2 * d, 4, 1);
    assert WalkWeekdays(t + 2 * d, 4, 1) == WalkWeekdays(t + 3 * d, 3, 1);
    assert WalkWeekdays(t + 3 * d, 3, 1) == WalkWeekdays(t + 4 * d, 2, 1);
    assert WalkWeekdays(t + 4 * d, 2, 1) == WalkWeekdays(t + 5 * d, 1, 1);
    assert WalkWeekdays(t + 5 * d, 1, 1) == WalkWeekdays(t + 6 * d, 0, 1);
  }

  /** `AddWeekdays(5)` from Saturday 2021-01-02 15:04:05 gives Friday
      2021-01-08 15:04:05. */
  method AddWeekdaysExample(t0: int) returns (t: int)
    requires t0 == 1609599845
    ensures t == 1610118245
  {
    WalkExample(t0);
    var k := new TimeKit.NewTimeKit(t0);
    var r := k.AddWeekdays(5);
    t := k.instant;
  }

  /** 2021-01-02 15:04:05 against 2020-09-18 10:30:40 is three whole months. */
  lemma MonthDifferenceExample(t1: int, t2: int)
    requires t1 == 1609599845 && t2 == 1600425040
    ensures CountMonthDifference(t1, t2, true) == 3
  {
    Saturday20210102(t1);
    September20200918(t2);
    MonthsOfDates(t1, t2);
  }

  /** The month difference depends only on the two dates, not on the clocks. */
  lemma MonthsOfDates(t1: int, t2: int)
    requires CivilOf(t1) == CivilDate(2021, 1, 2) && CivilOf(t2) == CivilDate(2020, 9, 18)
    ensures CountMonthDifference(t1, t2, true) == 3
    ensures CountMonthDifference(t2, t1, false) == -4
    ensures CalendarMonthsBetween(t1, t2) == 3
  {
  }

  /** On any instant of 2021-01-31, `AddDate` rolls one month over to
      2021-03-03 ... */
  lemma RollOverExample(t: int)
    requires CivilOf(t) == CivilDate(2021, 1, 31)
    ensures CivilOf(AddDate(t, 0, 1, 0)) == CivilDate(2021, 3, 3)
  {
    assert NormalizeMonth(2021, 2) == (2021, 2) && DaysInMonth(2021, 2) == 28;
    assert NextMonth(2021, 2) == (2021, 3);
    assert YearOf(t) == 2021 && MonthOf(t) == 1 && DayOf(t) == 31;
    AddDateMonths(t, 0, 1);
  }

  /** ... while `AddMonthsNoOverflow` falls back to the last day of the month
      before the original date, 2020-12-31, not to 2021-02-28. */
  lemma NoOverflowExample(t: int)
    requires CivilOf(t) == CivilDate(2021, 1, 31)
    ensures CivilOf(AddMonthsNoOverflowAt(t, 1)) == CivilDate(2020, 12, 31)
    ensures SecondOfDay(AddMonthsNoOverflowAt(t, 1)) == SecondOfDay(t)
  {
    assert NormalizeMonth(2021, 2) == (2021, 2) && DaysInMonth(2021, 2) == 28;
    assert PreviousMonth(2021, 1) == (2020, 12) && DaysInMonth(2020, 12) == 31;
    assert YearOf(t) == 2021 && MonthOf(t) == 1 && DayOf(t) == 31;
    NoOverflowFallsBack(t, 1);
  }

  /** `EndOfMonth` lands on the last day of the month at midnight. */
  method EndOfMonthExample(t0: int) returns (t: int)
    requires t0 == 1609599845
    ensures CivilOf(t) == CivilDate(2021, 1, 31) && SecondOfDay(t) == 0
  {
    Saturday20210102(t0);
    var k := new TimeKit.NewTimeKit(t0);
    var r := k.EndOfMonth();
    t := k.instant;
  }

  /** Whether an instant falls on a weekday: the filter of the next examples. */
  predicate OnWeekday(x: int) {
    !OnWeekend(x)
  }

  /** The seven days after Saturday 2021-01-02: Sunday, five weekdays, and
      Saturday again. */
  lemma WeekAfterSaturday(t: int)
    requires t == 1609599845
    ensures !OnWeekday(t + 86400) && !OnWeekday(t + 7 * 86400)
    ensures OnWeekday(t + 2 * 86400) && OnWeekday(t + 3 * 86400) && OnWeekday(t + 4 * 86400)
    ensures OnWeekday(t + 5 * 86400) && OnWeekday(t + 6 * 86400)
  {
  }

  /** Seven days from Saturday 2021-01-02 the backward walk visits Saturday
      the 9th, then Friday the 8th down to Sunday the 3rd: five of those days
      are weekdays. */
  lemma WeekdayFilterExample(t: int)
    requires t == 1609599845
    ensures FilteredDiff(t, t + 7 * 86400, 86400, OnWeekday, false) == 5
    ensures FilteredDiff(t + 7 * 86400, t, 86400, OnWeekday, false) == -5
  {
    var d, f := 86400, OnWeekday;
    WeekAfterSaturday(t);
    CountStepsBack(t, t + 7 * d, d, f);
    CountStepsBack(t, t + 6 * d, d, f);
    CountStepsBack(t, t + 5 * d, d, f);
    CountStepsBack(t, t + 4 * d, d, f);
    CountStepsBack(t, t + 3 * d, d, f);
    CountStepsBack(t, t + 2 * d, d, f);
    CountStepsBack(t, t + d, d, f);
    assert CountSteps(t, t, d, f) == 0;
  }

  /** `DiffInDaysFiltered` with a weekday filter over one week gives 5. */
  method DiffInDaysFilteredExample(t0: int) returns (n: int)
    requires t0 == 1609599845
    ensures n == 5
  {
    WeekdayFilterExample(t0);
    var a := new TimeKit.NewTimeKit(t0);
    var b := new TimeKit.NewTimeKit(t0 + 7 * 86400);
    n := a.DiffInDaysFiltered(b, t0, OnWeekday, false);
  }

  /** `OptionSetWeekEndAt` moves the start of the week; the end stays Sunday. */
  lemma WeekEndOptionExample(now: int)
    ensures Configure(now, [OptionSetWeekEndAt(Friday)]).weekStartAt == Friday
    ensures Configure(now, [OptionSetWeekEndAt(Friday)]).weekEndAt == Sunday
  {
    assert [OptionSetWeekEndAt(Friday)][..0] == [];
  }
}
