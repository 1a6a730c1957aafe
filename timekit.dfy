/** The time toolkit: a `TimeKit` holds an instant together with its week
    settings, and its methods move that instant through calendar arithmetic,
    snap it to the boundaries of centuries, years, quarters, months, weeks and
    days, and measure differences between two toolkits.

    Instants are Unix seconds in one fixed zone (UTC). "Now", which the toolkit
    reads from the clock whenever an argument is missing, is a parameter. */
module TimeKits {
  import opened GoInt
  import opened Civil

  const DefaultFormat: string := "2006-01-02 15:04:05"
  const DateFormat: string := "2006-01-02"
  const TimeFormat: string := "15:04:05"

  /** The weekend every toolkit is built with; nothing changes it afterwards. */
  const DefaultWeekendDays: seq<Weekday> := [Saturday, Sunday]

  predicate IsWeekendDay(w: Weekday) {
    w in DefaultWeekendDays
  }

  /** Whether an instant falls on a weekend day. */
  predicate OnWeekend(t: int) {
    IsWeekendDay(WeekdayOf(t))
  }

  // =====================================================================
  // Options

  /** Everything a toolkit holds, as one value. */
  datatype KitState = KitState(instant: int, format: string, weekStartAt: Weekday, weekEndAt: Weekday)

  /** The configuration functions `NewOptions` accepts. */
  datatype TimeKitOption =
    | OptionSetFormat(format: string)
    | OptionSetWeekStartAt(start: Weekday)
    | OptionSetWeekEndAt(end: Weekday)
    | OptionSetTime(time: int)

  /** The record `NewOptions` starts from, before any option runs. */
  function DefaultState(now: int): KitState {
    KitState(now, DefaultFormat, Monday, Sunday)
  }

  /** What one option writes. `OptionSetWeekEndAt` writes the start of the
      week, not its end, so no option ever changes `weekEndAt`. */
  function ApplyOption(c: KitState, o: TimeKitOption): (r: KitState)
    ensures r.weekEndAt == c.weekEndAt
    ensures o.OptionSetTime? ==> r.instant == o.time
    ensures !o.OptionSetTime? ==> r.instant == c.instant
    ensures o.OptionSetFormat? ==> r.format == o.format
    ensures !o.OptionSetFormat? ==> r.format == c.format
    ensures o.OptionSetWeekStartAt? ==> r.weekStartAt == o.start
    ensures o.OptionSetWeekEndAt? ==> r.weekStartAt == o.end
    ensures o.OptionSetFormat? || o.OptionSetTime? ==> r.weekStartAt == c.weekStartAt
  {
    match o
    case OptionSetFormat(f) => c.(format := f)
    case OptionSetWeekStartAt(s) => c.(weekStartAt := s)
    case OptionSetWeekEndAt(e) => c.(weekStartAt := e)
    case OptionSetTime(t) => c.(instant := t)
  }

  predicate SetsTime(o: TimeKitOption) {
    o.OptionSetTime?
  }

  /** The record `NewOptions(opts...)` builds: the defaults, then every option
      in order. */
  function Configure(now: int, opts: seq<TimeKitOption>): (c: KitState)
    ensures c.weekEndAt == Sunday
    ensures (forall i :: 0 <= i < |opts| ==> !SetsTime(opts[i])) ==> c.instant == now
    decreases |opts|
  {
    if opts == [] then DefaultState(now)
    else ApplyOption(Configure(now, opts[..|opts| - 1]), opts[|opts| - 1])
  }

  /** The later of two options on the same field wins. */
  lemma {:induction false} LaterWeekStartWins(now: int, opts: seq<TimeKitOption>, s: Weekday, e: Weekday)
    ensures Configure(now, opts + [OptionSetWeekStartAt(s)]).weekStartAt == s
    ensures Configure(now, opts + [OptionSetWeekEndAt(e)]).weekStartAt == e
  {
    assert (opts + [OptionSetWeekStartAt(s)])[..|opts|] == opts;
    assert (opts + [OptionSetWeekEndAt(e)])[..|opts|] == opts;
  }

  /** `NewTimeKit(t)` is `NewOptions(OptionSetTime(t))`: whatever "now" was,
      the result is `t` with the default settings. */
  lemma NewTimeKitIgnoresNow(now: int, t: int)
    ensures Configure(now, [OptionSetTime(t)]) == KitState(t, DefaultFormat, Monday, Sunday)
  {
    assert [OptionSetTime(t)][..0] == [];
  }

  // =====================================================================
  // Small pure helpers

  /** `absoluteValue`: the magnitude when `abs` is set, the value otherwise. */
  function AbsoluteValue(abs: bool, value: int): (r: int)
    ensures abs ==> r >= 0 && (r == value || r == -value)
    ensures !abs ==> r == value
  {
    if abs && value < 0 then -value else value
  }

  /** `swap`. */
  function Swap<T>(a: T, b: T): (T, T) {
    (b, a)
  }

  lemma SwapInvolution<T>(a: T, b: T)
    ensures Swap(Swap(a, b).0, Swap(a, b).1) == (a, b)
    ensures Swap(a, b).0 == b && Swap(a, b).1 == a
  {
  }

  /** `Quarter()` on a month number. */
  function QuarterOf(m: int): (q: int)
    ensures 1 <= q <= 4
    ensures 1 <= m <= 12 ==> 3 * q - 2 <= m <= 3 * q
  {
    if m < 4 then 1
    else if 4 <= m < 7 then 2
    else if 7 <= m < 10 then 3
    else 4
  }

  /** The year `StartOfCentury` moves to: the year less its truncated
      remainder by 100, so years before 0 round toward 0. */
  function CenturyStart(y: int): (r: int)
    ensures r % 100 == 0
    ensures y >= 0 ==> r <= y < r + 100
    ensures y < 0 ==> r - 100 < y <= r
  {
    y - TruncRem(y, 100)
  }

  /** The year `EndOfCentury` moves to. */
  function CenturyEnd(y: int): (r: int)
    ensures r == CenturyStart(y) + 99
  {
    y - 1 - TruncRem(y, 100) + 100
  }

  // =====================================================================
  // Walking over weekdays (`AddWeekdays`)

  /** The weekday one day further in the direction `step`. */
  function WeekdayStep(w: Weekday, step: int): Weekday {
    (w + step) % 7
  }

  /** How many weekend days follow `w` in the direction `step`, counted up
      to two: 0 exactly when the next day is not a weekend day. */
  function WeekendRun(w: Weekday, step: int): (k: nat)
    ensures k <= 2
    ensures k == 0 <==> !IsWeekendDay(WeekdayStep(w, step))
    ensures k == 2 <==> IsWeekendDay(WeekdayStep(w, step)) && IsWeekendDay(WeekdayStep(WeekdayStep(w, step), step))
  {
    var w1 := WeekdayStep(w, step);
    if !IsWeekendDay(w1) then 0
    else if !IsWeekendDay(WeekdayStep(w1, step)) then 1
    else 2
  }

  /** No three days in a row are all weekend days. */
  lemma AtMostTwoWeekendDays(w: Weekday, step: int)
    requires step == 1 || step == -1
    ensures !(IsWeekendDay(w) && IsWeekendDay(WeekdayStep(w, step)) && IsWeekendDay(WeekdayStep(WeekdayStep(w, step), step)))
  {
  }

  /** Stepping onto a weekend day shortens the weekend run ahead. */
  lemma WeekendRunShrinks(w: Weekday, step: int)
    requires step == 1 || step == -1
    ensures IsWeekendDay(WeekdayStep(w, step)) ==> WeekendRun(WeekdayStep(w, step), step) < WeekendRun(w, step)
  {
    AtMostTwoWeekendDays(WeekdayStep(w, step), step);
  }

  /** Where the loop of `AddWeekdays` stops: step one day at a time and count
      the landings that are not weekend days, until `n` are counted. */
  function WalkWeekdays(t: int, n: nat, step: int): int
    requires step == 1 || step == -1
    decreases n, WeekendRun(WeekdayOf(t), step)
  {
    if n == 0 then t
    else
      var t1 := t + 86400 * step;
      WeekdayAfterDays(t, step);
      WeekendRunShrinks(WeekdayOf(t), step);
      if OnWeekend(t1) then WalkWeekdays(t1, n, step) else WalkWeekdays(t1, n - 1, step)
  }

  /** How many days that walk takes: at least `n`, and at most `3n`
      (each weekday landing is preceded by at most two weekend days). */
  function WalkLength(t: int, n: nat, step: int): (k: nat)
    requires step == 1 || step == -1
    ensures n <= k
    ensures n > 0 ==> k <= WeekendRun(WeekdayOf(t), step) + 3 * n - 2
    ensures k <= 3 * n
    decreases n, WeekendRun(WeekdayOf(t), step)
  {
    if n == 0 then 0
    else
      var t1 := t + 86400 * step;
      WeekdayAfterDays(t, step);
      WeekendRunShrinks(WeekdayOf(t), step);
      if OnWeekend(t1) then 1 + WalkLength(t1, n, step) else 1 + WalkLength(t1, n - 1, step)
  }

  /** The number of non-weekend landings among the next `k` days. */
  function WeekdayLandings(t: int, k: nat, step: int): (c: nat)
    ensures c <= k
    decreases k
  {
    if k == 0 then 0
    else (if OnWeekend(t + 86400 * step) then 0 else 1) + WeekdayLandings(t + 86400 * step, k - 1, step)
  }

  /** The walk moves by whole days in the direction of `step`. */
  lemma {:induction false} WalkMovesByDays(t: int, n: nat, step: int)
    requires step == 1 || step == -1
    ensures step == 1 ==> WalkWeekdays(t, n, step) == t + 86400 * WalkLength(t, n, step)
    ensures step == -1 ==> WalkWeekdays(t, n, step) == t - 86400 * WalkLength(t, n, step)
    decreases n, WeekendRun(WeekdayOf(t), step)
  {
    if n > 0 {
      var t1 := t + 86400 * step;
      WeekdayAfterDays(t, step);
      WeekendRunShrinks(WeekdayOf(t), step);
      if OnWeekend(t1) {
        WalkMovesByDays(t1, n, step);
      } else {
        WalkMovesByDays(t1, n - 1, step);
      }
    }
  }

  /** A walk of at least one weekday ends on a day that is not a weekend day. */
  lemma {:induction false} WalkEndsOnWeekday(t: int, n: nat, step: int)
    requires step == 1 || step == -1
    requires n > 0
    ensures !OnWeekend(WalkWeekdays(t, n, step))
    decreases n, WeekendRun(WeekdayOf(t), step)
  {
    var t1 := t + 86400 * step;
    WeekdayAfterDays(t, step);
    WeekendRunShrinks(WeekdayOf(t), step);
    if OnWeekend(t1) {
      WalkEndsOnWeekday(t1, n, step);
    } else if n > 1 {
      WalkEndsOnWeekday(t1, n - 1, step);
    }
  }

  /** One step of `WalkLength`: one day, then the walk on from there with
      `m` weekdays left. */
  lemma WalkLengthStep(t: int, n: nat, m: nat, step: int)
    requires step == 1 || step == -1
    requires n > 0 && m == (if OnWeekend(t + 86400 * step) then n else n - 1)
    ensures WalkLength(t, n, step) == 1 + WalkLength(t + 86400 * step, m, step)
  {
  }

  /** One step of `WeekdayLandings`. */
  lemma LandingsStep(t: int, k: nat, k1: nat, step: int)
    requires k == k1 + 1
    ensures WeekdayLandings(t, k, step) == (if OnWeekend(t + 86400 * step) then 0 else 1) + WeekdayLandings(t + 86400 * step, k1, step)
  {
  }

  /** Exactly `n` of the days the walk passes over are weekday landings. */
  lemma {:induction false} WalkCountsWeekdays(t: int, n: nat, step: int)
    requires step == 1 || step == -1
    ensures WeekdayLandings(t, WalkLength(t, n, step), step) == n
    decreases n, WeekendRun(WeekdayOf(t), step)
  {
    if n > 0 {
      var t1 := t + 86400 * step;
      WeekdayAfterDays(t, step);
      WeekendRunShrinks(WeekdayOf(t), step);
      var m := if OnWeekend(t1) then n else n - 1;
      WalkLengthStep(t, n, m, step);
      LandingsStep(t, WalkLength(t, n, step), WalkLength(t1, m, step), step);
      WalkCountsWeekdays(t1, m, step);
    }
  }

  // =====================================================================
  // Days and weeks

  /** Moving an instant to another clock `s` on the day `k` days away. */
  lemma {:induction false} DayAt(t: int, k: int, s: int, r: int)
    requires 0 <= s < 86400
    requires r == t - SecondOfDay(t) + 86400 * k + s
    ensures DayNumber(r) == DayNumber(t) + k
    ensures SecondOfDay(r) == s
  {
    assert t == 86400 * DayNumber(t) + SecondOfDay(t);
    DivUnique(r, 86400, DayNumber(t) + k, s);
  }

  /** `x mod 7` from a witness of the division. */
  lemma ModSeven(x: int, q: int, r: int)
    requires x == 7 * q + r && 0 <= r < 7
    ensures x % 7 == r
  {
    DivUnique(x, 7, q, r);
  }

  /** Going back `(w - s) mod 7` days from a day with weekday `w` is the
      nearest day at or before it with weekday `s`. */
  lemma {:induction false} WeekdayBack(z: int, s: Weekday)
    ensures DayWeekday(z - (DayWeekday(z) - s) % 7) == s
    ensures forall y :: z - (DayWeekday(z) - s) % 7 < y <= z ==> DayWeekday(y) != s
  {
    var w := DayWeekday(z);
    var back := (w - s) % 7;
    var q := (z + 4) / 7;
    assert z + 4 == 7 * q + w;
    if w >= s {
      ModSeven(w - s, 0, w - s);
      ModSeven(z - back + 4, q, s);
    } else {
      ModSeven(w - s, -1, w - s + 7);
      ModSeven(z - back + 4, q - 1, s);
    }
    forall y | z - back < y <= z
      ensures DayWeekday(y) != s
    {
      var j := z - y;
      if j <= w {
        ModSeven(y + 4, q, w - j);
      } else {
        ModSeven(y + 4, q - 1, w - j + 7);
      }
    }
  }

  /** Going forward `(e - w) mod 7` days from a day with weekday `w` is the
      nearest day at or after it with weekday `e`. */
  lemma {:induction false} WeekdayForward(z: int, e: Weekday)
    ensures DayWeekday(z + (e - DayWeekday(z)) % 7) == e
    ensures forall y :: z <= y < z + (e - DayWeekday(z)) % 7 ==> DayWeekday(y) != e
  {
    var w := DayWeekday(z);
    var ahead := (e - w) % 7;
    var q := (z + 4) / 7;
    assert z + 4 == 7 * q + w;
    if e >= w {
      ModSeven(e - w, 0, e - w);
      ModSeven(z + ahead + 4, q, e);
    } else {
      ModSeven(e - w, -1, e - w + 7);
      ModSeven(z + ahead + 4, q + 1, e);
    }
    forall y | z <= y < z + ahead
      ensures DayWeekday(y) != e
    {
      var j := y - z;
      if w + j < 7 {
        ModSeven(y + 4, q, w + j);
      } else {
        ModSeven(y + 4, q + 1, w + j - 7);
      }
    }
  }

  /** Where `StartOfWeek` lands: midnight of the nearest day at or before
      `t` whose weekday is `start`. */
  function WeekStartAt(t: int, start: Weekday): (r: int)
    ensures WeekdayOf(r) == start && SecondOfDay(r) == 0
    ensures DayNumber(t) - 6 <= DayNumber(r) <= DayNumber(t)
    ensures forall z :: DayNumber(r) < z <= DayNumber(t) ==> DayWeekday(z) != start
  {
    var back := (WeekdayOf(t) - start) % 7;
    WeekdayBack(DayNumber(t), start);
    DayAt(t, -back, 0, t - SecondOfDay(t) - 86400 * back);
    t - SecondOfDay(t) - 86400 * back
  }

  /** Where `EndOfWeek` lands: 23:59:59 of the nearest day at or after `t`
      whose weekday is `end`. */
  function WeekEndAt(t: int, end: Weekday): (r: int)
    ensures WeekdayOf(r) == end && SecondOfDay(r) == 86399
    ensures DayNumber(t) <= DayNumber(r) <= DayNumber(t) + 6
    ensures forall z :: DayNumber(t) <= z < DayNumber(r) ==> DayWeekday(z) != end
  {
    var ahead := (end - WeekdayOf(t)) % 7;
    WeekdayForward(DayNumber(t), end);
    DayAt(t, ahead, 86399, t - SecondOfDay(t) + 86400 * ahead + 86399);
    t - SecondOfDay(t) + 86400 * ahead + 86399
  }

  /** `AddDate(0, 1, -1)` unfolded. */
  lemma NextMonthDayBack(t: int)
    ensures AddDate(t, 0, 1, -1) == Date(YearOf(t) + 0, MonthOf(t) + 1, DayOf(t) + -1, HourOf(t), MinuteOf(t), SecondOf(t))
  {
  }

  /** From the first of a month, one month on and one day back is the last
      day of that month, at the same clock. */
  lemma {:induction false} MonthEnd(t: int)
    requires DayOf(t) == 1
    ensures CivilOf(AddDate(t, 0, 1, -1)) == CivilDate(YearOf(t), MonthOf(t), DaysInMonth(YearOf(t), MonthOf(t)))
    ensures SecondOfDay(AddDate(t, 0, 1, -1)) == SecondOfDay(t)
  {
    NextMonthDayBack(t);
    ClockOf(t);
    DateMonthEnd(YearOf(t), YearOf(t) + 0, MonthOf(t), MonthOf(t) + 1, DayOf(t) + -1, HourOf(t), MinuteOf(t), SecondOf(t));
  }

  /** Day 0 of the month after `m` is the last day of `m`. */
  lemma {:induction false} DateMonthEnd(y: int, year: int, m: int, next: int, day: int, h: int, mi: int, s: int)
    requires year == y && 1 <= m <= 12 && next == m + 1 && day == 0
    requires 0 <= h * 3600 + mi * 60 + s < 86400
    ensures CivilOf(Date(year, next, day, h, mi, s)) == CivilDate(y, m, DaysInMonth(y, m))
    ensures SecondOfDay(Date(year, next, day, h, mi, s)) == h * 3600 + mi * 60 + s
  {
    var ym := NormalizeMonth(year, next);
    assert PreviousMonth(ym.0, ym.1) == (y, m) by {
      if m < 12 {
        NormalizeInRange(year, next);
      }
    }
    CivilOfDateDayZero(year, next, day, h, mi, s);
  }

  // =====================================================================
  // Adding months without overflow

  /** Where `AddMonthsNoOverflow(m)` lands. */
  function AddMonthsNoOverflowAt(t: int, m: int): int {
    var next := AddDate(t, 0, m, 0);
    if DayOf(t) != DayOf(next) then AddDate(t, 0, 0, -DayOf(t)) else next
  }

  /** When the target month has the day, `AddMonthsNoOverflow(m)` is
      `AddDate(0, m, 0)`: the same day and clock, `m` months later. */
  lemma {:induction false} NoOverflowKeepsDay(t: int, m: int)
    requires var target := NormalizeMonth(YearOf(t), MonthOf(t) + m); DayOf(t) <= DaysInMonth(target.0, target.1)
    ensures AddMonthsNoOverflowAt(t, m) == AddDate(t, 0, m, 0)
    ensures var target := NormalizeMonth(YearOf(t), MonthOf(t) + m);
      CivilOf(AddMonthsNoOverflowAt(t, m)) == CivilDate(target.0, target.1, DayOf(t))
    ensures SecondOfDay(AddMonthsNoOverflowAt(t, m)) == SecondOfDay(t)
  {
    var next := AddDate(t, 0, m, 0);
    AddDateMonths(t, 0, m);
    assert DayOf(next) == DayOf(t);
  }

  /** When the target month is too short, `AddMonthsNoOverflow(m)` falls back
      to the last day of the month before the ORIGINAL date, at the same
      clock, whatever `m` is. */
  lemma {:induction false} NoOverflowFallsBack(t: int, m: int)
    requires var target := NormalizeMonth(YearOf(t), MonthOf(t) + m); DayOf(t) > DaysInMonth(target.0, target.1)
    ensures AddMonthsNoOverflowAt(t, m) == AddDate(t, 0, 0, -DayOf(t))
    ensures var prev := PreviousMonth(YearOf(t), MonthOf(t));
      CivilOf(AddMonthsNoOverflowAt(t, m)) == CivilDate(prev.0, prev.1, DaysInMonth(prev.0, prev.1))
    ensures SecondOfDay(AddMonthsNoOverflowAt(t, m)) == SecondOfDay(t)
  {
    var next := AddDate(t, 0, m, 0);
    AddDateMonths(t, 0, m);
    assert DayOf(next) != DayOf(t);
    BackToPreviousMonthEnd(t);
  }

  // =====================================================================
  // Month differences

  /** The months of `countMonthDifference` after whole years are taken out. */
  function MonthInterval(m1: int, d1: int, m2: int, d2: int): (r: int)
    requires 1 <= m1 <= 12 && 1 <= m2 <= 12
    ensures 0 <= r < 12
  {
    var i := (m1 + 12) - m2;
    TruncRem(if d1 < d2 then i - 1 else i, 12)
  }

  /** `countMonthDifference` on the year, month and day of both instants. */
  function MonthDifference(y1: int, m1: int, d1: int, y2: int, m2: int, d2: int, abs: bool): int
    requires 1 <= m1 <= 12 && 1 <= m2 <= 12
  {
    var yearInterval := if m1 < m2 || (m1 == m2 && d1 < d2) then y1 - y2 - 1 else y1 - y2;
    AbsoluteValue(abs, yearInterval * 12 + MonthInterval(m1, d1, m2, d2))
  }

  /** `countMonthDifference(t1, t2, abs)`. */
  function CountMonthDifference(t1: int, t2: int, abs: bool): int {
    MonthDifference(YearOf(t1), MonthOf(t1), DayOf(t1), YearOf(t2), MonthOf(t2), DayOf(t2), abs)
  }

  /** Whole calendar months from the date `(y2, m2, d2)` to `(y1, m1, d1)`:
      the month numbers apart, one less when the day of the month has not been
      reached yet. */
  function MonthsBetween(y1: int, m1: int, d1: int, y2: int, m2: int, d2: int): int {
    12 * (y1 - y2) + (m1 - m2) - (if d1 < d2 then 1 else 0)
  }

  function CalendarMonthsBetween(t1: int, t2: int): int {
    MonthsBetween(YearOf(t1), MonthOf(t1), DayOf(t1), YearOf(t2), MonthOf(t2), DayOf(t2))
  }

  /** The date of `a` is on or before the date of `b`. */
  predicate DateOnOrBefore(a: CivilDate, b: CivilDate) {
    a.year < b.year || (a.year == b.year && (a.month < b.month || (a.month == b.month && a.day <= b.day)))
  }

  /** Taking whole years out first and the remaining months modulo 12 counts
      the calendar months between the two dates. */
  lemma MonthDifferenceClosedForm(y1: int, m1: int, d1: int, y2: int, m2: int, d2: int, abs: bool)
    requires 1 <= m1 <= 12 && 1 <= m2 <= 12
    ensures MonthDifference(y1, m1, d1, y2, m2, d2, abs) == AbsoluteValue(abs, MonthsBetween(y1, m1, d1, y2, m2, d2))
  {
    var i := (m1 + 12) - m2;
    var j := if d1 < d2 then i - 1 else i;
    if m1 < m2 || (m1 == m2 && d1 < d2) {
      DivUnique(j, 12, 0, j);
    } else {
      DivUnique(j, 12, 1, j - 12);
    }
  }

  lemma CountMonthDifferenceClosedForm(t1: int, t2: int, abs: bool)
    ensures CountMonthDifference(t1, t2, abs) == AbsoluteValue(abs, CalendarMonthsBetween(t1, t2))
  {
    MonthDifferenceClosedForm(YearOf(t1), MonthOf(t1), DayOf(t1), YearOf(t2), MonthOf(t2), DayOf(t2), abs);
  }

  /** The month count is not negative exactly when the second date is not
      after the first, and swapping the dates negates it, less one when the
      days of the month differ. */
  lemma MonthsBetweenSign(y1: int, m1: int, d1: int, y2: int, m2: int, d2: int)
    requires 1 <= m1 <= 12 && 1 <= m2 <= 12
    ensures MonthsBetween(y1, m1, d1, y2, m2, d2) >= 0 <==> DateOnOrBefore(CivilDate(y2, m2, d2), CivilDate(y1, m1, d1))
    ensures MonthsBetween(y1, m1, d1, y2, m2, d2) == -MonthsBetween(y2, m2, d2, y1, m1, d1) - (if d1 != d2 then 1 else 0)
  {
    if y1 > y2 {
      assert 12 * (y1 - y2) >= 12;
    } else if y1 < y2 {
      assert 12 * (y1 - y2) <= -12;
    }
  }

  lemma CalendarMonthsSign(t1: int, t2: int)
    ensures CalendarMonthsBetween(t1, t2) >= 0 <==> DateOnOrBefore(CivilOf(t2), CivilOf(t1))
    ensures CalendarMonthsBetween(t1, t2) == -CalendarMonthsBetween(t2, t1) - (if DayOf(t1) != DayOf(t2) then 1 else 0)
  {
    MonthsBetweenSign(YearOf(t1), MonthOf(t1), DayOf(t1), YearOf(t2), MonthOf(t2), DayOf(t2));
  }

  // =====================================================================
  // Filtered differences

  lemma DivStep(x: int, step: int)
    requires x >= step >= 1
    ensures (x - step) / step == x / step - 1
  {
    DivUnique(x, step, (x - step) / step + 1, (x - step) % step);
  }

  /** The guard of the `DiffFiltered` loop: a non-negative gap still holds a
      whole step exactly when its truncated quotient is positive. */
  lemma StepGuard(gap: int, step: int)
    requires gap >= 0 && step >= 1
    ensures TruncDiv(gap, step) > 0 <==> gap >= step
  {
    if gap >= step {
      DivUnique(gap, step, (gap - step) / step + 1, (gap - step) % step);
    } else {
      DivUnique(gap, step, 0, gap);
    }
  }

  /** What the loop of `DiffFiltered` counts while walking `end` back towards
      `start`: the points `end`, `end - step`, ... that the filter accepts,
      as long as a whole step remains between the point and `start`. */
  function CountSteps(start: int, end: int, step: int, f: int -> bool): (c: nat)
    requires step >= 1
    ensures start <= end ==> c <= (end - start) / step
    ensures end - start < step ==> c == 0
    decreases end - start
  {
    if end - start >= step then
      DivStep(end - start, step);
      (if f(end) then 1 else 0) + CountSteps(start, end - step, step, f)
    else 0
  }

  /** One iteration of the walk: the point `end` is counted or not, and the
      walk goes on from `end - step`. */
  lemma CountStepsBack(start: int, end: int, step: int, f: int -> bool)
    requires step >= 1 && end - start >= step
    ensures CountSteps(start, end, step, f) == (if f(end) then 1 else 0) + CountSteps(start, end - step, step, f)
  {
  }

  /** With a filter that accepts everything the walk counts `(end - start) / step`
      points: the number of times its loop runs. */
  lemma {:induction false} CountStepsAll(start: int, end: int, step: int, f: int -> bool)
    requires step >= 1 && start <= end
    requires forall x :: f(x)
    ensures CountSteps(start, end, step, f) == (end - start) / step
    decreases end - start
  {
    if end - start >= step {
      DivStep(end - start, step);
      CountStepsAll(start, end - step, step, f);
    } else {
      DivUnique(end - start, step, 0, end - start);
    }
  }

  /** What `DiffFiltered` returns from `from` (the receiver) to `to`: the walk
      runs from the later instant back to the earlier one, and the count is
      negated when `from` is the later. */
  function FilteredDiff(from: int, to: int, step: int, f: int -> bool, abs: bool): (r: int)
    requires step >= 1
    ensures abs ==> r >= 0
    ensures abs && from <= to ==> r <= (to - from) / step
    ensures abs && from > to ==> r <= (from - to) / step
    ensures !abs && from <= to ==> 0 <= r <= (to - from) / step
    ensures !abs && from > to ==> -((from - to) / step) <= r <= 0
  {
    var inverse := from > to;
    var lo := if inverse then to else from;
    var hi := if inverse then from else to;
    var count: int := CountSteps(lo, hi, step, f);
    AbsoluteValue(abs, if inverse then -count else count)
  }

  /** Exchanging the two instants negates the signed filtered count and keeps
      the absolute one: both directions walk the same points. */
  lemma FilteredDiffAntisymmetric(a: int, b: int, step: int, f: int -> bool)
    requires step >= 1
    ensures FilteredDiff(a, b, step, f, false) == -FilteredDiff(b, a, step, f, false)
    ensures FilteredDiff(a, b, step, f, true) == FilteredDiff(b, a, step, f, true)
  {
    if a == b {
      assert CountSteps(a, a, step, f) == 0;
    }
  }

  /** With a filter that accepts everything and no `abs`, the filtered count
      is the signed gap divided by the step, truncated toward zero. */
  lemma FilteredDiffAllPass(from: int, to: int, step: int, f: int -> bool)
    requires step >= 1
    requires forall x :: f(x)
    ensures FilteredDiff(from, to, step, f, false) == TruncDiv(to - from, step)
  {
    if from > to {
      CountStepsAll(to, from, step, f);
      TruncDivNegate(from - to, step);
    } else {
      CountStepsAll(from, to, step, f);
    }
  }

  /** The loop of `DiffFiltered`: walks `end` back one step at a time while
      a whole step separates it from `start`, counting the points the filter
      accepts; `end` stops less than one step after `start`. */
  method WalkBack(start: TimeKit, end: TimeKit, now: int, step: int, f: int -> bool) returns (diffNumber: int)
    requires start != end && start.instant <= end.instant && step >= 1
    modifies end`instant
    ensures diffNumber == CountSteps(start.instant, old(end.instant), step, f)
    ensures start.instant <= end.instant < start.instant + step
    ensures end.instant == old(end.instant) - step * ((old(end.instant) - start.instant) / step)
  {
    diffNumber := 0;
    ghost var lo, hi := start.instant, end.instant;
    ghost var k := 0;
    while TruncDiv(start.DiffInSeconds(end, now, true), step) > 0
      invariant start.instant == lo && lo <= end.instant
      invariant diffNumber + CountSteps(lo, end.instant, step, f) == CountSteps(lo, hi, step, f)
      invariant end.instant == hi - step * k
      decreases end.instant - start.instant
    {
      assert start.DiffInSeconds(end, now, true) == end.instant - start.instant;
      StepGuard(end.instant - start.instant, step);
      ghost var e := end.instant;
      CountStepsBack(lo, e, step, f);
      if f(end.instant) {
        diffNumber := diffNumber + 1;
      }
      assert step * (k + 1) == step * k + step;
      end.SetTime(end.instant - step);
      k := k + 1;
    }
    assert start.DiffInSeconds(end, now, true) == end.instant - start.instant;
    StepGuard(end.instant - start.instant, step);
    DivUnique(hi - lo, step, k, end.instant - lo);
  }

  /** `time.Date` on the same calendar day as `t` at another clock. */
  method ClockOn(t: int, h: int, mi: int, sec: int) returns (u: int)
    ensures u == t - SecondOfDay(t) + h * 3600 + mi * 60 + sec
  {
    SameDayAt(t, h, mi, sec);
    u := Date(YearOf(t), MonthOf(t), DayOf(t), h, mi, sec);
  }

  /** `t.AddDate(0, 0, d)`: in one fixed zone, `d` times 86400 seconds. */
  method ShiftDays(t: int, d: int) returns (u: int)
    ensures u == t + 86400 * d
  {
    AddDaysExact(t, d);
    u := AddDate(t, 0, 0, d);
  }

  // =====================================================================
  // The toolkit

  class TimeKit {
    var instant: int
    var format: string
    const weekendDays: seq<Weekday> := DefaultWeekendDays
    var weekStartAt: Weekday
    var weekEndAt: Weekday

    function State(): KitState
      reads this
    {
      KitState(instant, format, weekStartAt, weekEndAt)
    }

    /** `NewOptions(opts...)`: the defaults, then each option in order. */
    constructor NewOptions(now: int, opts: seq<TimeKitOption>)
      ensures State() == Configure(now, opts)
    {
      instant, format := now, DefaultFormat;
      weekStartAt, weekEndAt := Monday, Sunday;
      new;
      var i := 0;
      while i < |opts|
        invariant 0 <= i <= |opts|
        invariant State() == Configure(now, opts[..i])
      {
        assert opts[..i + 1][..i] == opts[..i];
        Apply(opts[i]);
        i := i + 1;
      }
      assert opts[..|opts|] == opts;
    }

    /** `NewTimeKit(t)`, that is `NewOptions(OptionSetTime(t))`. The clock
        reading `NewOptions` starts from is overwritten at once; `t` stands in
        for it. */
    constructor NewTimeKit(t: int)
      ensures State() == KitState(t, DefaultFormat, Monday, Sunday)
    {
      instant, format := t, DefaultFormat;
      weekStartAt, weekEndAt := Monday, Sunday;
      new;
      Apply(OptionSetTime(t));
    }

    /** Runs one option on this toolkit. */
    method Apply(o: TimeKitOption)
      modifies this
      ensures State() == ApplyOption(old(State()), o)
    {
      match o
      case OptionSetFormat(f) => format := f;
      case OptionSetWeekStartAt(s) => weekStartAt := s;
      case OptionSetWeekEndAt(e) => weekStartAt := e;
      case OptionSetTime(t) => instant := t;
    }

    // ----------------------------------------------------------- setters

    method SetFormat(f: string)
      modifies this`format
      ensures format == f
    {
      format := f;
    }

    method SetTime(t: int)
      modifies this`instant
      ensures instant == t
    {
      instant := t;
    }

    method SetTimestamp(sec: int)
      modifies this`instant
      ensures instant == sec
    {
      SetTime(sec);
    }

    method SetWeekStartsAt(start: Weekday)
      modifies this`weekStartAt
      ensures weekStartAt == start
    {
      weekStartAt := start;
    }

    method SetWeekEndsAt(end: Weekday)
      modifies this`weekEndAt
      ensures weekEndAt == end
    {
      weekEndAt := end;
    }

    // ----------------------------------------------------------- centuries

    method AddCenturies(centuries: int) returns (r: TimeKit)
      modifies this`instant
      ensures r == this && instant == AddDate(old(instant), 100 * centuries, 0, 0)
    {
      SetTime(AddDate(instant, 100 * centuries, 0, 0));
      r := this;
    }

    method AddCentury() returns (r: TimeKit)
      modifies this`instant
      ensures r == this && instant == AddDate(old(instant), 100, 0, 0)
    {
      r := AddCenturies(1);
    }

    method SubCenturies(centuries: int) returns (r: TimeKit)
      modifies this`instant
      ensures r == this && instant == AddDate(old(instant), 100 * -centuries, 0, 0)
    {
      r := AddCenturies(-centuries);
    }

    method SubCentury() returns (r: TimeKit)
      modifies this`instant
      ensures r == this && instant == AddDate(old(instant), -100, 0, 0)
    {
      r := SubCenturies(1);
    }

    // ----------------------------------------------------------- days

    /** Goes through `AddDate`; in one fixed zone a calendar day is 86400
        seconds. */
    method AddDays(d: int) returns (r: TimeKit)
      modifies this`instant
      ensures r == this && instant == old(instant) + 86400 * d
    {
      AddDaysExact(instant, d);
      SetTime(AddDate(instant, 0, 0, d));
      r := this;
    }

    method AddDay() returns (r: TimeKit)
      modifies this`instant
      ensures r == this && instant == old(instant) + 86400
    {
      r := AddDays(1);
    }

    method SubDays(d: int) returns (r: TimeKit)
      modifies this`instant
      ensures r == this && instant == old(instant) - 86400 * d
    {
      r := AddDays(-d);
    }

    method SubDay() returns (r: TimeKit)
      modifies this`instant
      ensures r == this && instant == old(instant) - 86400
    {
      r := SubDays(1);
    }

    // ----------------------------------------------------------- hours

    method AddHours(h: int) returns (r: TimeKit)
      modifies this`instant
      ensures r == this && instant == old(instant) + 3600 * h
    {
      SetTime(instant + h * 3600);
      r := this;
    }

    method AddHour() returns (r: TimeKit)
      modifies this`instant
      ensures r == this && instant == old(instant) + 3600
    {
      r := AddHours(1);
    }

    method SubHours(h: int) returns (r: TimeKit)
      modifies this`instant
      ensures r == this && instant == old(instant) - 3600 * h
    {
      r := AddHours(-h);
    }

    method SubHour() returns (r: TimeKit)
      modifies this`instant
      ensures r == this && instant == old(instant) - 3600
    {
      r := SubHours(1);
    }

    // ----------------------------------------------------------- minutes

    method AddMinutes(m: int) returns (r: TimeKit)
      modifies this`instant
      ensures r == this && instant == old(instant) + 60 * m
    {
      SetTime(instant + m * 60);
      r := this;
    }

    method AddMinute() returns (r: TimeKit)
      modifies this`instant
      ensures r == this && instant == old(instant) + 60
    {
      r := AddMinutes(1);
    }

    method SubMinutes(m: int) returns (r: TimeKit)
      modifies this`instant
      ensures r == this && instant == old(instant) - 60 * m
    {
      r := AddMinutes(-m);
    }

    method SubMinute() returns (r: TimeKit)
      modifies this`instant
      ensures r == this && instant == old(instant) - 60
    {
      r := SubMinutes(1);
    }

    // ----------------------------------------------------------- months

    method AddMonths(m: int) returns (r: TimeKit)
      modifies this`instant
      ensures r == this && instant == AddDate(old(instant), 0, m, 0)
    {
      SetTime(AddDate(instant, 0, m, 0));
      r := this;
    }

    method AddMonth() returns (r: TimeKit)
      modifies this`instant
      ensures r == this && instant == AddDate(old(instant), 0, 1, 0)
    {
      r := AddMonths(1);
    }

    method SubMonths(m: int) returns (r: TimeKit)
      modifies this`instant
      ensures r == this && instant == AddDate(old(instant), 0, -m, 0)
    {
      r := AddMonths(-m);
    }

    method SubMonth() returns (r: TimeKit)
      modifies this`instant
      ensures r == this && instant == AddDate(old(instant), 0, -1, 0)
    {
      r := SubMonths(1);
    }

    method AddMonthsNoOverflow(m: int) returns (r: TimeKit)
      modifies this`instant
      ensures r == this && instant == AddMonthsNoOverflowAt(old(instant), m)
    {
      var newDate := AddDate(instant, 0, m, 0);
      if DayOf(instant) != DayOf(newDate) {
        newDate := LastDayOfPreMonth();
      }
      SetTime(newDate);
      r := this;
    }

    method AddMonthNoOverflow() returns (r: TimeKit)
      modifies this`instant
      ensures r == this && instant == AddMonthsNoOverflowAt(old(instant), 1)
    {
      r := AddMonthsNoOverflow(1);
    }

    method SubMonthsNoOverflow(m: int) returns (r: TimeKit)
      modifies this`instant
      ensures r == this && instant == AddMonthsNoOverflowAt(old(instant), -m)
    {
      r := AddMonthsNoOverflow(-m);
    }

    method SubMonthNoOverflow() returns (r: TimeKit)
      modifies this`instant
      ensures r == this && instant == AddMonthsNoOverflowAt(old(instant), -1)
    {
      r := SubMonthsNoOverflow(1);
    }

    // ----------------------------------------------------------- quarters

    method AddQuarters(q: int) returns (r: TimeKit)
      modifies this`instant
      ensures r == this && instant == AddDate(old(instant), 0, 3 * q, 0)
    {
      SetTime(AddDate(instant, 0, 3 * q, 0));
      r := this;
    }

    method AddQuarter() returns (r: TimeKit)
      modifies this`instant
      ensures r == this && instant == AddDate(old(instant), 0, 3, 0)
    {
      r := AddQuarters(1);
    }

    method SubQuarters(q: int) returns (r: TimeKit)
      modifies this`instant
      ensures r == this && instant == AddDate(old(instant), 0, 3 * -q, 0)
    {
      r := AddQuarters(-q);
    }

    method SubQuarter() returns (r: TimeKit)
      modifies this`instant
      ensures r == this && instant == AddDate(old(instant), 0, -3, 0)
    {
      r := SubQuarters(1);
    }

    // ----------------------------------------------------------- seconds

    method AddSeconds(s: int) returns (r: TimeKit)
      modifies this`instant
      ensures r == this && instant == old(instant) + s
    {
      SetTime(instant + s);
      r := this;
    }

    method AddSecond() returns (r: TimeKit)
      modifies this`instant
      ensures r == this && instant == old(instant) + 1
    {
      r := AddSeconds(1);
    }

    method SubSeconds(s: int) returns (r: TimeKit)
      modifies this`instant
      ensures r == this && instant == old(instant) - s
    {
      r := AddSeconds(-s);
    }

    method SubSecond() returns (r: TimeKit)
      modifies this`instant
      ensures r == this && instant == old(instant) - 1
    {
      r := SubSeconds(1);
    }

    // ----------------------------------------------------------- weeks

    method AddWeeks(w: int) returns (r: TimeKit)
      modifies this`instant
      ensures r == this && instant == old(instant) + 604800 * w
    {
      AddDaysExact(instant, 7 * w);
      SetTime(AddDate(instant, 0, 0, 7 * w));
      r := this;
    }

    method AddWeek() returns (r: TimeKit)
      modifies this`instant
      ensures r == this && instant == old(instant) + 604800
    {
      r := AddWeeks(1);
    }

    method SubWeeks(w: int) returns (r: TimeKit)
      modifies this`instant
      ensures r == this && instant == old(instant) - 604800 * w
    {
      r := AddWeeks(-w);
    }

    method SubWeek() returns (r: TimeKit)
      modifies this`instant
      ensures r == this && instant == old(instant) - 604800
    {
      r := SubWeeks(1);
    }

    // ----------------------------------------------------------- weekdays

    /** Steps one day at a time in the sign of `wd` and counts the landings
        that are weekdays, until `|wd|` are counted. */
    method AddWeekdays(wd: int) returns (r: TimeKit)
      modifies this`instant
      ensures r == this
      ensures instant == WalkWeekdays(old(instant), if wd < 0 then -wd else wd, if wd < 0 then -1 else 1)
      ensures wd == 0 ==> instant == old(instant)
      ensures wd != 0 ==> !OnWeekend(instant)
      ensures instant == old(instant) + (if wd < 0 then -86400 else 86400) * WalkLength(old(instant), if wd < 0 then -wd else wd, if wd < 0 then -1 else 1)
    {
      ghost var before := instant;
      var n, step := wd, 1;
      if wd < 0 {
        n, step := -wd, -step;
      }
      while n > 0
        invariant step == (if wd < 0 then -1 else 1)
        invariant n >= 0
        invariant WalkWeekdays(instant, n, step) == WalkWeekdays(old(instant), if wd < 0 then -wd else wd, step)
        decreases n, WeekendRun(WeekdayOf(instant), step)
      {
        WeekdayAfterDays(instant, step);
        WeekendRunShrinks(WeekdayOf(instant), step);
        r := AddDays(step);
        var weekday := IsWeekday();
        if weekday {
          n := n - 1;
        }
      }
      WalkMovesByDays(before, if wd < 0 then -wd else wd, step);
      if wd != 0 {
        WalkEndsOnWeekday(before, if wd < 0 then -wd else wd, step);
      }
      r := this;
    }

    method AddWeekday() returns (r: TimeKit)
      modifies this`instant
      ensures r == this && instant == WalkWeekdays(old(instant), 1, 1)
    {
      r := AddWeekdays(1);
    }

    method SubWeekdays(wd: int) returns (r: TimeKit)
      modifies this`instant
      ensures r == this
      ensures instant == WalkWeekdays(old(instant), if wd > 0 then wd else -wd, if wd > 0 then -1 else 1)
    {
      r := AddWeekdays(-wd);
    }

    method SubWeekday() returns (r: TimeKit)
      modifies this`instant
      ensures r == this && instant == WalkWeekdays(old(instant), 1, -1)
    {
      r := SubWeekdays(1);
    }

    // ----------------------------------------------------------- years

    method AddYears(y: int) returns (r: TimeKit)
      modifies this`instant
      ensures r == this && instant == AddDate(old(instant), y, 0, 0)
    {
      SetTime(AddDate(instant, y, 0, 0));
      r := this;
    }

    method AddYear() returns (r: TimeKit)
      modifies this`instant
      ensures r == this && instant == AddDate(old(instant), 1, 0, 0)
    {
      r := AddYears(1);
    }

    method SubYears(y: int) returns (r: TimeKit)
      modifies this`instant
      ensures r == this && instant == AddDate(old(instant), -y, 0, 0)
    {
      r := AddYears(-y);
    }

    method SubYear() returns (r: TimeKit)
      modifies this`instant
      ensures r == this && instant == AddDate(old(instant), -1, 0, 0)
    {
      r := SubYears(1);
    }

    // ----------------------------------------------------------- differences

    /** `DiffInSeconds`: the other toolkit's seconds less this one's; a
        missing toolkit stands for "now". */
    function DiffInSeconds(t: TimeKit?, now: int, abs: bool): (r: int)
      reads this, t
      ensures abs ==> r >= 0
    {
      var other := if t == null then now else t.Timestamp();
      AbsoluteValue(abs, other - Timestamp())
    }

    function DiffInMinutes(t: TimeKit?, now: int, abs: bool): (r: int)
      reads this, t
      ensures abs ==> r >= 0
    {
      TruncDiv(DiffInSeconds(t, now, abs), 60)
    }

    function DiffInHours(t: TimeKit?, now: int, abs: bool): (r: int)
      reads this, t
      ensures r == TruncDiv(DiffInSeconds(t, now, abs), 3600)
      ensures abs ==> r >= 0
    {
      TruncDivNested(DiffInSeconds(t, now, abs), 60, 60);
      TruncDiv(DiffInMinutes(t, now, abs), 60)
    }

    /** The chain `/60`, `/60`, `/24` is one truncating division by 86400. */
    function DiffInDays(t: TimeKit?, now: int, abs: bool): (r: int)
      reads this, t
      ensures r == TruncDiv(DiffInSeconds(t, now, abs), 86400)
      ensures abs ==> r >= 0
    {
      TruncDivNested(DiffInSeconds(t, now, abs), 3600, 24);
      TruncDiv(DiffInHours(t, now, abs), 24)
    }

    /** `DiffInMonths`: calendar months from the other toolkit's date to
        this one's. */
    function DiffInMonths(t: TimeKit?, now: int, abs: bool): (r: int)
      reads this, t
      ensures r == AbsoluteValue(abs, CalendarMonthsBetween(instant, if t == null then now else t.instant))
    {
      var other := if t == null then now else t.instant;
      CountMonthDifferenceClosedForm(Timestamp(), other, abs);
      CountMonthDifference(Timestamp(), other, abs)
    }

    /** `DiffFiltered`: walks a copy of the later instant back one step at a
        time while a whole step separates it from the earlier one, and counts
        the points the filter accepts. */
    method DiffFiltered(t: TimeKit?, now: int, step: int, f: int -> bool, abs: bool) returns (r: int)
      requires step >= 1
      ensures r == FilteredDiff(instant, if t == null then now else t.instant, step, f, abs)
    {
      var other: TimeKit;
      if t == null {
        other := new TimeKit.NewTimeKit(now);
      } else {
        other := t;
      }
      var start := Copy();
      var end := other.Copy();
      var inverse := false;
      if start.instant > end.instant {
        var swapped := Swap(start, end);
        start, end := swapped.0, swapped.1;
        inverse := true;
      }
      var diffNumber := WalkBack(start, end, now, step, f);
      if inverse {
        diffNumber := -diffNumber;
      }
      r := AbsoluteValue(abs, diffNumber);
    }

    method DiffInDaysFiltered(t: TimeKit?, now: int, f: int -> bool, abs: bool) returns (r: int)
      ensures r == FilteredDiff(instant, if t == null then now else t.instant, 86400, f, abs)
    {
      r := DiffFiltered(t, now, 86400, f, abs);
    }

    method DiffInHoursFiltered(t: TimeKit?, now: int, f: int -> bool, abs: bool) returns (r: int)
      ensures r == FilteredDiff(instant, if t == null then now else t.instant, 3600, f, abs)
    {
      r := DiffFiltered(t, now, 3600, f, abs);
    }

    // ----------------------------------------------------------- boundaries

    method StartOfCentury() returns (r: TimeKit)
      modifies this`instant
      ensures r == this
      ensures instant == Date(CenturyStart(YearOf(old(instant))), 1, 1, 0, 0, 0)
      ensures CivilOf(instant) == CivilDate(CenturyStart(YearOf(old(instant))), 1, 1) && SecondOfDay(instant) == 0
    {
      var year := CenturyStart(YearOf(instant));
      CivilOfValidDate(year, 1, 1, 0, 0, 0);
      SetTime(Date(year, 1, 1, 0, 0, 0));
      r := this;
    }

    method EndOfCentury() returns (r: TimeKit)
      modifies this`instant
      ensures r == this
      ensures instant == Date(CenturyEnd(YearOf(old(instant))), 12, 31, 23, 59, 59)
      ensures CivilOf(instant) == CivilDate(CenturyStart(YearOf(old(instant))) + 99, 12, 31)
      ensures SecondOfDay(instant) == 86399
    {
      var year := CenturyEnd(YearOf(instant));
      CivilOfValidDate(year, 12, 31, 23, 59, 59);
      SetTime(Date(year, 12, 31, 23, 59, 59));
      r := this;
    }

    method StartOfYear() returns (r: TimeKit)
      modifies this`instant
      ensures r == this
      ensures CivilOf(instant) == CivilDate(YearOf(old(instant)), 1, 1) && SecondOfDay(instant) == 0
    {
      CivilOfValidDate(YearOf(instant), 1, 1, 0, 0, 0);
      SetTime(Date(YearOf(instant), 1, 1, 0, 0, 0));
      r := this;
    }

    method EndOfYear() returns (r: TimeKit)
      modifies this`instant
      ensures r == this
      ensures CivilOf(instant) == CivilDate(YearOf(old(instant)), 12, 31) && SecondOfDay(instant) == 86399
    {
      CivilOfValidDate(YearOf(instant), 12, 31, 23, 59, 59);
      SetTime(Date(YearOf(instant), 12, 31, 23, 59, 59));
      r := this;
    }

    method StartOfQuarter() returns (r: TimeKit)
      modifies this`instant
      ensures r == this
      ensures var q := QuarterOf(MonthOf(old(instant)));
        CivilOf(instant) == CivilDate(YearOf(old(instant)), 3 * q - 2, 1) && SecondOfDay(instant) == 0
    {
      var m := (Quarter() - 1) * 3 + 1;
      CivilOfValidDate(YearOf(instant), m, 1, 0, 0, 0);
      SetTime(Date(YearOf(instant), m, 1, 0, 0, 0));
      r := this;
    }

    method EndOfQuarter() returns (r: TimeKit)
      modifies this`instant
      ensures r == this
      ensures var q := QuarterOf(MonthOf(old(instant)));
        CivilOf(instant) == CivilDate(YearOf(old(instant)), 3 * q, DaysInMonth(YearOf(old(instant)), 3 * q))
      ensures SecondOfDay(instant) == 86399
    {
      var m := Quarter() * 3;
      var first := Date(YearOf(instant), m, 1, 23, 59, 59);
      CivilOfValidDate(YearOf(instant), m, 1, 23, 59, 59);
      MonthEnd(first);
      SetTime(AddDate(first, 0, 1, -1));
      r := this;
    }

    method StartOfMonth() returns (r: TimeKit)
      modifies this`instant
      ensures r == this
      ensures CivilOf(instant) == CivilDate(YearOf(old(instant)), MonthOf(old(instant)), 1) && SecondOfDay(instant) == 0
    {
      CivilOfValidDate(YearOf(instant), MonthOf(instant), 1, 0, 0, 0);
      SetTime(Date(YearOf(instant), MonthOf(instant), 1, 0, 0, 0));
      r := this;
    }

    /** Lands on the last day of the month at 00:00:00, not at 23:59:59. */
    method EndOfMonth() returns (r: TimeKit)
      modifies this`instant
      ensures r == this
      ensures var y, m := YearOf(old(instant)), MonthOf(old(instant));
        CivilOf(instant) == CivilDate(y, m, DaysInMonth(y, m)) && SecondOfDay(instant) == 0
    {
      var first := Date(YearOf(instant), MonthOf(instant), 1, 0, 0, 0);
      CivilOfValidDate(YearOf(instant), MonthOf(instant), 1, 0, 0, 0);
      MonthEnd(first);
      SetTime(AddDate(first, 0, 1, -1));
      r := this;
    }

    method StartOfWeek() returns (r: TimeKit)
      modifies this`instant
      ensures r == this && instant == WeekStartAt(old(instant), weekStartAt)
    {
      var t0 := instant;
      var t := ClockOn(t0, 0, 0, 0);
      DayAt(t0, 0, 0, t);
      ghost var back := (WeekdayOf(t0) - weekStartAt) % 7;
      WeekdayBack(DayNumber(t0), weekStartAt);
      ghost var k := 0;
      while WeekdayOf(t) != weekStartAt
        invariant 0 <= k <= back
        invariant t == t0 - SecondOfDay(t0) - 86400 * k
        invariant DayNumber(t) == DayNumber(t0) - k
        decreases back - k
      {
        WeekdayAfterDays(t, -1);
        t := ShiftDays(t, -1);
        k := k + 1;
      }
      SetTime(t);
      r := this;
    }

    method EndOfWeek() returns (r: TimeKit)
      modifies this`instant
      ensures r == this && instant == WeekEndAt(old(instant), weekEndAt)
    {
      var t0 := instant;
      var t := ClockOn(t0, 23, 59, 59);
      DayAt(t0, 0, 86399, t);
      ghost var ahead := (weekEndAt - WeekdayOf(t0)) % 7;
      WeekdayForward(DayNumber(t0), weekEndAt);
      ghost var k := 0;
      while WeekdayOf(t) != weekEndAt
        invariant 0 <= k <= ahead
        invariant t == t0 - SecondOfDay(t0) + 86400 * k + 86399
        invariant DayNumber(t) == DayNumber(t0) + k
        decreases ahead - k
      {
        WeekdayAfterDays(t, 1);
        t := ShiftDays(t, 1);
        k := k + 1;
      }
      SetTime(t);
      r := this;
    }

    method StartOfDay() returns (r: TimeKit)
      modifies this`instant
      ensures r == this && instant == old(instant) - SecondOfDay(old(instant))
      ensures CivilOf(instant) == CivilOf(old(instant)) && SecondOfDay(instant) == 0
    {
      var t := ClockOn(instant, 0, 0, 0);
      DayAt(instant, 0, 0, t);
      SameDayNumber(t, instant);
      SetTime(t);
      r := this;
    }

    method EndOfDay() returns (r: TimeKit)
      modifies this`instant
      ensures r == this && instant == old(instant) - SecondOfDay(old(instant)) + 86399
      ensures CivilOf(instant) == CivilOf(old(instant)) && SecondOfDay(instant) == 86399
    {
      var t := ClockOn(instant, 23, 59, 59);
      DayAt(instant, 0, 86399, t);
      SameDayNumber(t, instant);
      SetTime(t);
      r := this;
    }

    // ----------------------------------------------------------- queries

    /** The last day of the previous month, at this toolkit's clock. */
    function LastDayOfPreMonth(): (r: int)
      reads this
      ensures var prev := PreviousMonth(YearOf(instant), MonthOf(instant));
        CivilOf(r) == CivilDate(prev.0, prev.1, DaysInMonth(prev.0, prev.1))
      ensures SecondOfDay(r) == SecondOfDay(instant)
    {
      BackToPreviousMonthEnd(instant);
      AddDate(instant, 0, 0, -DayOf(instant))
    }

    /** Unix seconds. */
    function Timestamp(): int
      reads this
    {
      instant
    }

    /** A new toolkit at the same second, with the DEFAULT settings rather
        than this one's. */
    method Copy() returns (c: TimeKit)
      ensures fresh(c) && c.State() == KitState(instant, DefaultFormat, Monday, Sunday)
    {
      c := new TimeKit.NewTimeKit(Timestamp());
    }

    method IsWeekend() returns (b: bool)
      ensures b == OnWeekend(instant)
    {
      var d := WeekdayOf(instant);
      for i := 0 to |weekendDays|
        invariant d !in weekendDays[..i]
      {
        if d == weekendDays[i] {
          return true;
        }
      }
      return false;
    }

    method IsWeekday() returns (b: bool)
      ensures b == !OnWeekend(instant)
    {
      var weekend := IsWeekend();
      b := !weekend;
    }

    function WeekendDays(): (days: seq<Weekday>)
      ensures days == [Saturday, Sunday]
    {
      weekendDays
    }

    function Quarter(): (q: int)
      reads this
      ensures 1 <= q <= 4 && 3 * q - 2 <= MonthOf(instant) <= 3 * q
    {
      QuarterOf(MonthOf(instant))
    }
  }

  // =====================================================================
  // Properties relating several calls

  /** The signed difference of seconds is antisymmetric. */
  lemma DiffInSecondsAntisymmetric(a: TimeKit, b: TimeKit, now: int)
    ensures a.DiffInSeconds(b, now, false) == -b.DiffInSeconds(a, now, false)
    ensures a.DiffInSeconds(b, now, true) == b.DiffInSeconds(a, now, true)
  {
  }

  /** With an always-true filter and no `abs`, `DiffFiltered` is the seconds
      difference divided by the step. */
  lemma DiffFilteredAllPass(k: TimeKit, t: TimeKit?, now: int, step: int, f: int -> bool)
    requires step >= 1
    requires forall x :: f(x)
    ensures FilteredDiff(k.instant, if t == null then now else t.instant, step, f, false)
      == TruncDiv(k.DiffInSeconds(t, now, false), step)
  {
    FilteredDiffAllPass(k.instant, if t == null then now else t.instant, step, f);
  }

  /** Adding `n` days and then removing `n` days gives back the instant. */
  lemma AddThenSubDays(t: int, n: int)
    ensures AddDate(AddDate(t, 0, 0, n), 0, 0, -n) == t
  {
    AddDaysExact(t, n);
    AddDaysExact(AddDate(t, 0, 0, n), -n);
  }

  /** Adding `w` weeks and then removing `w` weeks gives back the instant. */
  lemma AddThenSubWeeks(t: int, w: int)
    ensures AddDate(AddDate(t, 0, 0, 7 * w), 0, 0, 7 * -w) == t
  {
    AddDaysExact(t, 7 * w);
    AddDaysExact(AddDate(t, 0, 0, 7 * w), 7 * -w);
  }

  /** A copy is a separate toolkit: moving it leaves the original alone. */
  method CopyThenAddDays(k: TimeKit, n: int) returns (c: TimeKit)
    ensures fresh(c) && c != k
    ensures c.instant == k.instant + 86400 * n
    ensures c.weekStartAt == Monday && c.weekEndAt == Sunday
  {
    c := k.Copy();
    var r := c.AddDays(n);
  }

  /** For every fixed-length unit, adding `n` and then subtracting `n` on the
      same toolkit gives back its instant. */
  method AddThenSubRestores(k: TimeKit, n: int)
    modifies k`instant
    ensures k.instant == old(k.instant)
  {
    var r := k.AddDays(n);
    r := k.SubDays(n);
    assert k.instant == old(k.instant);
    r := k.AddWeeks(n);
    r := k.SubWeeks(n);
    assert k.instant == old(k.instant);
    r := k.AddHours(n);
    r := k.SubHours(n);
    assert k.instant == old(k.instant);
    r := k.AddMinutes(n);
    r := k.SubMinutes(n);
    assert k.instant == old(k.instant);
    r := k.AddSeconds(n);
    r := k.SubSeconds(n);
  }
}
