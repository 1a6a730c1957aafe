/** The proleptic Gregorian calendar in one fixed zone (UTC).

    This is the part of Go's `time` package that the toolkit stands on: an
    instant is a count of Unix seconds, `CivilOf` splits it into year, month
    and day, `Date` is `time.Date` (out-of-range months and days roll over
    into neighbouring months and years), `AddDate` is `Time.AddDate`, and
    `WeekdayOf` is `Time.Weekday`.

    Days are counted internally from 0000-03-01: a year that starts in March
    ends with February, so the leap day is always the last day of its year,
    and 400 years always hold 146097 days. */
module Civil {
  import opened GoInt

  // The arithmetic below writes its constants as literals: a day has 86400
  // seconds, 400 years have 146097 days, and 1970-01-01 is day 719468
  // counted from 0000-03-01.

  /** Go's `time.Weekday`: Sunday is 0. */
  type Weekday = w: int | 0 <= w < 7
  const Sunday: Weekday := 0
  const Monday: Weekday := 1
  const Tuesday: Weekday := 2
  const Wednesday: Weekday := 3
  const Thursday: Weekday := 4
  const Friday: Weekday := 5
  const Saturday: Weekday := 6

  datatype CivilDate = CivilDate(year: int, month: int, day: int)

  predicate IsLeapYear(y: int) {
    y % 4 == 0 && (y % 100 != 0 || y % 400 == 0)
  }

  function DaysInMonth(y: int, m: int): (n: int)
    requires 1 <= m <= 12
    ensures 28 <= n <= 31
    ensures n == 29 <==> m == 2 && IsLeapYear(y)
  {
    if m == 2 then (if IsLeapYear(y) then 29 else 28)
    else if m == 4 || m == 6 || m == 9 || m == 11 then 30
    else 31
  }

  predicate ValidDate(y: int, m: int, d: int) {
    1 <= m <= 12 && 1 <= d <= DaysInMonth(y, m)
  }

  // ---------------------------------------------------------------------
  // Years and months counted from March

  /** March is 0, ..., December is 9, January 10, February 11. */
  function MarchIndex(m: int): (mp: int)
    ensures 1 <= m <= 12 ==> 0 <= mp < 12
  {
    if m >= 3 then m - 3 else m + 9
  }

  /** Inverse of MarchIndex. */
  function MonthOfMarchIndex(mp: int): (m: int)
    ensures 0 <= mp < 12 ==> 1 <= m <= 12 && MarchIndex(m) == mp
  {
    if mp < 10 then mp + 3 else mp - 9
  }

  /** Days from March 1 to the first day of the month with March index `mp`. */
  function DaysBeforeMarchMonth(mp: int): int {
    (153 * mp + 2) / 5
  }

  /** The March index of the month holding day `doy` of a March-based year. */
  function MarchMonthOf(doy: int): int {
    (5 * doy + 2) / 153
  }

  function Min3(x: int): int {
    if x < 3 then x else 3
  }

  /** Days from the start of a 400-year era to March 1 of its year `yoe`. */
  function YearStartInEra(yoe: int): int {
    365 * yoe + yoe / 4 - yoe / 100
  }

  /** Whether year `yoe` of an era (March to February) holds February 29. */
  predicate LeapInEra(yoe: int) {
    yoe % 4 == 3 && (yoe % 100 != 99 || yoe == 399)
  }

  function YearLengthInEra(yoe: int): int {
    if LeapInEra(yoe) then 366 else 365
  }

  /** The year of the era that holds day `doe` of the era: whole centuries,
      then four-year cycles, then years; the last century and the last year
      of a cycle are one day longer, hence the clamps. */
  function YearOfEra(doe: int): int {
    var cen := Min3(doe / 36524);
    var doc := doe - 36524 * cen;
    var quad := doc / 1461;
    var yoq := Min3(doc % 1461 / 365);
    100 * cen + 4 * quad + yoq
  }

  /** Days from 0000-03-01 to March 1 of the March-based year `yp`. */
  function MarchYearStart(yp: int): int {
    (yp / 400) * 146097 + YearStartInEra(yp % 400)
  }

  // ---------------------------------------------------------------------
  // Day numbers

  /** Days from 1970-01-01 to the civil date; `d` may lie outside the month,
      the count then runs on into the neighbouring months. */
  function DaysFromCivil(y: int, m: int, d: int): int {
    var yp := if m <= 2 then y - 1 else y;
    MarchYearStart(yp) + DaysBeforeMarchMonth(MarchIndex(m)) + d - 1 - 719468
  }

  /** The civil date of day `doy` (0 is March 1) of the March-based year `yp`,
      whose February falls in civil year `yp + 1`. */
  function MarchDate(yp: int, doy: int): CivilDate {
    var mp := MarchMonthOf(doy);
    var m := MonthOfMarchIndex(mp);
    CivilDate(if m <= 2 then yp + 1 else yp, m, doy - DaysBeforeMarchMonth(mp) + 1)
  }

  /** The civil date of day `doe` of the 400-year era `era`. */
  function CivilOfEraDay(era: int, doe: int): CivilDate {
    var yoe := YearOfEra(doe);
    MarchDate(era * 400 + yoe, doe - YearStartInEra(yoe))
  }

  /** The civil date of the day `z` days after 1970-01-01. */
  function CivilFromDays(z: int): CivilDate {
    var n := z + 719468;
    CivilOfEraDay(n / 146097, n % 146097)
  }

  lemma EraYearParts(cen: int, quad: int, yoq: int)
    requires 0 <= cen <= 3 && 0 <= quad <= 24 && 0 <= yoq <= 3
    ensures var yoe := 100 * cen + 4 * quad + yoq;
      0 <= yoe < 400 && yoe / 100 == cen && yoe % 100 / 4 == quad && yoe % 4 == yoq &&
      YearStartInEra(yoe) == 36524 * cen + 1461 * quad + 365 * yoq &&
      (LeapInEra(yoe) <==> yoq == 3 && (quad != 24 || cen == 3))
  {
    var yoe := 100 * cen + 4 * quad + yoq;
    assert yoe / 4 == 25 * cen + quad;
    assert yoe / 100 == cen;
    assert yoe % 100 == 4 * quad + yoq;
  }

  lemma YearOfEraBounds(doe: int)
    requires 0 <= doe < 146097
    ensures 0 <= YearOfEra(doe) < 400
    ensures 0 <= doe - YearStartInEra(YearOfEra(doe)) < YearLengthInEra(YearOfEra(doe))
  {
    var cen := Min3(doe / 36524);
    var doc := doe - 36524 * cen;
    assert 0 <= doc <= 36524 && (doc == 36524 ==> cen == 3);
    var quad := doc / 1461;
    var doq := doc % 1461;
    assert 0 <= quad <= 24 && doc == 1461 * quad + doq;
    var yoq := Min3(doq / 365);
    var doy := doq - 365 * yoq;
    assert 0 <= doy <= 365 && (doy == 365 ==> doq == 1460 && yoq == 3);
    assert doq == 1460 && quad == 24 ==> cen == 3;
    EraYearParts(cen, quad, yoq);
    assert YearOfEra(doe) == 100 * cen + 4 * quad + yoq;
  }

  lemma YearOfEraOfParts(cen: int, quad: int, yoq: int, doy: int)
    requires 0 <= cen <= 3 && 0 <= quad <= 24 && 0 <= yoq <= 3 && 0 <= doy <= 365
    requires doy == 365 ==> yoq == 3 && (quad != 24 || cen == 3)
    ensures YearOfEra(36524 * cen + 1461 * quad + 365 * yoq + doy) == 100 * cen + 4 * quad + yoq
  {
    var rq := 365 * yoq + doy;
    var rc := 1461 * quad + rq;
    var doe := 36524 * cen + rc;
    assert Min3(doe / 36524) == cen by {
      if rc < 36524 { DivUnique(doe, 36524, cen, rc); } else { DivUnique(doe, 36524, 4, 0); }
    }
    assert rc / 1461 == quad && rc % 1461 == rq by {
      DivUnique(rc, 1461, quad, rq);
    }
    assert Min3(rq / 365) == yoq by {
      if doy < 365 { DivUnique(rq, 365, yoq, doy); } else { DivUnique(rq, 365, 4, 0); }
    }
  }

  lemma YearOfEraInverse(yoe: int, doy: int)
    requires 0 <= yoe < 400 && 0 <= doy < YearLengthInEra(yoe)
    ensures YearOfEra(YearStartInEra(yoe) + doy) == yoe
  {
    var cen, quad, yoq := yoe / 100, yoe % 100 / 4, yoe % 4;
    EraYearParts(cen, quad, yoq);
    assert yoe == 100 * cen + 4 * quad + yoq;
    assert YearStartInEra(yoe) + doy == 36524 * cen + 1461 * quad + 365 * yoq + doy;
    YearOfEraOfParts(cen, quad, yoq, doy);
  }

  lemma YearInEraFits(yoe: int)
    requires 0 <= yoe < 400
    ensures YearStartInEra(yoe) + YearLengthInEra(yoe) <= 146097
  {
  }

  /** `y % k` only depends on what `y` has beyond a multiple of `k`. */
  lemma ModOfShift(y: int, k: int, q: int, x: int)
    requires k > 0 && 0 <= x && y == k * q + x
    ensures y % k == x % k
  {
    assert x == k * (x / k) + x % k;
    assert k * q + k * (x / k) == k * (q + x / k);
    DivUnique(y, k, q + x / k, x % k);
  }

  /** The February that ends year `yoe` of era `era` is in civil year
      `y == era * 400 + yoe + 1`; it has 29 days exactly when the era says so. */
  lemma LeapInEraMatches(era: int, yoe: int, y: int)
    requires 0 <= yoe < 400 && y == era * 400 + yoe + 1
    ensures LeapInEra(yoe) <==> IsLeapYear(y)
  {
    ModOfShift(y, 4, 100 * era, yoe + 1);
    ModOfShift(y, 100, 4 * era, yoe + 1);
    ModOfShift(y, 400, era, yoe + 1);
  }

  lemma MarchMonthBounds(doy: int)
    requires 0 <= doy < 366
    ensures 0 <= MarchMonthOf(doy) < 12
    ensures DaysBeforeMarchMonth(MarchMonthOf(doy)) <= doy < DaysBeforeMarchMonth(MarchMonthOf(doy) + 1)
  {
  }

  lemma MarchMonthInverse(mp: int, k: int)
    requires 0 <= mp < 12 && 0 <= k < DaysBeforeMarchMonth(mp + 1) - DaysBeforeMarchMonth(mp)
    ensures MarchMonthOf(DaysBeforeMarchMonth(mp) + k) == mp
  {
  }

  /** Away from February, the month table from March is the month length. */
  lemma MarchMonthLength(y: int, m: int)
    requires 1 <= m <= 12
    ensures m != 2 ==> DaysInMonth(y, m) == DaysBeforeMarchMonth(MarchIndex(m) + 1) - DaysBeforeMarchMonth(MarchIndex(m))
    ensures m == 2 ==> DaysBeforeMarchMonth(MarchIndex(m)) == 337
  {
  }

  /** One more year of an era starts one year length later. */
  lemma YearStartStep(yoe: int)
    requires 0 <= yoe < 399
    ensures YearStartInEra(yoe + 1) == YearStartInEra(yoe) + YearLengthInEra(yoe)
  {
    var cen, quad, yoq := yoe / 100, yoe % 100 / 4, yoe % 4;
    EraYearParts(cen, quad, yoq);
    assert yoe == 100 * cen + 4 * quad + yoq;
    if yoq < 3 {
      EraYearParts(cen, quad, yoq + 1);
    } else if quad < 24 {
      EraYearParts(cen, quad + 1, 0);
    } else {
      EraYearParts(cen + 1, 0, 0);
    }
  }

  /** A March-based year is 365 days long, 366 when its February has a 29th. */
  lemma MarchYearLength(yp: int, yn: int)
    requires yn == yp + 1
    ensures MarchYearStart(yn) - MarchYearStart(yp) == if IsLeapYear(yn) then 366 else 365
  {
    var era, yoe := yp / 400, yp % 400;
    LeapInEraMatches(era, yoe, yn);
    MarchYearStartOfEra(era, yoe, yp);
    if yoe < 399 {
      MarchYearStartOfEra(era, yoe + 1, yn);
      YearStartStep(yoe);
    } else {
      MarchYearStartOfEra(era + 1, 0, yn);
    }
  }

  // The lemmas below name every function argument by a variable and state
  // the arithmetic between arguments as a precondition, so that their
  // conclusions can be used by matching terms rather than by arithmetic.

  /** Every day of a March-based year names a valid date. */
  lemma {:induction false} MarchDateValid(yp: int, doy: int)
    requires 0 <= doy < (if IsLeapYear(yp + 1) then 366 else 365)
    ensures var c := MarchDate(yp, doy); ValidDate(c.year, c.month, c.day)
  {
    MarchMonthBounds(doy);
    var mp := MarchMonthOf(doy);
    var m := MonthOfMarchIndex(mp);
    MarchMonthLength(yp + 1, m);
    assert MarchDate(yp, doy).month == m;
  }

  /** The day of a March-based year and the date it names determine each other. */
  lemma {:induction false} DaysFromMarchDate(yp: int, doy: int)
    requires 0 <= doy < 366
    ensures var c := MarchDate(yp, doy);
      DaysFromCivil(c.year, c.month, c.day) == MarchYearStart(yp) + doy - 719468
  {
    MarchMonthBounds(doy);
    var mp := MarchMonthOf(doy);
    var m := MonthOfMarchIndex(mp);
    var c := MarchDate(yp, doy);
    assert c.month == m && MarchIndex(m) == mp;
    assert (if c.month <= 2 then c.year - 1 else c.year) == yp;
  }

  lemma {:induction false} MarchDateOfCivil(y: int, m: int, d: int)
    requires ValidDate(y, m, d)
    ensures var yp := if m <= 2 then y - 1 else y; var doy := DaysBeforeMarchMonth(MarchIndex(m)) + d - 1;
      0 <= doy < (if IsLeapYear(yp + 1) then 366 else 365) && MarchDate(yp, doy) == CivilDate(y, m, d)
  {
    MarchMonthLength(y, m);
    MarchMonthInverse(MarchIndex(m), d - 1);
  }

  /** March 1 of year `yoe` of era `era`. */
  lemma MarchYearStartOfEra(era: int, yoe: int, yp: int)
    requires 0 <= yoe < 400 && yp == era * 400 + yoe
    ensures MarchYearStart(yp) == era * 146097 + YearStartInEra(yoe)
  {
    DivUnique(yp, 400, era, yoe);
  }

  /** Day `doe` of an era, split into the year of the era and the day of that year. */
  lemma {:induction false} EraDaySplit(era: int, doe: int, yoe: int, doy: int, yp: int)
    requires 0 <= doe < 146097
    requires yoe == YearOfEra(doe) && doy == doe - YearStartInEra(yoe) && yp == era * 400 + yoe
    ensures 0 <= yoe < 400 && 0 <= doy < (if IsLeapYear(yp + 1) then 366 else 365)
    ensures CivilOfEraDay(era, doe) == MarchDate(yp, doy)
  {
    YearOfEraBounds(doe);
    LeapInEraMatches(era, yoe, yp + 1);
  }

  /** Day `doy` of year `yoe` of an era is day `YearStartInEra(yoe) + doy` of the era. */
  lemma {:induction false} EraDayOfYear(era: int, yoe: int, doy: int, doe: int, yp: int)
    requires 0 <= yoe < 400 && 0 <= doy < YearLengthInEra(yoe)
    requires doe == YearStartInEra(yoe) + doy && yp == era * 400 + yoe
    ensures 0 <= doe < 146097
    ensures CivilOfEraDay(era, doe) == MarchDate(yp, doy)
  {
    YearInEraFits(yoe);
    YearOfEraInverse(yoe, doy);
    assert YearOfEra(doe) == yoe;
    assert MarchDate(era * 400 + YearOfEra(doe), doe - YearStartInEra(YearOfEra(doe))) == MarchDate(yp, doy);
  }

  /** Day number `z` is day `doe` of era `era`. */
  lemma {:induction false} CivilFromEraDay(z: int, era: int, doe: int)
    requires 0 <= doe < 146097 && z == era * 146097 + doe - 719468
    ensures CivilFromDays(z) == CivilOfEraDay(era, doe)
  {
    var n := z + 719468;
    DivUnique(n, 146097, era, doe);
    assert n / 146097 == era && n % 146097 == doe;
  }

  /** Every day number names a valid date. */
  lemma {:induction false} CivilFromDaysValid(z: int)
    ensures var c := CivilFromDays(z); ValidDate(c.year, c.month, c.day)
  {
    var n := z + 719468;
    var era, doe := n / 146097, n % 146097;
    var yoe := YearOfEra(doe);
    var yp, doy := era * 400 + yoe, doe - YearStartInEra(yoe);
    EraDaySplit(era, doe, yoe, doy, yp);
    CivilFromEraDay(z, era, doe);
    MarchDateValid(yp, doy);
  }

  /** Counting days and reading the date back gives the same day. */
  lemma {:induction false} DaysFromCivilOfCivilFromDays(z: int)
    ensures var c := CivilFromDays(z); DaysFromCivil(c.year, c.month, c.day) == z
  {
    var n := z + 719468;
    var era, doe := n / 146097, n % 146097;
    var yoe := YearOfEra(doe);
    var yp, doy := era * 400 + yoe, doe - YearStartInEra(yoe);
    EraDaySplit(era, doe, yoe, doy, yp);
    CivilFromEraDay(z, era, doe);
    DaysFromMarchDate(yp, doy);
    MarchYearStartOfEra(era, yoe, yp);
  }

  /** The day number of day `doy` of March-based year `yp` reads back as that day. */
  lemma {:induction false} CivilFromMarchDay(yp: int, doy: int, z: int)
    requires 0 <= doy < (if IsLeapYear(yp + 1) then 366 else 365)
    requires z == MarchYearStart(yp) + doy - 719468
    ensures CivilFromDays(z) == MarchDate(yp, doy)
  {
    var era, yoe := yp / 400, yp % 400;
    var doe := YearStartInEra(yoe) + doy;
    assert 0 <= doy < YearLengthInEra(yoe) by { LeapInEraMatches(era, yoe, yp + 1); }
    MarchYearStartOfEra(era, yoe, yp);
    EraDayOfYear(era, yoe, doy, doe, yp);
    CivilFromEraDay(z, era, doe);
  }

  /** Reading the date of a valid date's day number gives the date back. */
  lemma {:induction false} CivilFromDaysOfDaysFromCivil(y: int, m: int, d: int)
    requires ValidDate(y, m, d)
    ensures CivilFromDays(DaysFromCivil(y, m, d)) == CivilDate(y, m, d)
  {
    var yp := if m <= 2 then y - 1 else y;
    var doy := DaysBeforeMarchMonth(MarchIndex(m)) + d - 1;
    MarchDateOfCivil(y, m, d);
    CivilFromMarchDay(yp, doy, DaysFromCivil(y, m, d));
  }

  /** Day numbers of valid dates are distinct. */
  lemma DaysFromCivilInjective(y1: int, m1: int, d1: int, y2: int, m2: int, d2: int)
    requires ValidDate(y1, m1, d1) && ValidDate(y2, m2, d2)
    requires DaysFromCivil(y1, m1, d1) == DaysFromCivil(y2, m2, d2)
    ensures y1 == y2 && m1 == m2 && d1 == d2
  {
    CivilFromDaysOfDaysFromCivil(y1, m1, d1);
    CivilFromDaysOfDaysFromCivil(y2, m2, d2);
  }

  function NextMonth(y: int, m: int): (r: (int, int))
    requires 1 <= m <= 12
    ensures 1 <= r.1 <= 12 && 12 * r.0 + r.1 == 12 * y + m + 1
  {
    if m == 12 then (y + 1, 1) else (y, m + 1)
  }

  function PreviousMonth(y: int, m: int): (r: (int, int))
    requires 1 <= m <= 12
    ensures 1 <= r.1 <= 12 && 12 * r.0 + r.1 == 12 * y + m - 1
  {
    if m == 1 then (y - 1, 12) else (y, m - 1)
  }

  /** The day after the last day of a month is the first day of the next month. */
  lemma NextMonthStart(y: int, m: int)
    requires 1 <= m <= 12
    ensures DaysFromCivil(y, m, DaysInMonth(y, m) + 1) == DaysFromCivil(NextMonth(y, m).0, NextMonth(y, m).1, 1)
  {
    MarchMonthLength(y, m);
    if m == 2 {
      MarchYearLength(y - 1, y);
    }
  }

  // ---------------------------------------------------------------------
  // Instants

  /** Whole days since 1970-01-01 (floor division: instants before 1970 count down). */
  function DayNumber(t: int): int {
    t / 86400
  }

  /** Two instants on the same day have the same civil date. */
  lemma SameDayNumber(a: int, b: int)
    requires DayNumber(a) == DayNumber(b)
    ensures CivilOf(a) == CivilOf(b)
  {
  }

  function SecondOfDay(t: int): (s: int)
    ensures 0 <= s < 86400
  {
    t % 86400
  }

  /** `Time.Date()`: the year, month and day of an instant. */
  function CivilOf(t: int): (c: CivilDate)
    ensures ValidDate(c.year, c.month, c.day)
  {
    CivilFromDaysValid(DayNumber(t));
    CivilFromDays(DayNumber(t))
  }

  function YearOf(t: int): int {
    CivilOf(t).year
  }

  function MonthOf(t: int): (m: int)
    ensures 1 <= m <= 12
  {
    CivilOf(t).month
  }

  function DayOf(t: int): (d: int)
    ensures 1 <= d <= DaysInMonth(YearOf(t), MonthOf(t))
  {
    CivilOf(t).day
  }

  /** `Time.Clock()`: hour, minute and second of the day. */
  function HourOf(t: int): (h: int)
    ensures 0 <= h < 24
  {
    SecondOfDay(t) / 3600
  }

  function MinuteOf(t: int): (m: int)
    ensures 0 <= m < 60
  {
    SecondOfDay(t) % 3600 / 60
  }

  function SecondOf(t: int): (s: int)
    ensures 0 <= s < 60
  {
    SecondOfDay(t) % 60
  }

  /** The weekday of a day number: day 0, 1970-01-01, was a Thursday. */
  function DayWeekday(z: int): Weekday {
    (z + 4) % 7
  }

  /** `Time.Weekday()`. */
  function WeekdayOf(t: int): Weekday {
    DayWeekday(DayNumber(t))
  }

  /** `time.Date`'s month normalisation: month 13 is January of the next year,
      month 0 December of the previous one. */
  function NormalizeMonth(year: int, month: int): (r: (int, int))
    ensures 1 <= r.1 <= 12 && 12 * r.0 + r.1 == 12 * year + month
  {
    (year + (month - 1) / 12, (month - 1) % 12 + 1)
  }

  /** `time.Date(year, month, day, hour, min, sec, 0, time.UTC).Unix()`. Go
      normalises month into year and then counts `day - 1` days and the clock
      from the first of the month, so any day, hour, minute or second is
      accepted and rolls over. */
  function Date(year: int, month: int, day: int, hour: int, min: int, sec: int): int {
    var ym := NormalizeMonth(year, month);
    DaysFromCivil(ym.0, ym.1, day) * 86400 + hour * 3600 + min * 60 + sec
  }

  /** `Time.AddDate(years, months, days)`: add to the civil fields, keep the
      clock, and let `Date` normalise. */
  function AddDate(t: int, years: int, months: int, days: int): int {
    Date(YearOf(t) + years, MonthOf(t) + months, DayOf(t) + days, HourOf(t), MinuteOf(t), SecondOf(t))
  }

  // ---------------------------------------------------------------------
  // What Date and AddDate produce

  /** Hours, minutes and seconds put back together give the second of the day. */
  lemma ClockOfSecondOfDay(s: int)
    requires 0 <= s < 86400
    ensures s / 3600 * 3600 + s % 3600 / 60 * 60 + s % 60 == s
  {
    var h, r := s / 3600, s % 3600;
    var mi, se := r / 60, r % 60;
    assert s == 3600 * h + r;
    assert r == 60 * mi + se;
    assert s == 60 * (60 * h + mi) + se;
    assert s % 60 == se by { DivUnique(s, 60, 60 * h + mi, se); }
  }

  /** `Clock()` of an instant rebuilds its second of the day. */
  lemma ClockOf(t: int)
    ensures HourOf(t) * 3600 + MinuteOf(t) * 60 + SecondOf(t) == SecondOfDay(t)
  {
    ClockOfSecondOfDay(SecondOfDay(t));
  }

  /** An instant is its date's day number in seconds plus its clock. */
  lemma {:induction false} InstantOfCivil(t: int)
    ensures var c := CivilOf(t); t == DaysFromCivil(c.year, c.month, c.day) * 86400 + SecondOfDay(t)
  {
    DaysFromCivilOfCivilFromDays(DayNumber(t));
  }

  lemma NormalizeInRange(y: int, m: int)
    requires 1 <= m <= 12
    ensures NormalizeMonth(y, m) == (y, m)
  {
  }

  /** For a month in range, `Date` counts the days from the first of that month. */
  lemma DateInRange(y: int, m: int, d: int, h: int, mi: int, s: int)
    requires 1 <= m <= 12
    ensures Date(y, m, d, h, mi, s) == DaysFromCivil(y, m, d) * 86400 + h * 3600 + mi * 60 + s
  {
    NormalizeInRange(y, m);
  }

  /** Every instant is `Date` of its own fields. */
  lemma {:induction false} InstantIsDate(t: int)
    ensures t == Date(YearOf(t), MonthOf(t), DayOf(t), HourOf(t), MinuteOf(t), SecondOf(t))
  {
    InstantOfCivil(t);
    ClockOf(t);
    DateInRange(YearOf(t), MonthOf(t), DayOf(t), HourOf(t), MinuteOf(t), SecondOf(t));
  }

  /** Moving the day field by `n` moves `Date` by `n` whole days. */
  lemma DateShiftDays(y: int, m: int, d: int, h: int, mi: int, s: int, n: int)
    ensures Date(y, m, d + n, h, mi, s) == Date(y, m, d, h, mi, s) + 86400 * n
  {
  }

  /** Day numbers within one month's count are linear in the day. */
  lemma DaysFromCivilShift(y: int, m: int, d: int, e: int)
    ensures DaysFromCivil(y, m, e) == DaysFromCivil(y, m, d) + (e - d)
  {
  }

  /** A valid date with a clock inside the day reads back as that date and clock. */
  lemma {:induction false} CivilOfDayNumber(y: int, m: int, d: int, s: int, t: int)
    requires ValidDate(y, m, d) && 0 <= s < 86400
    requires t == DaysFromCivil(y, m, d) * 86400 + s
    ensures CivilOf(t) == CivilDate(y, m, d)
    ensures SecondOfDay(t) == s
  {
    DivUnique(t, 86400, DaysFromCivil(y, m, d), s);
    assert DayNumber(t) == DaysFromCivil(y, m, d);
    CivilFromDaysOfDaysFromCivil(y, m, d);
  }

  /** `Date` on a day inside its (normalised) month. */
  lemma {:induction false} CivilOfDate(year: int, month: int, day: int, hour: int, min: int, sec: int)
    requires var ym := NormalizeMonth(year, month); 1 <= day <= DaysInMonth(ym.0, ym.1)
    requires 0 <= hour * 3600 + min * 60 + sec < 86400
    ensures var ym := NormalizeMonth(year, month);
      CivilOf(Date(year, month, day, hour, min, sec)) == CivilDate(ym.0, ym.1, day)
    ensures SecondOfDay(Date(year, month, day, hour, min, sec)) == hour * 3600 + min * 60 + sec
  {
    var ym := NormalizeMonth(year, month);
    CivilOfDayNumber(ym.0, ym.1, day, hour * 3600 + min * 60 + sec, Date(year, month, day, hour, min, sec));
  }

  /** `Date` on a day past the end of its month lands in the next month. */
  lemma {:induction false} CivilOfDateOverflow(year: int, month: int, day: int, hour: int, min: int, sec: int)
    requires var ym := NormalizeMonth(year, month); DaysInMonth(ym.0, ym.1) < day <= DaysInMonth(ym.0, ym.1) + 28
    requires 0 <= hour * 3600 + min * 60 + sec < 86400
    ensures var ym := NormalizeMonth(year, month); var next := NextMonth(ym.0, ym.1);
      CivilOf(Date(year, month, day, hour, min, sec)) == CivilDate(next.0, next.1, day - DaysInMonth(ym.0, ym.1))
    ensures SecondOfDay(Date(year, month, day, hour, min, sec)) == hour * 3600 + min * 60 + sec
  {
    var ym := NormalizeMonth(year, month);
    var next := NextMonth(ym.0, ym.1);
    var n := DaysInMonth(ym.0, ym.1);
    NextMonthStart(ym.0, ym.1);
    DaysFromCivilShift(ym.0, ym.1, n + 1, day);
    DaysFromCivilShift(next.0, next.1, 1, day - n);
    CivilOfDayNumber(next.0, next.1, day - n, hour * 3600 + min * 60 + sec, Date(year, month, day, hour, min, sec));
  }

  /** `Date` on day 0 is the last day of the previous month. */
  lemma {:induction false} CivilOfDateDayZero(year: int, month: int, day: int, hour: int, min: int, sec: int)
    requires day == 0
    requires 0 <= hour * 3600 + min * 60 + sec < 86400
    ensures var ym := NormalizeMonth(year, month); var prev := PreviousMonth(ym.0, ym.1);
      CivilOf(Date(year, month, day, hour, min, sec)) == CivilDate(prev.0, prev.1, DaysInMonth(prev.0, prev.1))
    ensures SecondOfDay(Date(year, month, day, hour, min, sec)) == hour * 3600 + min * 60 + sec
  {
    var ym := NormalizeMonth(year, month);
    var prev := PreviousMonth(ym.0, ym.1);
    var n := DaysInMonth(prev.0, prev.1);
    NextMonthStart(prev.0, prev.1);
    assert NextMonth(prev.0, prev.1) == ym;
    DaysFromCivilShift(ym.0, ym.1, 1, day);
    DaysFromCivilShift(prev.0, prev.1, n + 1, n);
    CivilOfDayNumber(prev.0, prev.1, n, hour * 3600 + min * 60 + sec, Date(year, month, day, hour, min, sec));
  }

  /** Adding days through the calendar is adding whole days of seconds (in UTC). */
  lemma {:induction false} AddDaysExact(t: int, n: int)
    ensures AddDate(t, 0, 0, n) == t + 86400 * n
  {
    InstantIsDate(t);
    DateShiftDays(YearOf(t), MonthOf(t), DayOf(t), HourOf(t), MinuteOf(t), SecondOf(t), n);
  }

  /** Adding years and months moves the civil month by exactly that many months
      and keeps the day when the target month has it; otherwise the surplus days
      roll into the month after. The clock is kept either way. */
  lemma {:induction false} AddDateMonths(t: int, years: int, months: int)
    ensures var target := NormalizeMonth(YearOf(t) + years, MonthOf(t) + months);
      var r := AddDate(t, years, months, 0);
      (DayOf(t) <= DaysInMonth(target.0, target.1) ==> CivilOf(r) == CivilDate(target.0, target.1, DayOf(t))) &&
      (DayOf(t) > DaysInMonth(target.0, target.1) ==>
         CivilOf(r) == CivilDate(NextMonth(target.0, target.1).0, NextMonth(target.0, target.1).1,
                                 DayOf(t) - DaysInMonth(target.0, target.1)))
    ensures SecondOfDay(AddDate(t, years, months, 0)) == SecondOfDay(t)
  {
    var target := NormalizeMonth(YearOf(t) + years, MonthOf(t) + months);
    ClockOf(t);
    if DayOf(t) <= DaysInMonth(target.0, target.1) {
      CivilOfDate(YearOf(t) + years, MonthOf(t) + months, DayOf(t) + 0, HourOf(t), MinuteOf(t), SecondOf(t));
    } else {
      CivilOfDateOverflow(YearOf(t) + years, MonthOf(t) + months, DayOf(t) + 0, HourOf(t), MinuteOf(t), SecondOf(t));
    }
  }

  /** Going back as many days as the day of the month lands on the last day of
      the previous month, at the same clock. */
  lemma {:induction false} BackToPreviousMonthEnd(t: int)
    ensures var prev := PreviousMonth(YearOf(t), MonthOf(t));
      CivilOf(AddDate(t, 0, 0, -DayOf(t))) == CivilDate(prev.0, prev.1, DaysInMonth(prev.0, prev.1))
    ensures SecondOfDay(AddDate(t, 0, 0, -DayOf(t))) == SecondOfDay(t)
  {
    ClockOf(t);
    NormalizeInRange(YearOf(t) + 0, MonthOf(t) + 0);
    CivilOfDateDayZero(YearOf(t) + 0, MonthOf(t) + 0, DayOf(t) + -DayOf(t), HourOf(t), MinuteOf(t), SecondOf(t));
  }

  /** A valid date at a clock inside the day reads back as that date and clock. */
  lemma {:induction false} CivilOfValidDate(y: int, m: int, d: int, h: int, mi: int, s: int)
    requires ValidDate(y, m, d) && 0 <= h * 3600 + mi * 60 + s < 86400
    ensures CivilOf(Date(y, m, d, h, mi, s)) == CivilDate(y, m, d)
    ensures SecondOfDay(Date(y, m, d, h, mi, s)) == h * 3600 + mi * 60 + s
  {
    NormalizeInRange(y, m);
    CivilOfDate(y, m, d, h, mi, s);
  }

  /** An instant's own date at another clock is the instant moved within its day. */
  lemma {:induction false} SameDayAt(t: int, h: int, mi: int, s: int)
    ensures Date(YearOf(t), MonthOf(t), DayOf(t), h, mi, s) == t - SecondOfDay(t) + h * 3600 + mi * 60 + s
  {
    InstantOfCivil(t);
    DateInRange(YearOf(t), MonthOf(t), DayOf(t), h, mi, s);
  }

  /** One day later is one weekday later. */
  lemma WeekdayAfterDays(t: int, n: int)
    ensures WeekdayOf(t + 86400 * n) == (WeekdayOf(t) + n) % 7
    ensures DayNumber(t + 86400 * n) == DayNumber(t) + n
  {
  }
}
