# TimeKit calendar core in Dafny

This project models the calendar engine of the Go package `timkit`, which is `timekit.go`. A `TimeKit` is a time value together with:

- a format string;
- the first and last day of its week;
- a fixed list of weekend days, Saturday and Sunday.

Its methods do three kinds of work:

- move the instant by centuries, years, quarters, months, weeks, weekdays, days, hours, minutes and seconds;
- snap it to the start or end of its century, year, quarter, month, week or day;
- measure the distance to another toolkit in seconds, minutes, hours, days, calendar months, or in filtered steps.

The model has four files:

- `go_int.dfy` (module `GoInt`): Go's truncating `/` and `%`. Dafny's operators are Euclidean, and the toolkit applies them to negative second counts and negative years.
- `civil.dfy` (module `Civil`): the part of Go's `time` package the toolkit relies on, in one fixed zone (UTC). An instant is a count of Unix seconds.
  - `CivilOf` is `Time.Date()`, `WeekdayOf` is `Time.Weekday()`, `Date` is `time.Date` and `AddDate` is `Time.AddDate`.
  - Out-of-range months and days roll over: January 31 plus one month is March 3, or March 2 in a leap year, and day 0 is the last day of the previous month.
  - Day numbers follow the proleptic Gregorian calendar. `CivilFromDays` and `DaysFromCivil` are proved inverse on valid dates.
- `timekit.dfy` (module `TimeKits`):
  - the pure pieces: options, `absoluteValue`, `swap`, quarters, century years, the weekday walk, week boundaries, the no-overflow month policy, the month difference and the filtered count;
  - the class `TimeKit`, whose methods update its fields in place, as the Go methods do through `SetTime`.
- `scenarios.dfy` (module `Scenarios`): concrete instances, most of them starting from the test suite's base instant 2021-01-02 15:04:05, a Saturday.

Where the toolkit reads the clock (`time.Now()` for a missing argument), the model takes a `now` parameter.

The Go code has a few quirks, and the model keeps them as written:

- `OptionSetWeekEndAt` writes the start of the week, so no option changes `weekEndAt` (`TimeKits.ApplyOption`, `Scenarios.WeekEndOptionExample`).
- `EndOfMonth` lands at 00:00:00 on the last day of the month (it goes through `AddDate(0, 1, -1)` from day 1 at midnight), not at 23:59:59 as `EndOfQuarter` and `EndOfYear` do.
- When the target month is too short, `AddMonthsNoOverflow` falls back to the last day of the month before the *original* date. From January 31 plus one month it gives December 31 of the year before, not February 28 (`TimeKits.NoOverflowFallsBack`, `Scenarios.NoOverflowExample`).
- `Copy` keeps only the Unix second. The copy gets the default settings, not the original's.
- `StartOfCentury` uses Go's truncating remainder. The century of year -2021 therefore starts at -2000, not at -2100.

## Model

| member | source | states |
|---|---|---|
| GoInt.TruncDiv | timekit.go:443-455 | Go's `/` by a positive divisor: the quotient truncated toward zero, bracketed from the correct side for either sign of the dividend |
| GoInt.TruncRem | timekit.go:551-556 | Go's `%`: dividend = divisor × quotient + remainder, and the remainder has the dividend's sign and is smaller than the divisor |
| GoInt.TruncDivNested | timekit.go:443-455 | truncating by b and then by c is truncating by b·c, for every sign of the dividend |
| GoInt.TruncDivNegate | timekit.go:526-538 | truncating division commutes with negation |
| Civil.AddDaysExact | timekit.go:206-209 | `AddDate(0, 0, n)` moves an instant by exactly n × 86400 seconds |
| Civil.AddDateMonths | timekit.go:271-274 | `AddDate(years, months, 0)` lands in the normalised target month on the same day when that month has it; otherwise the surplus days roll into the month after; the clock is kept |
| Civil.BackToPreviousMonthEnd | timekit.go:639-641 | going back as many days as the day of the month lands on the last day of the previous month, at the same clock |
| Civil.CivilOfValidDate | timekit.go:567-576 | `time.Date` of a valid date and an in-day clock reads back as exactly that date and clock |
| Civil.SameDayAt | timekit.go:625-636 | `time.Date` of an instant's own year, month and day at another clock is the instant moved within its day |
| Civil.WeekdayAfterDays | timekit.go:605-622 | n days later is n weekdays later (mod 7) and n day numbers later |
| Civil.DaysFromCivilOfCivilFromDays | timekit.go:593-596 | every day number is the day number of its own civil date |
| Civil.CivilFromDaysOfDaysFromCivil | timekit.go:593-596 | every valid date is the civil date of its own day number |
| Civil.Date | timekit.go:553 | `time.Date` in UTC with Go's month and day normalisation; it has no contract of its own and is characterised by `Civil.CivilOfValidDate`, `Civil.SameDayAt` and `Civil.AddDateMonths` |
| Civil.AddDate | timekit.go:207 | `Time.AddDate`, re-dating the shifted year, month and day at the same clock; it has no contract of its own and is characterised by `Civil.AddDaysExact`, `Civil.AddDateMonths` and `Civil.BackToPreviousMonthEnd` |
| Civil.CivilOf | timekit.go:480-485 | `Time.Year()`, `Month()` and `Day()`: every instant reads as a valid calendar date; its round trip with `Civil.Date` is `Civil.CivilOfValidDate` |
| Civil.WeekdayOf | timekit.go:655 | `Time.Weekday()` in 0..6; it has no contract beyond its type and is characterised by `Civil.WeekdayAfterDays` (n days on is n weekdays on, mod 7) |
| TimeKits.ApplyOption | timekit.go:124-149 | each option writes one field and keeps the rest: `OptionSetFormat` the format, `OptionSetTime` the instant, `OptionSetWeekStartAt` the week start, and `OptionSetWeekEndAt` also the week start; no option changes `weekEndAt` |
| TimeKits.Configure | timekit.go:64-77 | after any options `weekEndAt` is still Sunday, and without `OptionSetTime` the instant is "now" |
| TimeKits.LaterWeekStartWins | timekit.go:131-142 | the last `OptionSetWeekStartAt` or `OptionSetWeekEndAt` decides `weekStartAt` |
| TimeKits.NewTimeKitIgnoresNow | timekit.go:58-60 | `NewTimeKit(t)` is t with the defaults whatever "now" was |
| TimeKits.AbsoluteValue | timekit.go:709-714 | with `abs` the result is non-negative and equals ±value; without it the value is unchanged |
| TimeKits.SwapInvolution | timekit.go:505-507 | `swap` exchanges its arguments, and swapping twice is the identity |
| TimeKits.Swap | timekit.go:505-507 | `swap` returns its two arguments exchanged; it has no contract of its own and is characterised by `TimeKits.SwapInvolution` |
| TimeKits.QuarterOf | timekit.go:675-686 | the quarter is in 1..4 and its months 3q−2..3q contain the month |
| TimeKits.CenturyStart | timekit.go:551-556 | `y - y%100` (truncating) is a multiple of 100 within 100 years of y toward 0 |
| TimeKits.CenturyEnd | timekit.go:559-564 | the end-of-century year is the start-of-century year plus 99 |
| TimeKits.WeekendRun | timekit.go:382-395 | the termination measure of the weekday walk: the run of weekend days just ahead, capped at 2; 0 exactly when the next day is not a weekend day, 2 exactly when the next two days are |
| TimeKits.AtMostTwoWeekendDays | timekit.go:382-395 | no three consecutive days are all weekend days |
| TimeKits.WeekendRunShrinks | timekit.go:382-395 | stepping onto a weekend day shortens the weekend run ahead: the measure that makes the weekday walk end |
| TimeKits.WalkLength | timekit.go:382-395 | the walk to the n-th weekday takes between n and 3n days |
| TimeKits.WalkMovesByDays | timekit.go:382-395 | the weekday walk moves the instant by whole days in the direction of the step |
| TimeKits.WalkEndsOnWeekday | timekit.go:382-395 | a walk over at least one weekday ends on a day that is not a weekend day |
| TimeKits.WalkCountsWeekdays | timekit.go:382-395 | exactly n of the days the walk passes over are weekday landings |
| TimeKits.WalkWeekdays | timekit.go:388-393 | the loop of `AddWeekdays` as a recursive walk, one day per step, counting only non-weekend landings; it has no contract of its own and is characterised by `TimeKits.WalkLength`, `TimeKits.WalkMovesByDays`, `TimeKits.WalkEndsOnWeekday` and `TimeKits.WalkCountsWeekdays` |
| TimeKits.WeekdayBack | timekit.go:605-612 | going back (w − s) mod 7 days reaches weekday s, and no day in between has weekday s |
| TimeKits.WeekdayForward | timekit.go:615-622 | going forward (e − w) mod 7 days reaches weekday e, and no day in between has weekday e |
| TimeKits.WeekStartAt | timekit.go:605-612 | the week start is midnight of the nearest day at or before the instant, at most 6 days back, with the requested weekday |
| TimeKits.WeekEndAt | timekit.go:615-622 | the week end is 23:59:59 of the nearest day at or after the instant, at most 6 days ahead, with the requested weekday |
| TimeKits.MonthEnd | timekit.go:586-602 | from day 1 of a month, `AddDate(0, 1, -1)` is the last day of that month at the same clock |
| TimeKits.NoOverflowKeepsDay | timekit.go:293-300 | when the target month has the day, `AddMonthsNoOverflow(m)` is `AddDate(0, m, 0)`: same day, same clock, m months on |
| TimeKits.NoOverflowFallsBack | timekit.go:293-300 | when the target month is too short, the result is the last day of the month before the original date, at the same clock |
| TimeKits.AddMonthsNoOverflowAt | timekit.go:293-300 | the target of `AddMonthsNoOverflow`; it has no contract of its own and is characterised in both cases by `TimeKits.NoOverflowKeepsDay` and `TimeKits.NoOverflowFallsBack` |
| TimeKits.MonthInterval | timekit.go:492-496 | the leftover month count of `countMonthDifference` lies in 0..11 |
| TimeKits.MonthDifference | timekit.go:479-500 | `countMonthDifference` on two dates; it has no contract of its own and is characterised by `TimeKits.MonthDifferenceClosedForm`, and the sign laws of that closed form are `TimeKits.MonthsBetweenSign` |
| TimeKits.CountMonthDifference | timekit.go:479-500 | `countMonthDifference` on two instants; it has no contract of its own and is characterised by `TimeKits.CountMonthDifferenceClosedForm`, and the sign laws of that closed form are `TimeKits.CalendarMonthsSign` |
| TimeKits.MonthDifferenceClosedForm | timekit.go:479-500 | years × 12 + leftover months is the number of whole calendar months between the dates (12·Δy + Δm, less one when the day of the month is not yet reached), made absolute on request |
| TimeKits.CountMonthDifferenceClosedForm | timekit.go:479-500 | the same closed form for two instants |
| TimeKits.MonthsBetweenSign | timekit.go:479-500 | the month count is non-negative exactly when the second date is not after the first; swapping the dates negates it, less one when the days differ |
| TimeKits.CalendarMonthsSign | timekit.go:458-469 | the same sign and swap laws for two instants |
| TimeKits.StepGuard | timekit.go:526-531 | the loop guard `gap/step > 0` holds exactly when a whole step remains |
| TimeKits.CountSteps | timekit.go:526-531 | the filtered count of the backward walk is at most ⌊gap/step⌋, and 0 when less than a step remains |
| TimeKits.CountStepsAll | timekit.go:526-531 | with a filter that accepts everything the walk counts ⌊gap/step⌋ points: the number of loop iterations |
| TimeKits.FilteredDiff | timekit.go:511-538 | the filtered difference has magnitude at most ⌊gap/step⌋ in both modes; without `abs` it is non-negative when the receiver is the earlier instant and non-positive when it is the later; with `abs` it is non-negative |
| TimeKits.FilteredDiffAntisymmetric | timekit.go:511-538 | exchanging the two instants negates the signed filtered difference and keeps the absolute one: both directions count the same points |
| TimeKits.FilteredDiffAllPass | timekit.go:511-538 | with an always-true filter and no `abs`, the filtered difference is the signed gap truncating-divided by the step |
| TimeKits.WalkBack | timekit.go:526-531 | the loop counts exactly the accepted points of the walk, runs ⌊gap/step⌋ times, and stops with the walking point within one step after the earlier instant, never before it |
| TimeKits.ClockOn | timekit.go:625-636 | `time.Date` on the instant's own day at clock h:mi:s is the instant moved to that second of its day |
| TimeKits.ShiftDays | timekit.go:605-622 | `t.AddDate(0, 0, d)` is t + 86400·d |
| TimeKits.TimeKit.NewOptions | timekit.go:64-77 | the new toolkit holds exactly the defaults with every option applied in order |
| TimeKits.TimeKit.NewTimeKit | timekit.go:58-60 | the new toolkit holds t, the default format, a Monday week start and a Sunday week end |
| TimeKits.TimeKit.Apply | timekit.go:124-149 | running an option changes the toolkit as `ApplyOption` says |
| TimeKits.TimeKit.SetFormat | timekit.go:152-156 | sets the format |
| TimeKits.TimeKit.SetTime | timekit.go:159-163 | sets the instant |
| TimeKits.TimeKit.SetWeekStartsAt | timekit.go:166-170 | sets the start of the week |
| TimeKits.TimeKit.SetWeekEndsAt | timekit.go:173-177 | sets the end of the week |
| TimeKits.TimeKit.SetTimestamp | timekit.go:180-182 | sets the instant to the given Unix second |
| TimeKits.TimeKit.AddCenturies | timekit.go:185-188 | the instant becomes `AddDate(100·n, 0, 0)` of the old one; the toolkit itself is returned |
| TimeKits.TimeKit.AddCentury | timekit.go:191-193 | `AddDate(100, 0, 0)` |
| TimeKits.TimeKit.SubCenturies | timekit.go:196-198 | `AddDate(100·(−n), 0, 0)`, i.e. `AddCenturies(-n)` |
| TimeKits.TimeKit.SubCentury | timekit.go:201-203 | `AddDate(-100, 0, 0)` |
| TimeKits.TimeKit.AddDays | timekit.go:206-209 | the instant moves by n × 86400 seconds (through `AddDate`, see `Civil.AddDaysExact`) |
| TimeKits.TimeKit.AddDay | timekit.go:212-214 | one day later |
| TimeKits.TimeKit.SubDays | timekit.go:217-219 | n × 86400 seconds earlier |
| TimeKits.TimeKit.SubDay | timekit.go:222-224 | one day earlier |
| TimeKits.TimeKit.AddHours | timekit.go:227-231 | n × 3600 seconds later |
| TimeKits.TimeKit.AddHour | timekit.go:234-236 | 3600 seconds later |
| TimeKits.TimeKit.SubHours | timekit.go:239-241 | n × 3600 seconds earlier |
| TimeKits.TimeKit.SubHour | timekit.go:244-246 | 3600 seconds earlier |
| TimeKits.TimeKit.AddMinutes | timekit.go:249-253 | n × 60 seconds later |
| TimeKits.TimeKit.AddMinute | timekit.go:256-258 | 60 seconds later |
| TimeKits.TimeKit.SubMinutes | timekit.go:261-263 | n × 60 seconds earlier |
| TimeKits.TimeKit.SubMinute | timekit.go:266-268 | 60 seconds earlier |
| TimeKits.TimeKit.AddMonths | timekit.go:271-274 | the instant becomes `AddDate(0, n, 0)` of the old one (its calendar effect is `Civil.AddDateMonths`) |
| TimeKits.TimeKit.AddMonth | timekit.go:277-279 | `AddDate(0, 1, 0)` |
| TimeKits.TimeKit.SubMonths | timekit.go:282-284 | `AddDate(0, -n, 0)` |
| TimeKits.TimeKit.SubMonth | timekit.go:287-289 | `AddDate(0, -1, 0)` |
| TimeKits.TimeKit.AddMonthsNoOverflow | timekit.go:293-300 | the instant becomes the no-overflow target, characterised by `NoOverflowKeepsDay` and `NoOverflowFallsBack` |
| TimeKits.TimeKit.AddMonthNoOverflow | timekit.go:303-305 | the no-overflow target one month on |
| TimeKits.TimeKit.SubMonthsNoOverflow | timekit.go:308-310 | the no-overflow target −n months on |
| TimeKits.TimeKit.SubMonthNoOverflow | timekit.go:313-315 | the no-overflow target one month back |
| TimeKits.TimeKit.AddQuarters | timekit.go:318-321 | `AddDate(0, 3·n, 0)` |
| TimeKits.TimeKit.AddQuarter | timekit.go:324-326 | `AddDate(0, 3, 0)` |
| TimeKits.TimeKit.SubQuarters | timekit.go:329-331 | `AddDate(0, 3·(−n), 0)` |
| TimeKits.TimeKit.SubQuarter | timekit.go:334-336 | `AddDate(0, -3, 0)` |
| TimeKits.TimeKit.AddSeconds | timekit.go:339-343 | n seconds later |
| TimeKits.TimeKit.AddSecond | timekit.go:346-348 | one second later |
| TimeKits.TimeKit.SubSeconds | timekit.go:351-353 | n seconds earlier |
| TimeKits.TimeKit.SubSecond | timekit.go:356-358 | one second earlier |
| TimeKits.TimeKit.AddWeeks | timekit.go:361-364 | n × 604800 seconds later |
| TimeKits.TimeKit.AddWeek | timekit.go:367-369 | 604800 seconds later |
| TimeKits.TimeKit.SubWeeks | timekit.go:372-374 | n × 604800 seconds earlier |
| TimeKits.TimeKit.SubWeek | timekit.go:377-379 | 604800 seconds earlier |
| TimeKits.TimeKit.AddWeekdays | timekit.go:382-395 | the loop ends at the weekday walk of abs(wd) weekdays in the sign of wd; unchanged for wd = 0; otherwise on a day that is not a weekend day, moved by whole days (the walk's length) |
| TimeKits.TimeKit.AddWeekday | timekit.go:398-400 | the walk of one weekday forward |
| TimeKits.TimeKit.SubWeekdays | timekit.go:403-405 | the walk of abs(wd) weekdays in the sign opposite to wd |
| TimeKits.TimeKit.SubWeekday | timekit.go:408-410 | the walk of one weekday back |
| TimeKits.TimeKit.AddYears | timekit.go:413-416 | `AddDate(n, 0, 0)` |
| TimeKits.TimeKit.AddYear | timekit.go:419-421 | `AddDate(1, 0, 0)` |
| TimeKits.TimeKit.SubYears | timekit.go:424-426 | `AddDate(-n, 0, 0)` |
| TimeKits.TimeKit.SubYear | timekit.go:429-431 | `AddDate(-1, 0, 0)` |
| TimeKits.TimeKit.DiffInSeconds | timekit.go:434-440 | non-negative under `abs` (values related by `DiffInSecondsAntisymmetric`) |
| TimeKits.TimeKit.DiffInMinutes | timekit.go:443-445 | non-negative under `abs` |
| TimeKits.TimeKit.DiffInHours | timekit.go:448-450 | the chain `/60`, `/60` is one truncating division of the seconds by 3600; non-negative under `abs` |
| TimeKits.TimeKit.DiffInDays | timekit.go:453-455 | the chain `/60`, `/60`, `/24` is one truncating division of the seconds by 86400; non-negative under `abs` |
| TimeKits.TimeKit.DiffInMonths | timekit.go:458-469 | the whole calendar months from the other date to this one, made absolute on request |
| TimeKits.TimeKit.DiffFiltered | timekit.go:511-538 | the result is `FilteredDiff` of the two instants, whose bounds, sign and all-pass value are proved |
| TimeKits.TimeKit.DiffInDaysFiltered | timekit.go:541-543 | `DiffFiltered` with a step of 86400 seconds |
| TimeKits.TimeKit.DiffInHoursFiltered | timekit.go:546-548 | `DiffFiltered` with a step of 3600 seconds |
| TimeKits.TimeKit.StartOfCentury | timekit.go:551-556 | January 1, 00:00:00 of the century-start year |
| TimeKits.TimeKit.EndOfCentury | timekit.go:559-564 | December 31, 23:59:59 of the century-start year plus 99 |
| TimeKits.TimeKit.StartOfYear | timekit.go:567-570 | January 1, 00:00:00 of the same year |
| TimeKits.TimeKit.EndOfYear | timekit.go:573-576 | December 31, 23:59:59 of the same year |
| TimeKits.TimeKit.StartOfQuarter | timekit.go:579-583 | day 1 of month 3q−2 at 00:00:00 |
| TimeKits.TimeKit.EndOfQuarter | timekit.go:586-590 | the last day of month 3q at 23:59:59 |
| TimeKits.TimeKit.StartOfMonth | timekit.go:593-596 | day 1 of the same month at 00:00:00 |
| TimeKits.TimeKit.EndOfMonth | timekit.go:599-602 | the last day of the same month at 00:00:00 |
| TimeKits.TimeKit.StartOfWeek | timekit.go:605-612 | the loop ends at `WeekStartAt` for the toolkit's week start |
| TimeKits.TimeKit.EndOfWeek | timekit.go:615-622 | the loop ends at `WeekEndAt` for the toolkit's week end |
| TimeKits.TimeKit.StartOfDay | timekit.go:625-629 | the same date at 00:00:00 |
| TimeKits.TimeKit.EndOfDay | timekit.go:632-636 | the same date at 23:59:59 |
| TimeKits.TimeKit.LastDayOfPreMonth | timekit.go:639-641 | the last day of the previous month, at the toolkit's clock |
| TimeKits.TimeKit.Copy | timekit.go:649-651 | a new toolkit at the same Unix second with the default settings |
| TimeKits.TimeKit.IsWeekend | timekit.go:654-663 | true exactly when the weekday is in the weekend list |
| TimeKits.TimeKit.IsWeekday | timekit.go:666-668 | the negation of `IsWeekend` |
| TimeKits.TimeKit.WeekendDays | timekit.go:671-673 | always Saturday and Sunday |
| TimeKits.TimeKit.Quarter | timekit.go:675-686 | in 1..4, and its quarter contains the month |
| TimeKits.DiffInSecondsAntisymmetric | timekit.go:434-440 | the signed difference from a to b is minus that from b to a; the absolute ones are equal |
| TimeKits.DiffFilteredAllPass | timekit.go:511-538 | with an always-true filter and no `abs`, `DiffFiltered` equals `DiffInSeconds` truncating-divided by the step |
| TimeKits.AddThenSubDays | timekit.go:206-219 | `AddDate(0, 0, n)` then `AddDate(0, 0, -n)` restores the instant |
| TimeKits.AddThenSubWeeks | timekit.go:361-374 | `AddDate(0, 0, 7w)` then `AddDate(0, 0, -7w)` restores the instant |
| TimeKits.AddThenSubRestores | timekit.go:206-379 | on one toolkit, each pair of adding and then subtracting n days, weeks, hours, minutes or seconds restores the instant (asserted after every pair); the whole chain therefore restores it |
| TimeKits.CopyThenAddDays | timekit.go:649-651 | a copy is a fresh toolkit with default week settings; moving it leaves the original untouched |
| Scenarios.Saturday20210102 | timekit_test.go:20-24 | the base instant 2021-01-02 15:04:05 is Unix second 1609599845 |
| Scenarios.SaturdayWeekday | timekit_test.go:20-24 | the base instant is a Saturday, a weekend day |
| Scenarios.Monday20201228 | timekit_test.go:171-177 | 2020-12-28 00:00:00 is Unix second 1609113600 |
| Scenarios.Friday20210108 | timekit_test.go:129-137 | 2021-01-08 15:04:05 is Unix second 1610118245 |
| Scenarios.FridayWeekday | timekit_test.go:129-137 | 2021-01-08 is a Friday, not a weekend day |
| Scenarios.September20200918 | timekit_test.go:187-193 | 2020-09-18 10:30:40 is Unix second 1600425040 |
| Scenarios.CenturyYears | timekit.go:551-564 | the century of 2021 is 2000..2099; that of -2021 is -2000..-1901 |
| Scenarios.StartOfCenturyExample | timekit_test.go:139-145 | `StartOfCentury` from the base instant gives 2000-01-01 00:00:00 |
| Scenarios.WeekStartExample | timekit_test.go:171-177 | the Monday week start of the base instant is 2020-12-28 00:00:00 |
| Scenarios.StartOfWeekExample | timekit_test.go:171-177 | `StartOfWeek` from the base instant gives 2020-12-28 00:00:00 |
| Scenarios.WalkExample | timekit_test.go:129-137 | the walk of 5 weekdays from the base instant ends at 2021-01-08 15:04:05 |
| Scenarios.AddWeekdaysExample | timekit_test.go:129-137 | `AddWeekdays(5)` from the base instant gives 2021-01-08 15:04:05 |
| Scenarios.MonthDifferenceExample | timekit_test.go:187-193 | the absolute month difference of 2021-01-02 and 2020-09-18 is 3 |
| Scenarios.MonthsOfDates | timekit.go:479-500 | for any clocks on 2021-01-02 and 2020-09-18: 3 months one way, −4 the other |
| Scenarios.RollOverExample | timekit.go:271-274 | `AddMonth` on 2021-01-31 rolls over to 2021-03-03 |
| Scenarios.NoOverflowExample | timekit.go:293-300 | `AddMonthNoOverflow` on 2021-01-31 gives 2020-12-31 at the same clock |
| Scenarios.EndOfMonthExample | timekit.go:599-602 | `EndOfMonth` from the base instant gives 2021-01-31 00:00:00 |
| Scenarios.WeekEndOptionExample | timekit.go:138-142 | `OptionSetWeekEndAt(Friday)` sets the week start to Friday and leaves the end on Sunday |
| Scenarios.WeekAfterSaturday | timekit.go:654-668 | of the seven days after Saturday 2021-01-02, Sunday the 3rd and Saturday the 9th are weekend days and the 4th to the 8th are weekdays |
| Scenarios.WeekdayFilterExample | timekit.go:511-538 | a weekday filter over the week from Saturday 2021-01-02 to Saturday 2021-01-09 counts 5, and −5 the other way |
| Scenarios.DiffInDaysFilteredExample | timekit.go:541-543 | `DiffInDaysFiltered` with a weekday filter over that week gives 5 |

## Left out

- Time zones: `NowWithLocation`, `Parse`, the `LoadLocation` of `CreateFromTimestamp`, daylight saving time, and the conversion to UTC in `DiffInMonths` when the locations differ. They depend on Go's time-zone database; the model uses one fixed zone, UTC.
- The clock: `time.Now()` becomes the parameter `now` wherever the toolkit reads it (`NewOptions`, the nil argument of the `DiffIn*` functions and of `DiffFiltered`).
- Formatting: `String`, `DateTimeString`, `DateString`, `TimeString` and `DiffDurationInString`. They rely on Go's `Format` and `Duration.String`; the format string is kept only as a field.
- The `sync.Mutex` in the setters: the model has a single owner and no concurrency.
- Nanoseconds: instants are whole Unix seconds, so `Copy` dropping the nanoseconds is invisible.
- `DiffFiltered`'s step is `duration.Seconds()`, a float converted to an integer. The model takes a whole number of seconds, at least 1, and walks back by that step. It leaves out three edge cases. A duration under one second gives a step of 0, and Go panics on the division at timekit.go:526. A negative duration gives a negative step; the loop then never runs and Go returns 0. A duration that is not a whole number of seconds walks back by the duration itself (`end.Add(-duration)`), not by the truncated step.
- The filter of `DiffFiltered` receives the walking `*TimeKit`, a copy with the default settings. The model gives it that copy's Unix second as an `int -> bool`, so the filter is assumed to have no side effects: a Go filter that moves or reconfigures the toolkit it is handed (timekit.go:527) would change the walk, and the model does not capture that.
- Weekdays outside 0..6: Go's `time.Weekday` is a plain integer, so `SetWeekStartsAt(time.Weekday(7))`, `SetWeekEndsAt`, `OptionSetWeekStartAt` and `OptionSetWeekEndAt` accept any value (timekit.go:131-142, 166-177). `StartOfWeek` and `EndOfWeek` then never terminate, since `Weekday()` is always in 0..6 (timekit.go:607-609 and 617-619). The model's `Weekday` type excludes those values, so it does not model that non-termination.
- Overflow of Go's 64-bit integers and of `time.Duration`, e.g. `time.Duration(h) * time.Hour`. Integers here are unbounded.
- The constants `secondsInWeek` (691200, which is not the 604800 seconds of a week), `yearsPerDecade`, `weeksPerLongYear`, `daysInLeapYear` and `daysInNormalYear`: no modelled operation uses them.
- TimeKits.TimeKit.DiffInSeconds: its contract states only the sign under `abs`. Its value, the other instant less this one, is its body. `DiffInSecondsAntisymmetric` relates two calls.
- TimeKits.TimeKit.DiffInMinutes: like `DiffInSeconds`, its contract states only the sign under `abs`.
- TimeKits.TimeKit.Timestamp: it returns the instant, so it has no contract of its own.
- The printing programs under `example/` and the benchmarks in `timekit_test.go`.
- The order in which the Go tests run: they share one mutable toolkit, so each test starts from wherever the previous ones left it. The scenarios here each start from the base instant 2021-01-02 15:04:05.
