/** The proleptic Gregorian calendar, as ECMAScript computes with it in milliseconds from 1970. */
module Calendar {
  const DAY_MS: int := 86400000

  predicate IsLeap(y: int) {
    y % 4 == 0 && (y % 100 != 0 || y % 400 == 0)
  }

  function YearLength(y: int): int {
    if IsLeap(y) then 366 else 365
  }

  /** m from 1 to 12 */
  function MonthLength(y: int, m: int): int {
    if m == 2 then (if IsLeap(y) then 29 else 28)
    else if m == 4 || m == 6 || m == 9 || m == 11 then 30
    else 31
  }

  predicate IsDate(y: int, m: int, d: int) {
    1 <= m <= 12 && 1 <= d <= MonthLength(y, m)
  }

  /** Days from 1970-01-01 to the first of January, by the closed form. */
  function DayFromYear(y: int): int {
    365 * (y - 1970) + (y - 1969) / 4 - (y - 1901) / 100 + (y - 1601) / 400
  }

  /** Days from the first of January to the first of month m + 1, m from 0 to 11. */
  function MonthStart(y: int, m: int): int {
    var leap := if IsLeap(y) then 1 else 0;
    if m <= 0 then 0
    else if m == 1 then 31
    else if m == 2 then 59 + leap
    else if m == 3 then 90 + leap
    else if m == 4 then 120 + leap
    else if m == 5 then 151 + leap
    else if m == 6 then 181 + leap
    else if m == 7 then 212 + leap
    else if m == 8 then 243 + leap
    else if m == 9 then 273 + leap
    else if m == 10 then 304 + leap
    else 334 + leap
  }

  /** `MakeDay`: month counts from 0, and month and day may run over. */
  function MakeDay(y: int, month: int, d: int): int {
    var ym := y + month / 12;
    DayFromYear(ym) + MonthStart(ym, month % 12) + d - 1
  }

  /** The day an epoch time lies in, and the milliseconds into it. */
  function Day(ms: int): int {
    ms / DAY_MS
  }

  function TimeWithinDay(ms: int): int {
    ms % DAY_MS
  }

  /** `Date.UTC`: the years 0 to 99 mean 1900 to 1999. */
  function DateUtc(y: int, month: int, d: int, h: int, mi: int, s: int, ms: int): int {
    MakeDay(if 0 <= y <= 99 then 1900 + y else y, month, d) * DAY_MS + h * 3600000 + mi * 60000 + s * 1000 + ms
  }

  // ----- the closed form counts days

  lemma YearSteps(y: int)
    ensures DayFromYear(y + 1) == DayFromYear(y) + YearLength(y)
  {
    var a, b, c := y % 4, y % 100, y % 400;
    assert (y - 1968) / 4 == (y - 1969) / 4 + if a == 0 then 1 else 0;
    assert (y - 1900) / 100 == (y - 1901) / 100 + if b == 0 then 1 else 0;
    assert (y - 1600) / 400 == (y - 1601) / 400 + if c == 0 then 1 else 0;
  }

  /** Days from the start of 1970 to the start of y, one year after the other. */
  function CountedDays(y: int): int
    decreases if y >= 1970 then y - 1970 else 1970 - y
  {
    if y == 1970 then 0
    else if y > 1970 then CountedDays(y - 1) + YearLength(y - 1)
    else CountedDays(y + 1) - YearLength(y)
  }

  lemma {:induction false} ClosedFormCounts(y: int)
    ensures DayFromYear(y) == CountedDays(y)
    decreases if y >= 1970 then y - 1970 else 1970 - y
  {
    if y > 1970 {
      ClosedFormCounts(y - 1);
      YearSteps(y - 1);
    } else if y < 1970 {
      ClosedFormCounts(y + 1);
      YearSteps(y);
    }
  }

  lemma MonthSteps(y: int, m: int)
    requires 0 <= m < 11
    ensures MonthStart(y, m + 1) == MonthStart(y, m) + MonthLength(y, m + 1)
  {
  }

  /** Days from the first of January to the first of month m + 1, one month after the other. */
  function CountedMonths(y: int, m: nat): int {
    if m == 0 then 0 else CountedMonths(y, m - 1) + MonthLength(y, m)
  }

  lemma {:induction false} MonthTableCounts(y: int, m: nat)
    requires m < 12
    ensures MonthStart(y, m) == CountedMonths(y, m)
    ensures m == 11 ==> CountedMonths(y, m) + MonthLength(y, 12) == YearLength(y)
  {
    if m > 0 {
      MonthTableCounts(y, m - 1);
      MonthSteps(y, m - 1);
    }
  }

  lemma {:induction false} YearsGrow(y: int, z: int)
    requires y < z
    ensures DayFromYear(y) + YearLength(y) <= DayFromYear(z)
    decreases z - y
  {
    YearSteps(y);
    if y + 1 < z {
      YearsGrow(y + 1, z);
    }
  }

  // ----- the year, month and day of a day number

  function YearUp(day: int, y: int): (r: int)
    requires DayFromYear(y) <= day
    ensures DayFromYear(r) <= day < DayFromYear(r + 1)
    decreases day - DayFromYear(y)
  {
    YearSteps(y);
    if day < DayFromYear(y + 1) then y else YearUp(day, y + 1)
  }

  function YearDown(day: int, y: int): (r: int)
    requires day < DayFromYear(y + 1)
    ensures DayFromYear(r) <= day < DayFromYear(r + 1)
    decreases DayFromYear(y + 1) - day
  {
    YearSteps(y);
    if DayFromYear(y) <= day then y else YearDown(day, y - 1)
  }

  /** `getUTCFullYear`: the year the day lies in. */
  function YearOf(day: int): (y: int)
    ensures DayFromYear(y) <= day < DayFromYear(y + 1)
  {
    YearSteps(1970);
    if day >= 0 then YearUp(day, 1970) else YearDown(day, 1969)
  }

  /** The month, from 1, that holds day n of the year. */
  function MonthIn(y: int, n: int): int {
    if n < MonthStart(y, 1) then 1
    else if n < MonthStart(y, 2) then 2
    else if n < MonthStart(y, 3) then 3
    else if n < MonthStart(y, 4) then 4
    else if n < MonthStart(y, 5) then 5
    else if n < MonthStart(y, 6) then 6
    else if n < MonthStart(y, 7) then 7
    else if n < MonthStart(y, 8) then 8
    else if n < MonthStart(y, 9) then 9
    else if n < MonthStart(y, 10) then 10
    else if n < MonthStart(y, 11) then 11
    else 12
  }

  /** `getUTCMonth() + 1` */
  function MonthOf(day: int): int {
    MonthIn(YearOf(day), day - DayFromYear(YearOf(day)))
  }

  /** `getUTCDate` */
  function DateOf(day: int): int {
    day - DayFromYear(YearOf(day)) - MonthStart(YearOf(day), MonthOf(day) - 1) + 1
  }

  lemma YearIsUnique(day: int, y: int)
    requires DayFromYear(y) <= day < DayFromYear(y + 1)
    ensures YearOf(day) == y
  {
    var z := YearOf(day);
    if z < y {
      YearsGrow(z, y);
      YearSteps(z);
    } else if y < z {
      YearsGrow(y, z);
      YearSteps(y);
    }
  }

  lemma MonthHolds(y: int, n: int)
    requires 0 <= n < YearLength(y)
    ensures var m := MonthIn(y, n);
            1 <= m <= 12 && MonthStart(y, m - 1) <= n < MonthStart(y, m - 1) + MonthLength(y, m)
  {
    hide IsLeap;
  }

  lemma MonthIsUnique(y: int, m: int, n: int)
    requires 1 <= m <= 12 && MonthStart(y, m - 1) <= n < MonthStart(y, m - 1) + MonthLength(y, m)
    ensures 0 <= n < YearLength(y) && MonthIn(y, n) == m
  {
    hide IsLeap;
  }

  lemma MakeDayInYear(y: int, m: int, d: int)
    requires 1 <= m <= 12
    ensures MakeDay(y, m - 1, d) == DayFromYear(y) + MonthStart(y, m - 1) + d - 1
  {
    assert (m - 1) / 12 == 0 && (m - 1) % 12 == m - 1;
  }

  /** Every day number is a real date, and that date is the day number. */
  lemma DayIsItsDate(day: int)
    ensures IsDate(YearOf(day), MonthOf(day), DateOf(day))
    ensures MakeDay(YearOf(day), MonthOf(day) - 1, DateOf(day)) == day
  {
    YearSteps(YearOf(day));
    hide DayFromYear, MonthStart, MonthLength, MonthIn, YearLength, YearOf, MakeDay;
    var n := day - DayFromYear(YearOf(day));
    MonthHolds(YearOf(day), n);
    MakeDayInYear(YearOf(day), MonthOf(day), DateOf(day));
  }

  /** Every real date comes back from its day number. */
  lemma DateIsItsDay(y: int, m: int, d: int)
    requires IsDate(y, m, d)
    ensures var day := MakeDay(y, m - 1, d); YearOf(day) == y && MonthOf(day) == m && DateOf(day) == d
  {
    hide DayFromYear, MonthStart, MonthLength, MonthIn, YearLength, YearOf, MakeDay;
    MakeDayInYear(y, m, d);
    MonthIsUnique(y, m, MonthStart(y, m - 1) + d - 1);
    MonthStartsInYear(y, m);
    YearSteps(y);
    YearIsUnique(MakeDay(y, m - 1, d), y);
  }

  lemma MonthStartsInYear(y: int, m: int)
    requires 1 <= m <= 12
    ensures 0 <= MonthStart(y, m - 1)
  {
  }

  /** Year, month and day survive the roll-over of `MakeDay` exactly for real dates. */
  lemma RollOverIsTheCalendar(y: int, m: int, d: int)
    ensures (var day := MakeDay(y, m - 1, d); YearOf(day) == y && MonthOf(day) == m && DateOf(day) == d)
            <==> IsDate(y, m, d)
  {
    DayIsItsDate(MakeDay(y, m - 1, d));
    if IsDate(y, m, d) {
      DateIsItsDay(y, m, d);
    }
  }

  /** MakeDay grows with the year. */
  lemma MakeDayGrows(y: int, z: int, month: int, d: int)
    requires y < z
    ensures MakeDay(y, month, d) < MakeDay(z, month, d)
  {
    YearsGrow(y + month / 12, z + month / 12);
  }

  /** Some years by themselves, and a leap day that is one and one that is not. */
  lemma KnownYears()
    ensures IsLeap(2000) && !IsLeap(1900) && IsLeap(2024) && !IsLeap(2023)
    ensures DayFromYear(1970) == 0 && DayFromYear(2000) == 10957 && DayFromYear(1900) == -25567
  {
  }

  lemma KnownDays()
    ensures MakeDay(2000, 1, 29) == 11016 && MakeDay(2000, 2, 1) == 11017 && MakeDay(1900, 1, 29) == MakeDay(1900, 2, 1)
  {
    KnownYears();
    hide IsLeap, DayFromYear;
  }

  /** Twelve months are one year and one day is one day, however far month and day run over. */
  lemma MonthsAndDaysRunOver(y: int, month: int, d: int, years: int, days: int)
    ensures MakeDay(y, month + 12 * years, d + days) == MakeDay(y + years, month, d) + days
  {
    assert (month + 12 * years) / 12 == month / 12 + years && (month + 12 * years) % 12 == month % 12;
    hide DayFromYear, MonthStart;
  }
}
