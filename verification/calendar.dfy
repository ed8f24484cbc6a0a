/** Calendar dates as the app reads them back from JavaScript `Date` objects
    (`getFullYear()`, `getMonth() + 1`, `getDate()`), the year-month key used
    to bucket them, and the day arithmetic `new Date(year, month, day)`
    performs on out-of-range days. */
module Calendar {

  type Month = m: int | 1 <= m <= 12 witness 1

  /** A parsed date: year, month 1..12, day of month. */
  datatype Date = Date(year: nat, month: Month, day: nat)

  /** Chronological order of dates (the sort comparator `new Date(a) - new Date(b)`). */
  predicate DateLe(a: Date, b: Date) {
    a.year < b.year
    || (a.year == b.year && a.month < b.month)
    || (a.year == b.year && a.month == b.month && a.day <= b.day)
  }

  lemma DateLeTotal(a: Date, b: Date)
    ensures DateLe(a, b) || DateLe(b, a)
    ensures DateLe(a, b) && DateLe(b, a) ==> a == b
  {
  }

  lemma DateLeTransitive(a: Date, b: Date, c: Date)
    requires DateLe(a, b) && DateLe(b, c)
    ensures DateLe(a, c)
  {
  }

  /** A calendar month: the bucket of the monthly net series. */
  datatype MonthKey = MonthKey(year: nat, month: Month)

  function MonthOfDate(d: Date): MonthKey {
    MonthKey(d.year, d.month)
  }

  predicate KeyBefore(a: MonthKey, b: MonthKey) {
    a.year < b.year || (a.year == b.year && a.month < b.month)
  }

  predicate KeyLe(a: MonthKey, b: MonthKey) {
    a == b || KeyBefore(a, b)
  }

  /** Chronological order of dates never inverts the order of their months. */
  lemma DateLeMonth(a: Date, b: Date)
    requires DateLe(a, b)
    ensures KeyLe(MonthOfDate(a), MonthOfDate(b))
  {
  }

  predicate IsLeapYear(y: int) {
    y % 4 == 0 && (y % 100 != 0 || y % 400 == 0)
  }

  /** The number of days of month `m` of year `y` in the proleptic Gregorian
      calendar JavaScript uses. */
  function DaysInMonth(y: int, m: int): (n: int)
    requires 1 <= m <= 12
    ensures 28 <= n <= 31
    ensures n == 29 <==> m == 2 && IsLeapYear(y)
    ensures n == 30 <==> m in {4, 6, 9, 11}
  {
    if m == 2 then (if IsLeapYear(y) then 29 else 28)
    else if m == 4 || m == 6 || m == 9 || m == 11 then 30
    else 31
  }

  /** The fields a JavaScript `Date` reports, without range restrictions. */
  datatype CivilDate = CivilDate(year: int, month: int, day: int)

  /** Months counted from a fixed origin, to compare positions in time. */
  function MonthIndex(y: int, m: int): int {
    y * 12 + m
  }

  /** The day-overflow rule of the `Date` constructor: a day past the end of
      the month carries into the following months, and a day below 1 borrows
      from the preceding ones. */
  function Rollover(y: int, m: int, d: int): CivilDate
    requires 1 <= m <= 12
    decreases if d < 1 then 100 - d else d
  {
    if d < 1 then
      var py := if m == 1 then y - 1 else y;
      var pm := if m == 1 then 12 else m - 1;
      Rollover(py, pm, d + DaysInMonth(py, pm))
    else if d > DaysInMonth(y, m) then
      var ny := if m == 12 then y + 1 else y;
      var nm := if m == 12 then 1 else m + 1;
      Rollover(ny, nm, d - DaysInMonth(y, m))
    else CivilDate(y, m, d)
  }

  /** `new Date(year, monthIndex, day)` read back as (full year, month 1..12, day).
      Years 0 to 99 are taken as 1900 to 1999, and a month index outside 0..11
      carries into the year. */
  function ConstructDate(year: int, monthIndex: int, day: int): CivilDate {
    var y := if 0 <= year <= 99 then 1900 + year else year;
    Rollover(y + monthIndex / 12, monthIndex % 12 + 1, day)
  }

  /** A day below 1 lands in an earlier month, a day past the month's end in a
      later one; only a day inside the month stays put. */
  lemma {:induction false} RolloverMoves(y: int, m: int, d: int)
    requires 1 <= m <= 12
    ensures var r := Rollover(y, m, d);
      && 1 <= r.month <= 12 && 1 <= r.day
      && (d < 1 ==> MonthIndex(r.year, r.month) < MonthIndex(y, m))
      && (d > DaysInMonth(y, m) ==> MonthIndex(r.year, r.month) > MonthIndex(y, m))
      && (1 <= d <= DaysInMonth(y, m) ==> r == CivilDate(y, m, d))
    decreases if d < 1 then 100 - d else d
  {
    if d < 1 {
      var py := if m == 1 then y - 1 else y;
      var pm := if m == 1 then 12 else m - 1;
      RolloverMoves(py, pm, d + DaysInMonth(py, pm));
    } else if d > DaysInMonth(y, m) {
      var ny := if m == 12 then y + 1 else y;
      var nm := if m == 12 then 1 else m + 1;
      RolloverMoves(ny, nm, d - DaysInMonth(y, m));
    }
  }

  /** The constructor gives back exactly the fields it was given if and only if
      they name a real calendar day of a year from 100 on. */
  lemma ConstructDateRoundTrip(year: int, month: int, day: int)
    requires 1 <= month <= 12
    ensures ConstructDate(year, month - 1, day) == CivilDate(year, month, day)
        <==> (year < 0 || year >= 100) && 1 <= day <= DaysInMonth(year, month)
  {
    var y := if 0 <= year <= 99 then 1900 + year else year;
    assert (month - 1) / 12 == 0 && (month - 1) % 12 + 1 == month;
    RolloverMoves(y, month, day);
    var r := Rollover(y, month, day);
    if 0 <= year <= 99 {
      if day > DaysInMonth(y, month) {
        assert MonthIndex(r.year, r.month) > MonthIndex(year, month);
      }
      assert r != CivilDate(year, month, day);
    }
  }
}
