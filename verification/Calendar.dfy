/** The proleptic Gregorian calendar in one fixed-offset zone, as Go's time package computes it.
    Instants are whole nanoseconds counted from midnight of 1 January of year 1. */
module Calendar {
  const DAY: int := 86_400_000_000_000

  datatype Date = Date(year: int, month: int, day: int)

  predicate Leap(y: int) { y % 4 == 0 && (y % 100 != 0 || y % 400 == 0) }

  function DaysInMonth(y: int, m: int): int {
    if m == 2 then (if Leap(y) then 29 else 28)
    else if m == 4 || m == 6 || m == 9 || m == 11 then 30
    else 31
  }

  function DaysInYear(y: int): int { if Leap(y) then 366 else 365 }

  /** Days from the epoch to the first day of year `y`. */
  function DaysBeforeYear(y: int): int
    decreases if y >= 1 then y else 1 - y
  {
    if y == 1 then 0
    else if y > 1 then DaysBeforeYear(y - 1) + DaysInYear(y - 1)
    else if y == 0 then -366
    else DaysBeforeYear(y + 1) - DaysInYear(y)
  }

  /** Days from the first day of the year to the first day of month `m`. */
  function DaysBeforeMonth(y: int, m: int): int {
    if m <= 1 then 0 else DaysBeforeMonth(y, m - 1) + DaysInMonth(y, m - 1)
  }

  function DayNumber(y: int, m: int, d: int): int { DaysBeforeYear(y) + DaysBeforeMonth(y, m) + d - 1 }

  predicate ValidDate(date: Date) {
    1 <= date.month <= 12 && 1 <= date.day <= DaysInMonth(date.year, date.month)
  }

  function NumberOf(date: Date): int { DayNumber(date.year, date.month, date.day) }

  lemma YearLength(y: int)
    ensures DaysBeforeYear(y + 1) == DaysBeforeYear(y) + DaysInYear(y)
  {
    if y == 0 {
      assert Leap(0);
    }
  }

  lemma TwelveMonths(y: int)
    ensures DaysBeforeMonth(y, 13) == DaysInYear(y)
  {
    assert DaysBeforeMonth(y, 2) == 31;
    assert DaysBeforeMonth(y, 4) == 90 + if Leap(y) then 1 else 0;
    assert DaysBeforeMonth(y, 6) == 151 + if Leap(y) then 1 else 0;
    assert DaysBeforeMonth(y, 8) == 212 + if Leap(y) then 1 else 0;
    assert DaysBeforeMonth(y, 10) == 273 + if Leap(y) then 1 else 0;
    assert DaysBeforeMonth(y, 12) == 334 + if Leap(y) then 1 else 0;
  }

  /** The closed form of the day count, which the recursion over the years agrees with. */
  lemma {:induction false} YearsInClosedForm(y: int)
    requires y >= 1
    ensures DaysBeforeYear(y) == 365 * (y - 1) + (y - 1) / 4 - (y - 1) / 100 + (y - 1) / 400
    decreases y
  {
    if y > 1 {
      YearsInClosedForm(y - 1);
      var p := y - 1;
      assert p % 400 == 0 ==> p % 100 == 0;
      assert p % 100 == 0 ==> p % 4 == 0;
      assert p / 4 == (p - 1) / 4 + if p % 4 == 0 then 1 else 0;
      assert p / 100 == (p - 1) / 100 + if p % 100 == 0 then 1 else 0;
      assert p / 400 == (p - 1) / 400 + if p % 400 == 0 then 1 else 0;
    }
  }

  lemma {:induction false} YearsApart(y: int, z: int)
    requires y <= z
    ensures DaysBeforeYear(z) >= DaysBeforeYear(y) + 365 * (z - y)
    decreases z - y
  {
    if y < z {
      YearsApart(y, z - 1);
      YearLength(z - 1);
    }
  }

  lemma {:induction false} MonthsApart(y: int, m: int, n: int)
    requires 1 <= m <= n <= 13
    ensures DaysBeforeMonth(y, m) <= DaysBeforeMonth(y, n) <= DaysInYear(y)
    ensures DaysBeforeMonth(y, m) >= 0
    decreases n - m, 13 - n
  {
    if m < n {
      MonthsApart(y, m, n - 1);
    }
    MonthsUpTo(y, n);
    MonthsFromStart(y, m);
  }

  lemma {:induction false} MonthsUpTo(y: int, n: int)
    requires 1 <= n <= 13
    ensures DaysBeforeMonth(y, n) <= DaysInYear(y)
    decreases 13 - n
  {
    if n == 13 {
      TwelveMonths(y);
    } else {
      MonthsUpTo(y, n + 1);
      assert DaysBeforeMonth(y, n + 1) == DaysBeforeMonth(y, n) + DaysInMonth(y, n);
    }
  }

  lemma {:induction false} MonthsFromStart(y: int, m: int)
    requires 1 <= m
    ensures DaysBeforeMonth(y, m) >= 0
    decreases m
  {
    if m > 1 {
      MonthsFromStart(y, m - 1);
    }
  }

  predicate Before(a: Date, b: Date) {
    a.year < b.year || (a.year == b.year && (a.month < b.month || (a.month == b.month && a.day < b.day)))
  }

  /** Later dates have larger day numbers. */
  lemma DatesInOrder(a: Date, b: Date)
    requires ValidDate(a) && ValidDate(b) && Before(a, b)
    ensures NumberOf(a) < NumberOf(b)
  {
    assert DaysBeforeMonth(a.year, a.month + 1) == DaysBeforeMonth(a.year, a.month) + DaysInMonth(a.year, a.month);
    if a.year < b.year {
      MonthsUpTo(a.year, a.month + 1);
      MonthsFromStart(b.year, b.month);
      YearLength(a.year);
      YearsApart(a.year + 1, b.year);
    } else if a.month < b.month {
      MonthsApart(a.year, a.month + 1, b.month);
    }
  }

  lemma SameNumberSameDate(a: Date, b: Date)
    requires ValidDate(a) && ValidDate(b) && NumberOf(a) == NumberOf(b)
    ensures a == b
  {
    if Before(a, b) {
      DatesInOrder(a, b);
    } else if Before(b, a) {
      DatesInOrder(b, a);
    }
  }

  // -------------------------------------------------------------- back to dates

  /** The year a day falls into, searched from `y`. */
  function YearFrom(day: int, y: int): (r: int)
    ensures DaysBeforeYear(r) <= day < DaysBeforeYear(r + 1)
    decreases if DaysBeforeYear(y) <= day then day - DaysBeforeYear(y) else DaysBeforeYear(y) - day,
              if DaysBeforeYear(y) <= day then 0 else 1
  {
    YearLength(y);
    YearLength(y - 1);
    if DaysBeforeYear(y) <= day then
      if day < DaysBeforeYear(y + 1) then y else YearFrom(day, y + 1)
    else if DaysBeforeYear(y - 1) <= day then y - 1
    else YearFrom(day, y - 1)
  }

  /** The month a day of the year falls into, searched downwards from `m`. */
  function MonthFrom(y: int, dayOfYear: int, m: int): (r: int)
    requires 1 <= m <= 12 && 0 <= dayOfYear < DaysBeforeMonth(y, m + 1)
    ensures 1 <= r <= 12 && DaysBeforeMonth(y, r) <= dayOfYear < DaysBeforeMonth(y, r + 1)
    decreases m
  {
    if DaysBeforeMonth(y, m) <= dayOfYear then m else MonthFrom(y, dayOfYear, m - 1)
  }

  /** Computes the date of a day. */
  function FindDate(day: int): (date: Date)
    ensures ValidDate(date) && NumberOf(date) == day
  {
    var y := YearFrom(day, 1);
    YearLength(y);
    TwelveMonths(y);
    var m := MonthFrom(y, day - DaysBeforeYear(y), 12);
    assert DaysBeforeMonth(y, m + 1) == DaysBeforeMonth(y, m) + DaysInMonth(y, m);
    Date(y, m, day - DaysBeforeYear(y) - DaysBeforeMonth(y, m) + 1)
  }

  ghost predicate IsDateOf(date: Date, day: int) { ValidDate(date) && NumberOf(date) == day }

  /** The one date of a day. */
  ghost function Civil(day: int): (date: Date)
    ensures IsDateOf(date, day)
  {
    assert IsDateOf(FindDate(day), day);
    var date :| IsDateOf(date, day);
    date
  }

  lemma DateIsUnique(date: Date, day: int)
    requires IsDateOf(date, day)
    ensures Civil(day) == date
  {
    SameNumberSameDate(date, Civil(day));
  }

  // ------------------------------------------------------------------- instants

  /** Go's time.Date at `time` nanoseconds after midnight: months are normalised, days run on. */
  function TimeDate(y: int, m: int, d: int, time: int): int {
    DayNumber(y + (m - 1) / 12, (m - 1) % 12 + 1, d) * DAY + time
  }

  /** The date and the time of day of an instant. */
  ghost function DateOf(t: int): Date { Civil(t / DAY) }

  /** Go's Year, Month and Day of an instant. */
  method DateParts(t: int) returns (date: Date)
    ensures date == DateOf(t)
  {
    date := FindDate(t / DAY);
    DateIsUnique(date, t / DAY);
  }

  /** The instant at `time` on a valid date. */
  function InstantOn(date: Date, time: int): int { NumberOf(date) * DAY + time }

  lemma InstantParts(date: Date, time: int)
    requires ValidDate(date) && 0 <= time < DAY
    ensures DateOf(InstantOn(date, time)) == date && InstantOn(date, time) % DAY == time
  {
    var day := NumberOf(date);
    assert (day * DAY + time) / DAY == day;
    DateIsUnique(date, day);
  }

  lemma InstantFromParts(t: int)
    ensures ValidDate(DateOf(t)) && t == InstantOn(DateOf(t), t % DAY)
  {}

  /** Instants on earlier dates are earlier. */
  lemma InstantsInOrder(a: Date, s: int, b: Date, t: int)
    requires ValidDate(a) && ValidDate(b) && Before(a, b) && 0 <= s < DAY && 0 <= t < DAY
    ensures InstantOn(a, s) < InstantOn(b, t)
  {
    DatesInOrder(a, b);
  }

  /** The first day of a month, day 0 of the next month, and an ordinary day as time.Date places them. */
  lemma TimeDateIs(y: int, m: int, d: int, time: int)
    requires 1 <= m <= 12
    ensures TimeDate(y, m, d, time) == DayNumber(y, m, d) * DAY + time
    ensures TimeDate(y, m + 1, 0, time) == DayNumber(y, m, DaysInMonth(y, m)) * DAY + time
  {
    assert DaysBeforeMonth(y, m + 1) == DaysBeforeMonth(y, m) + DaysInMonth(y, m);
    if m == 12 {
      TwelveMonths(y);
      YearLength(y);
      assert TimeDate(y, 13, 0, time) == DayNumber(y + 1, 1, 0) * DAY + time;
    }
  }

  /** Among eight consecutive years one is a leap year. */
  lemma LeapYearNear(y: int) returns (z: int)
    ensures y <= z < y + 8 && Leap(z)
  {
    z := y + (-y) % 4;
    if !Leap(z) {
      assert z % 100 == 0;
      z := z + 4;
      assert z % 100 == 4;
    }
  }
}
