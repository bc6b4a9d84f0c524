/**
  The proleptic Gregorian calendar as ECMA-262 section 21.4.1 defines it, in whole
  days and whole seconds since 1970-01-01T00:00:00 UTC. `Date.UTC` is `SecondsOf`
  (times 1000); the `getUTC...` accessors are the fields of `FieldsOf`.
 */
module Calendar {

  const DAY := 86_400

  datatype Date = Date(year: int, month: int, day: int)

  datatype WallClock = WallClock(date: Date, hour: int, minute: int, second: int)

  predicate IsLeap(y: int) {
    y % 4 == 0 && (y % 100 != 0 || y % 400 == 0)
  }

  function DaysInYear(y: int): int {
    if IsLeap(y) then 366 else 365
  }

  function DayFromYear(y: int): int {
    365 * (y - 1970) + (y - 1969) / 4 - (y - 1901) / 100 + (y - 1601) / 400
  }

  /** Days before the first of month `m` (1 to 13) in a year. */
  function MonthStart(y: int, m: int): int
    requires 1 <= m <= 13
  {
    if m <= 2 then 31 * (m - 1)
    else (367 * m - 362) / 12 - if IsLeap(y) then 1 else 2
  }

  lemma MonthLengths(y: int, m: int)
    requires 1 <= m <= 12
    ensures MonthStart(y, m + 1) - MonthStart(y, m) ==
            if m == 2 then (if IsLeap(y) then 29 else 28) else if m in {4, 6, 9, 11} then 30 else 31
    ensures MonthStart(y, 1) == 0 && MonthStart(y, 13) == DaysInYear(y)
  {
  }

  /** The day number of a date; months and days outside their range carry over. */
  function MakeDay(d: Date): int {
    var y := d.year + (d.month - 1) / 12;
    DayFromYear(y) + MonthStart(y, (d.month - 1) % 12 + 1) + d.day - 1
  }

  /** Days past the end of a month carry over into the next ones. */
  lemma DaysCarry(d: Date, k: int)
    ensures MakeDay(Date(d.year, d.month, d.day + k)) == MakeDay(d) + k
  {
    hide MonthStart, DayFromYear;
  }

  predicate ValidDate(d: Date) {
    1 <= d.month <= 12 && 1 <= d.day <= MonthStart(d.year, d.month + 1) - MonthStart(d.year, d.month)
  }

  predicate ValidWall(w: WallClock) {
    ValidDate(w.date) && 0 <= w.hour < 24 && 0 <= w.minute < 60 && 0 <= w.second < 60
  }

  lemma FourthYears(y: int)
    ensures (y - 1968) / 4 == (y - 1969) / 4 + if y % 4 == 0 then 1 else 0
  {
  }

  lemma Centuries(y: int)
    ensures (y - 1900) / 100 == (y - 1901) / 100 + if y % 100 == 0 then 1 else 0
  {
  }

  lemma FourCenturies(y: int)
    ensures (y - 1600) / 400 == (y - 1601) / 400 + if y % 400 == 0 then 1 else 0
  {
  }

  lemma HundredsDivide(q: int)
    ensures (400 * q) % 100 == 0
  {
  }

  lemma FoursDivide(c: int)
    ensures (100 * c) % 4 == 0
  {
  }

  lemma WholeMultiple(y: int, n: int)
    requires n > 0
    ensures y % n == 0 ==> y == n * (y / n)
  {
  }

  lemma LeapYearsNest(y: int)
    ensures y % 400 == 0 ==> y % 100 == 0
    ensures y % 100 == 0 ==> y % 4 == 0
  {
    HundredsDivide(y / 400);
    FoursDivide(y / 100);
    WholeMultiple(y, 400);
    WholeMultiple(y, 100);
  }

  lemma YearStep(y: int)
    ensures DayFromYear(y + 1) == DayFromYear(y) + DaysInYear(y)
  {
    FourthYears(y);
    Centuries(y);
    FourCenturies(y);
    LeapYearsNest(y);
  }

  lemma {:induction false} YearsIncrease(a: int, b: int)
    requires a < b
    ensures DayFromYear(a) + DaysInYear(a) <= DayFromYear(b)
    decreases b - a
  {
    YearStep(a);
    if a + 1 < b {
      YearsIncrease(a + 1, b);
    }
  }

  /** The largest year that starts on or before day `n`, searched upwards from `y`. */
  function YearFrom(n: int, y: int): (r: int)
    requires DayFromYear(y) <= n
    ensures DayFromYear(r) <= n < DayFromYear(r) + DaysInYear(r)
    decreases n - DayFromYear(y)
  {
    YearStep(y);
    if DayFromYear(y + 1) <= n then YearFrom(n, y + 1) else y
  }

  function YearOf(n: int): (r: int)
    ensures DayFromYear(r) <= n < DayFromYear(r) + DaysInYear(r)
  {
    YearFrom(n, if n < 0 then 1970 + n / 365 else 1970)
  }

  /** The month of a year that holds its day `k`, searched upwards from `m`. */
  function MonthFrom(y: int, k: int, m: int): (r: int)
    requires 1 <= m <= 12 && MonthStart(y, m) <= k < DaysInYear(y)
    ensures 1 <= r <= 12 && MonthStart(y, r) <= k < MonthStart(y, r + 1)
    decreases 12 - m
  {
    if m == 12 || k < MonthStart(y, m + 1) then m else MonthFrom(y, k, m + 1)
  }

  lemma DayOfMonth(y: int, m: int, k: int)
    requires 1 <= m <= 12 && MonthStart(y, m) <= k < MonthStart(y, m + 1)
    ensures
      var d := Date(y, m, k - MonthStart(y, m) + 1);
      ValidDate(d) && MakeDay(d) == DayFromYear(y) + k
  {
    hide DayFromYear, MonthStart;
    assert (m - 1) / 12 == 0 && (m - 1) % 12 == m - 1;
  }

  function CivilFromDay(n: int): (d: Date)
    ensures ValidDate(d) && MakeDay(d) == n
  {
    var y := YearOf(n);
    var k := n - DayFromYear(y);
    var m := MonthFrom(y, k, 1);
    DayOfMonth(y, m, k);
    Date(y, m, k - MonthStart(y, m) + 1)
  }

  lemma {:induction false} MonthsIncrease(y: int, a: int, b: int)
    requires 1 <= a < b <= 13
    ensures MonthStart(y, a + 1) <= MonthStart(y, b)
    decreases b - a
  {
    if a + 1 < b {
      MonthsIncrease(y, a + 1, b);
    }
  }

  lemma DayOfValidDate(d: Date)
    requires ValidDate(d)
    ensures MakeDay(d) == DayFromYear(d.year) + MonthStart(d.year, d.month) + d.day - 1
    ensures DayFromYear(d.year) <= MakeDay(d) < DayFromYear(d.year) + DaysInYear(d.year)
  {
    assert (d.month - 1) / 12 == 0 && (d.month - 1) % 12 == d.month - 1;
    if d.month < 12 {
      MonthsIncrease(d.year, d.month, 13);
    }
  }

  /** A valid date is the only valid date of its day. */
  lemma DateUnique(d: Date, e: Date)
    requires ValidDate(d) && ValidDate(e) && MakeDay(d) == MakeDay(e)
    ensures d == e
  {
    DayOfValidDate(d);
    DayOfValidDate(e);
    if d.year < e.year {
      YearsIncrease(d.year, e.year);
    } else if e.year < d.year {
      YearsIncrease(e.year, d.year);
    } else if d.month < e.month {
      MonthsIncrease(d.year, d.month, e.month);
    } else if e.month < d.month {
      MonthsIncrease(d.year, e.month, d.month);
    }
  }

  function SecondsOf(w: WallClock): int {
    MakeDay(w.date) * DAY + w.hour * 3600 + w.minute * 60 + w.second
  }

  function FieldsOf(n: int): (w: WallClock)
    ensures ValidWall(w) && SecondsOf(w) == n && MakeDay(w.date) == n / DAY
  {
    var s := n % DAY;
    var h, r := s / 3600, s % 3600;
    assert n == n / DAY * DAY + h * 3600 + r / 60 * 60 + r % 60;
    WallClock(CivilFromDay(n / DAY), h, r / 60, r % 60)
  }

  /** `Date.UTC` and the calendar fields are inverse on valid readings, and no other reading is ever produced. */
  lemma FieldsInverse(w: WallClock, n: int)
    ensures FieldsOf(n) == w <==> ValidWall(w) && SecondsOf(w) == n
  {
    if ValidWall(w) && SecondsOf(w) == n {
      var f := FieldsOf(n);
      var secs := w.hour * 3600 + w.minute * 60 + w.second;
      assert 0 <= secs < DAY;
      DateUnique(w.date, f.date);
    }
  }

  // ---------------------------------------------------------------- days by the civil calendar

  function MonthLength(y: int, m: int): int {
    if m == 2 then (if y % 400 == 0 || (y % 4 == 0 && y % 100 != 0) then 29 else 28) else if m in {4, 6, 9, 11} then 30 else 31
  }

  /** The day after, by the Gregorian months and leap years. */
  function DayAfter(d: Date): Date {
    if d.day < MonthLength(d.year, d.month) then Date(d.year, d.month, d.day + 1)
    else if d.month < 12 then Date(d.year, d.month + 1, 1)
    else Date(d.year + 1, 1, 1)
  }

  lemma LengthOfMonth(y: int, m: int)
    requires 1 <= m <= 12
    ensures MonthStart(y, m + 1) == MonthStart(y, m) + MonthLength(y, m)
  {
    hide MonthStart;
    MonthLengths(y, m);
    LeapYearsNest(y);
  }

  lemma FirstOfMonth(y: int, m: int)
    requires 1 <= m <= 12
    ensures ValidDate(Date(y, m, 1)) && MakeDay(Date(y, m, 1)) == DayFromYear(y) + MonthStart(y, m)
  {
    hide MonthStart, DayFromYear, MonthLength;
    LengthOfMonth(y, m);
    assert MonthLength(y, m) >= 28 by { AtLeastFour(y, m); }
    assert (m - 1) / 12 == 0 && (m - 1) % 12 == m - 1;
  }

  lemma AtLeastFour(y: int, m: int)
    ensures MonthLength(y, m) >= 28
  {
  }

  /** Day numbers count the days of the civil calendar from 1 January 1970 on. */
  lemma DaysCount(d: Date)
    requires ValidDate(d)
    ensures ValidDate(DayAfter(d)) && MakeDay(DayAfter(d)) == MakeDay(d) + 1
    ensures MakeDay(Date(1970, 1, 1)) == 0
  {
    hide MonthStart, DayFromYear, MakeDay, MonthLength, DaysInYear;
    Epoch();
    LengthOfMonth(d.year, d.month);
    if d.day < MonthLength(d.year, d.month) {
      DaysCarry(d, 1);
    } else {
      DayOfValidDate(d);
      if d.month < 12 {
        FirstOfMonth(d.year, d.month + 1);
      } else {
        FirstOfMonth(d.year + 1, 1);
        YearStep(d.year);
        MonthLengths(d.year, 12);
        MonthLengths(d.year + 1, 1);
      }
    }
  }

  lemma Epoch()
    ensures MakeDay(Date(1970, 1, 1)) == 0
  {
  }

  /** 0 = Sunday. Day 0 was a Thursday. */
  function Weekday(n: int): (r: int)
    ensures 0 <= r <= 6
  {
    (n + 4) % 7
  }

  /** The days that Zeller's congruence counts by year, month and day, the year beginning in March. */
  function ZellerCount(d: Date): int {
    var y, m := if d.month <= 2 then d.year - 1 else d.year, if d.month <= 2 then d.month + 12 else d.month;
    d.day + 13 * (m + 1) / 5 + y + y / 4 - y / 100 + y / 400
  }

  /** Zeller's congruence, from Sunday. */
  function Zeller(d: Date): int {
    (ZellerCount(d) - 1) % 7
  }

  lemma MarchYears(y: int)
    ensures y / 4 - y / 100 + y / 400 == (y - 1969) / 4 - (y - 1901) / 100 + (y - 1601) / 400 + 477 + if IsLeap(y) then 1 else 0
    ensures (y - 1) / 4 - (y - 1) / 100 + (y - 1) / 400 == (y - 1969) / 4 - (y - 1901) / 100 + (y - 1601) / 400 + 477
  {
    FourthYears(y);
    Centuries(y);
    FourCenturies(y);
    LeapYearsNest(y);
    assert y / 4 == (y - 1968) / 4 + 492 && y / 100 == (y - 1900) / 100 + 19 && y / 400 == (y - 1600) / 400 + 4;
    assert (y - 1) / 4 == (y - 1969) / 4 + 492 && (y - 1) / 100 == (y - 1901) / 100 + 19 && (y - 1) / 400 == (y - 1601) / 400 + 4;
  }

  lemma MonthsBySevens(y: int, m: int)
    requires 1 <= m <= 12
    ensures (MonthStart(y, m) - (if m > 2 && IsLeap(y) then 1 else 0) - 13 * ((if m <= 2 then m + 12 else m) + 1) / 5 +
             (if m <= 2 then 1 else 0)) % 7 == 0
  {
    hide IsLeap;
    if m > 2 {
      if m <= 7 { SevensToJuly(m); } else { SevensFromAugust(m); }
    }
  }

  lemma SevensToJuly(m: int)
    requires 3 <= m <= 7
    ensures ((367 * m - 362) / 12 - 2 - 13 * (m + 1) / 5) % 7 == 0
  {
    if m == 3 {} else if m == 4 {} else if m == 5 {} else if m == 6 {} else {}
  }

  lemma SevensFromAugust(m: int)
    requires 8 <= m <= 12
    ensures ((367 * m - 362) / 12 - 2 - 13 * (m + 1) / 5) % 7 == 0
  {
    if m == 8 {} else if m == 9 {} else if m == 10 {} else if m == 11 {} else {}
  }

  lemma CountsAgree(d: Date) returns (weeks: int)
    requires ValidDate(d)
    ensures MakeDay(d) + 4 == ZellerCount(d) - 1 + 7 * weeks
  {
    hide ValidDate, MakeDay, IsLeap, MonthStart;
    DayOfValidDate(d);
    MarchYears(d.year);
    assert 1 <= d.month <= 12 by { MonthOf(d); }
    MonthsBySevens(d.year, d.month);
    var m := if d.month <= 2 then d.month + 12 else d.month;
    var odd := MonthStart(d.year, d.month) - (if d.month > 2 && IsLeap(d.year) then 1 else 0) - 13 * (m + 1) / 5 +
               (if d.month <= 2 then 1 else 0);
    WholeMultiple(odd, 7);
    weeks := 52 * d.year - 102_789 + odd / 7;
  }

  lemma MonthOf(d: Date)
    requires ValidDate(d)
    ensures 1 <= d.month <= 12
  {
  }

  /** The weekday of a day number is that of its date. */
  lemma WeekdayIsZeller(d: Date)
    requires ValidDate(d)
    ensures Weekday(MakeDay(d)) == Zeller(d)
  {
    hide ValidDate, MakeDay, ZellerCount;
    var weeks := CountsAgree(d);
    SameRemainder(MakeDay(d) + 4, ZellerCount(d) - 1, weeks);
  }

  lemma SameRemainder(a: int, b: int, k: int)
    requires a == b + 7 * k
    ensures a % 7 == b % 7
  {
  }
}
