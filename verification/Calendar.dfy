/**
  Calendar-month arithmetic (apps/api/src/common/date.util.ts) over the day-number model of
  section 15.9.1 of ECMA-262 edition 5.1. A time is a number of milliseconds of local time
  (the zone offset is fixed), and months are numbered from 0.
 */
module Calendar {

  const MS_PER_DAY: int := 24 * 60 * 60 * 1000

  // ---- Day numbers (sections 15.9.1.2 to 15.9.1.5) ----

  function Day(t: int): int { t / MS_PER_DAY }

  function TimeWithinDay(t: int): int { t % MS_PER_DAY }

  predicate Leap(y: int) { y % 4 == 0 && (y % 100 != 0 || y % 400 == 0) }

  function DaysInYear(y: int): int { if Leap(y) then 366 else 365 }

  function DayFromYear(y: int): int {
    365 * (y - 1970) + (y - 1969) / 4 - (y - 1901) / 100 + (y - 1601) / 400
  }

  /** Length of a month on the Gregorian calendar. */
  function MonthLength(y: int, m: int): (n: int)
    requires 0 <= m < 12
    ensures 28 <= n <= 31
  {
    if m == 1 then (if Leap(y) then 29 else 28)
    else if m == 3 || m == 5 || m == 8 || m == 10 then 30
    else 31
  }

  /** Days of year `y` that lie before the first of month `m`. */
  function DaysBefore(y: int, m: int): int
    requires 0 <= m <= 12
  {
    if m == 0 then 0 else DaysBefore(y, m - 1) + MonthLength(y, m - 1)
  }

  /** The table of section 15.9.1.4: the months add up to the year. */
  lemma DaysBeforeTable(y: int)
    ensures var leap := if Leap(y) then 1 else 0;
      && DaysBefore(y, 1) == 31 && DaysBefore(y, 2) == 59 + leap && DaysBefore(y, 3) == 90 + leap
      && DaysBefore(y, 4) == 120 + leap && DaysBefore(y, 5) == 151 + leap && DaysBefore(y, 6) == 181 + leap
      && DaysBefore(y, 7) == 212 + leap && DaysBefore(y, 8) == 243 + leap && DaysBefore(y, 9) == 273 + leap
      && DaysBefore(y, 10) == 304 + leap && DaysBefore(y, 11) == 334 + leap && DaysBefore(y, 12) == DaysInYear(y)
  {
    var leap := if Leap(y) then 1 else 0;
    assert DaysBefore(y, 1) == 31;
    assert DaysBefore(y, 2) == 59 + leap;
    assert DaysBefore(y, 3) == 90 + leap;
    assert DaysBefore(y, 4) == 120 + leap;
    assert DaysBefore(y, 5) == 151 + leap;
    assert DaysBefore(y, 6) == 181 + leap;
    assert DaysBefore(y, 7) == 212 + leap;
    assert DaysBefore(y, 8) == 243 + leap;
    assert DaysBefore(y, 9) == 273 + leap;
    assert DaysBefore(y, 10) == 304 + leap;
    assert DaysBefore(y, 11) == 334 + leap;
  }

  /** A calendar date, with `index` counting months: year `index / 12`, month `index % 12`. */
  datatype Date = Date(index: int, day: int)

  predicate Valid(d: Date) {
    1 <= d.day <= MonthLength(d.index / 12, d.index % 12)
  }

  /** MakeDay of section 15.9.1.12: month and day may lie outside their usual ranges. */
  function MakeDay(index: int, day: int): int {
    DayFromYear(index / 12) + DaysBefore(index / 12, index % 12) + day - 1
  }

  /** YearFromTime: the largest year that starts no later than day `n`, searched from `y`. */
  function YearOf(n: int, y: int): (r: int)
    ensures DayFromYear(r) <= n < DayFromYear(r + 1)
  {
    if n < DayFromYear(y) then YearBelow(n, y) else YearAbove(n, y)
  }

  function YearBelow(n: int, y: int): (r: int)
    requires n < DayFromYear(y)
    ensures DayFromYear(r) <= n < DayFromYear(r + 1)
    decreases DayFromYear(y) - n
  {
    YearLength(y - 1);
    if DayFromYear(y - 1) <= n then y - 1 else YearBelow(n, y - 1)
  }

  function YearAbove(n: int, y: int): (r: int)
    requires DayFromYear(y) <= n
    ensures DayFromYear(r) <= n < DayFromYear(r + 1)
    decreases n - DayFromYear(y)
  {
    YearLength(y);
    if n < DayFromYear(y + 1) then y else YearAbove(n, y + 1)
  }

  /** MonthFromTime: the month of the `k`-th day of year `y`, searched from month `m`. */
  function MonthOf(y: int, k: int, m: int): (r: int)
    requires 0 <= m < 12 && DaysBefore(y, m) <= k < DaysBefore(y, 12)
    ensures 0 <= r < 12 && DaysBefore(y, r) <= k < DaysBefore(y, r + 1)
    decreases 12 - m
  {
    if k < DaysBefore(y, m + 1) then m else MonthOf(y, k, m + 1)
  }

  /** The calendar date of a day number. */
  function DateOf(n: int): (d: Date)
    ensures Valid(d) && MakeDay(d.index, d.day) == n
  {
    var y := YearOf(n, 1970);
    YearLength(y);
    DaysBeforeTable(y);
    var m := MonthOf(y, n - DayFromYear(y), 0);
    IndexParts(y, m);
    Date(12 * y + m, n - DayFromYear(y) - DaysBefore(y, m) + 1)
  }

  lemma IndexParts(y: int, m: int)
    requires 0 <= m < 12
    ensures (12 * y + m) / 12 == y && (12 * y + m) % 12 == m
  {
  }

  lemma YearLength(y: int)
    ensures DayFromYear(y + 1) == DayFromYear(y) + DaysInYear(y)
  {
    Every4(y);
    Every100(y);
    Every400(y);
    assert y + 1 - 1969 == y - 1968 && y + 1 - 1901 == y - 1900 && y + 1 - 1601 == y - 1600;
  }

  lemma Every4(y: int)
    ensures (y - 1968) / 4 == (y - 1969) / 4 + if y % 4 == 0 then 1 else 0
  {
  }

  lemma Every100(y: int)
    ensures (y - 1900) / 100 == (y - 1901) / 100 + if y % 100 == 0 then 1 else 0
    ensures y % 100 == 0 ==> y % 4 == 0
  {
    assert y == 4 * (25 * (y / 100)) + y % 100;
  }

  lemma Every400(y: int)
    ensures (y - 1600) / 400 == (y - 1601) / 400 + if y % 400 == 0 then 1 else 0
    ensures y % 400 == 0 ==> y % 100 == 0
  {
    assert y == 100 * (4 * (y / 400)) + y % 400;
  }

  /** Month starts are consecutive: the next month begins where this one ends, also over New Year. */
  lemma NextMonth(index: int)
    ensures MakeDay(index + 1, 1) == MakeDay(index, 1) + MonthLength(index / 12, index % 12)
  {
    var y, m := index / 12, index % 12;
    if m < 11 {
      IndexParts(y, m + 1);
    } else {
      IndexParts(y + 1, 0);
      YearLength(y);
      DaysBeforeTable(y);
    }
  }

  lemma {:induction false} LaterMonth(index: int, index': int)
    requires index < index'
    ensures MakeDay(index, 1) + MonthLength(index / 12, index % 12) <= MakeDay(index', 1)
    decreases index' - index
  {
    hide MakeDay, MonthLength;
    NextMonth(index);
    if index + 1 < index' { LaterMonth(index + 1, index'); }
  }

  ghost predicate Before(d: Date, e: Date) {
    d.index < e.index || (d.index == e.index && d.day < e.day)
  }

  lemma DayOfMonth(d: Date)
    ensures MakeDay(d.index, d.day) == MakeDay(d.index, 1) + d.day - 1
  {
  }

  /** Day numbers order valid dates as the calendar does, so a day number has one date. */
  lemma DayNumbersOrdered(d: Date, e: Date)
    requires Valid(d) && Valid(e)
    ensures Before(d, e) <==> MakeDay(d.index, d.day) < MakeDay(e.index, e.day)
    ensures d == e <==> MakeDay(d.index, d.day) == MakeDay(e.index, e.day)
  {
    DayOfMonth(d);
    DayOfMonth(e);
    hide MakeDay, MonthLength;
    if d.index < e.index { LaterMonth(d.index, e.index); }
    if e.index < d.index { LaterMonth(e.index, d.index); }
  }

  /** Years begin on 1 January, and days are counted from that of 1970. */
  lemma FirstOfYear(y: int)
    ensures MakeDay(12 * y, 1) == DayFromYear(y) && Valid(Date(12 * y, 1))
    ensures y == 1970 ==> MakeDay(12 * y, 1) == 0
  {
    IndexParts(y, 0);
  }

  // ---- The program ----

  /** The Date constructor reads years 0 to 99 as 1900 to 1999 (section 15.9.3.1). */
  function ConstructorYear(y: int): int { if 0 <= y <= 99 then 1900 + y else y }

  /** `daysInMonth`: the day of the month of day 0 of the following month. */
  function DaysInMonth(year: int, month: int): (n: int) {
    DateOf(MakeDay(12 * ConstructorYear(year) + month + 1, 0)).day
  }

  /** The constructor's year is off for years 0 to 99, which matters for one month only. */
  lemma DaysInMonthIsGregorian(year: int, month: int)
    requires 0 <= month < 12
    ensures DaysInMonth(year, month) == MonthLength(ConstructorYear(year), month)
    ensures DaysInMonth(year, month) == MonthLength(year, month) <==> !(year == 0 && month == 1)
  {
    hide MakeDay, DateOf, MonthLength, ConstructorYear;
    IndexParts(ConstructorYear(year), month);
    ConstructorMonth(year, month);
    DayZero(12 * ConstructorYear(year) + month);
  }

  /** Day 0 of a month is the last day of the month before it. */
  lemma DayZero(index: int)
    ensures DateOf(MakeDay(index + 1, 0)) == Date(index, MonthLength(index / 12, index % 12))
  {
    hide MakeDay, DateOf, MonthLength;
    var last := Date(index, MonthLength(index / 12, index % 12));
    NextMonth(index);
    DayOfMonth(last);
    DayOfMonth(Date(index + 1, 0));
    DateOfMakeDay(last);
  }

  lemma LimitRange(year: int, month: int)
    requires 0 <= month < 12
    ensures 28 <= DaysInMonth(year, month) <= MonthLength(year, month)
  {
    hide DaysInMonth;
    DaysInMonthIsGregorian(year, month);
  }

  lemma ConstructorMonth(year: int, month: int)
    requires 0 <= month < 12
    ensures MonthLength(ConstructorYear(year), month) == MonthLength(year, month) <==> !(year == 0 && month == 1)
  {
    if 0 <= year <= 99 && year % 4 == 0 {
      assert (1900 + year) % 4 == 0;
    }
  }

  /** A day number determines its date. */
  lemma DateOfMakeDay(d: Date)
    requires Valid(d)
    ensures DateOf(MakeDay(d.index, d.day)) == d
  {
    DayNumbersOrdered(d, DateOf(MakeDay(d.index, d.day)));
  }

  /** What `addMonths` computes: the month moves by `months`, the day is clamped, the time stays. */
  function Moved(t: int, months: int): int {
    var d := DateOf(Day(t));
    var index := d.index + months;
    var limit := DaysInMonth(index / 12, index % 12);
    MakeDay(index, if d.day < limit then d.day else limit) * MS_PER_DAY + TimeWithinDay(t)
  }

  method AddMonths(date: int, months: int) returns (result: int)
    ensures result == Moved(date, months)
  {
    hide MakeDay, DateOf, MonthLength, DaysInMonth;
    result := date;
    var day := DateOf(Day(result)).day;
    ghost var d := DateOf(Day(date));
    result := SetDate(result, 1);
    result := SetMonth(result, DateOf(Day(result)).index % 12 + months);
    var e := DateOf(Day(result));
    assert e == Date(d.index + months, 1);
    var limit := DaysInMonth(e.index / 12, e.index % 12);
    result := SetDate(result, if day < limit then day else limit);
  }

  /** Date.prototype.setDate (section 15.9.5.36). */
  method SetDate(t: int, day: int) returns (r: int)
    ensures r == MakeDay(DateOf(Day(t)).index, day) * MS_PER_DAY + TimeWithinDay(t)
    ensures TimeWithinDay(r) == TimeWithinDay(t)
    ensures day == 1 ==> DateOf(Day(r)) == Date(DateOf(Day(t)).index, 1)
  {
    var d := DateOf(Day(t));
    DateOfMakeDay(Date(d.index, 1));
    hide MakeDay, DateOf, MonthLength;
    r := MakeDay(d.index, day) * MS_PER_DAY + TimeWithinDay(t);
    DayParts(MakeDay(d.index, day), TimeWithinDay(t));
  }

  /** Date.prototype.setMonth (section 15.9.5.38): `month` counts from January of the current year. */
  method SetMonth(t: int, month: int) returns (r: int)
    ensures var d := DateOf(Day(t));
      var index := 12 * (d.index / 12) + month;
      && r == MakeDay(index, d.day) * MS_PER_DAY + TimeWithinDay(t)
      && TimeWithinDay(r) == TimeWithinDay(t)
      && (d.day == 1 ==> DateOf(Day(r)) == Date(index, 1))
  {
    var d := DateOf(Day(t));
    var index := 12 * (d.index / 12) + month;
    DateOfMakeDay(Date(index, 1));
    hide MakeDay, DateOf, MonthLength;
    r := MakeDay(index, d.day) * MS_PER_DAY + TimeWithinDay(t);
    DayParts(MakeDay(index, d.day), TimeWithinDay(t));
  }

  lemma DayParts(n: int, ms: int)
    requires 0 <= ms < MS_PER_DAY
    ensures Day(n * MS_PER_DAY + ms) == n && TimeWithinDay(n * MS_PER_DAY + ms) == ms
  {
  }

  // ---- Theorems ----

  /** The month moves by exactly `months` and the day is the old one or the end of the shorter month. */
  lemma MovedDate(t: int, months: int)
    ensures var d, e := DateOf(Day(t)), DateOf(Day(Moved(t, months)));
      var limit := DaysInMonth(e.index / 12, e.index % 12);
      && e.index == d.index + months
      && e.day == (if d.day < limit then d.day else limit)
      && TimeWithinDay(Moved(t, months)) == TimeWithinDay(t)
  {
    hide MakeDay, DateOf, MonthLength, DaysInMonth;
    var d := DateOf(Day(t));
    var index := d.index + months;
    LimitRange(index / 12, index % 12);
    var limit := DaysInMonth(index / 12, index % 12);
    var e := Date(index, if d.day < limit then d.day else limit);
    DayParts(MakeDay(e.index, e.day), TimeWithinDay(t));
    DateOfMakeDay(e);
  }

  /** Later calendar days never end up on earlier ones. */
  lemma MovedMonotone(t: int, u: int, months: int)
    requires Day(t) <= Day(u)
    ensures Day(Moved(t, months)) <= Day(Moved(u, months))
  {
    hide MakeDay, DateOf, MonthLength, DaysInMonth, Moved;
    MovedDate(t, months);
    MovedDate(u, months);
    DayNumbersOrdered(DateOf(Day(t)), DateOf(Day(u)));
    DayNumbersOrdered(DateOf(Day(Moved(t, months))), DateOf(Day(Moved(u, months))));
  }

  /**
    Two steps reach the same month as one, never a later day, and at most three days earlier.
    They agree exactly when the month passed on the way is long enough for the final day.
   */
  lemma MovedTwice(t: int, a: int, b: int)
    ensures var once, twice := Moved(t, a + b), Moved(Moved(t, a), b);
      && Day(once) - 3 <= Day(twice) <= Day(once)
      && (DateOf(Day(t)).day <= 28 ==> twice == once)
      && var passed := DateOf(Day(t)).index + a;
      && (twice == once <==> DateOf(Day(once)).day <= DaysInMonth(passed / 12, passed % 12))
  {
    hide MakeDay, DateOf, MonthLength, DaysInMonth, Moved;
    var once, twice := Moved(t, a + b), Moved(Moved(t, a), b);
    MovedDate(t, a + b);
    MovedDate(t, a);
    MovedDate(Moved(t, a), b);
    var d := DateOf(Day(t));
    LimitRange((d.index + a) / 12, (d.index + a) % 12);
    LimitRange((d.index + a + b) / 12, (d.index + a + b) % 12);
    DayOfMonth(DateOf(Day(once)));
    DayOfMonth(DateOf(Day(twice)));
    assert Day(once) - Day(twice) == DateOf(Day(once)).day - DateOf(Day(twice)).day;
    assert once == Day(once) * MS_PER_DAY + TimeWithinDay(once);
    assert twice == Day(twice) * MS_PER_DAY + TimeWithinDay(twice);
  }

  /** 31 January plus one month twice is 28 March in a common year; plus two months at once it is 31 March. */
  lemma MovedTwiceGap()
    ensures var t := MakeDay(12 * 2023, 31) * MS_PER_DAY;
      && DateOf(Day(Moved(t, 2))) == Date(12 * 2023 + 2, 31)
      && DateOf(Day(Moved(Moved(t, 1), 1))) == Date(12 * 2023 + 2, 28)
  {
    hide MakeDay, DateOf, DaysInMonth, Moved, ConstructorYear;
    var start := MakeDay(12 * 2023, 31);
    DateOfMakeDay(Date(12 * 2023, 31));
    DayParts(start, 0);
    var t := start * MS_PER_DAY;
    MovedDate(t, 2);
    MovedDate(t, 1);
    MovedDate(Moved(t, 1), 1);
    DaysInMonthIsGregorian(2023, 1);
    DaysInMonthIsGregorian(2023, 2);
  }

  /** A positive number of months always leads to a later time. */
  lemma MovedLater(t: int, months: int)
    requires months > 0
    ensures Moved(t, months) > t
  {
    hide MakeDay, DateOf, DaysInMonth, Moved;
    MovedDate(t, months);
    DayNumbersOrdered(DateOf(Day(t)), DateOf(Day(Moved(t, months))));
    assert Day(t) < Day(Moved(t, months));
  }
}
