/** Proleptic Gregorian dates as JavaScript's `Date` constructor and getters
    see them in local time: months are indexed 0..11, weekdays 0 (Sunday)..6. */
module Gregorian {
  import opened Text

  datatype Date = Date(year: int, month: int, day: int)

  predicate IsLeapYear(y: int)
  {
    (y % 4 == 0 && y % 100 != 0) || y % 400 == 0
  }

  function DaysInMonth(y: int, m: int): (r: int)
    requires 0 <= m < 12
    ensures 28 <= r <= 31
    ensures r == 29 <==> m == 1 && IsLeapYear(y)
  {
    if m == 1 then (if IsLeapYear(y) then 29 else 28)
    else if m == 3 || m == 5 || m == 8 || m == 10 then 30
    else 31
  }

  predicate Valid(d: Date)
  {
    0 <= d.month < 12 && 1 <= d.day <= DaysInMonth(d.year, d.month)
  }

  // ---------------------------------------------------------------------------
  // Day numbers: consecutive integers for consecutive days, 0 for 1 January of year 0
  // ---------------------------------------------------------------------------

  /** The number of leap years among the years 0 .. y-1 (negative for y < 0). */
  function LeapYearsBefore(y: int): int
  {
    (y + 3) / 4 - (y + 99) / 100 + (y + 399) / 400
  }

  function DaysBeforeYear(y: int): int
  {
    365 * y + LeapYearsBefore(y)
  }

  /** Days in the months before month `m` of year `y`. */
  function DaysBeforeMonth(y: int, m: int): int
    requires 0 <= m <= 12
  {
    var table := [0, 31, 59, 90, 120, 151, 181, 212, 243, 273, 304, 334, 365];
    table[m] + (if m >= 2 && IsLeapYear(y) then 1 else 0)
  }

  function DayNumber(d: Date): int
    requires 0 <= d.month < 12
  {
    DaysBeforeYear(d.year) + DaysBeforeMonth(d.year, d.month) + d.day - 1
  }

  /** `getDay()`: 1 January of year 0 was a Saturday. */
  function Weekday(d: Date): (r: int)
    requires 0 <= d.month < 12
    ensures 0 <= r < 7
  {
    (DayNumber(d) + 6) % 7
  }

  /** The anchor of `getDay()`: 1 January 1970 was a Thursday, 1 January 2000
      a Saturday. */
  lemma WeekdayAnchors()
    ensures Weekday(Date(1970, 0, 1)) == 4
    ensures Weekday(Date(2000, 0, 1)) == 6
  {
  }

  /** Stepping past a multiple of `n` adds one to the quotient. */
  lemma DivStep(y: int, n: int)
    requires n == 4 || n == 100 || n == 400
    ensures (y + n) / n - (y + n - 1) / n == if y % n == 0 then 1 else 0
  {
    if n == 4 {
      assert (y + 4) / 4 - (y + 3) / 4 == if y % 4 == 0 then 1 else 0;
    } else if n == 100 {
      assert (y + 100) / 100 - (y + 99) / 100 == if y % 100 == 0 then 1 else 0;
    } else {
      assert (y + 400) / 400 - (y + 399) / 400 == if y % 400 == 0 then 1 else 0;
    }
  }

  lemma LeapMultiples(y: int)
    ensures y % 400 == 0 ==> y % 100 == 0
    ensures y % 100 == 0 ==> y % 4 == 0
  {
    if y % 400 == 0 {
      var k := y / 400;
      assert y == 400 * k;
      MultipleMod(y, 4 * k, 100);
    }
    if y % 100 == 0 {
      var k := y / 100;
      assert y == 100 * k;
      MultipleMod(y, 25 * k, 4);
    }
  }

  lemma MultipleMod(y: int, k: int, n: int)
    requires n == 4 || n == 100
    requires y == n * k
    ensures y % n == 0
  {
    if n == 4 {
      assert y % 4 == (4 * k) % 4;
    } else {
      assert y % 100 == (100 * k) % 100;
    }
  }

  /** A year has 366 days exactly when it is a leap year. */
  lemma YearLength(y: int)
    ensures DaysBeforeYear(y + 1) - DaysBeforeYear(y) == if IsLeapYear(y) then 366 else 365
  {
    DivStep(y, 4);
    DivStep(y, 100);
    DivStep(y, 400);
    LeapMultiples(y);
    assert LeapYearsBefore(y + 1) - LeapYearsBefore(y) ==
      (if y % 4 == 0 then 1 else 0) - (if y % 100 == 0 then 1 else 0) + (if y % 400 == 0 then 1 else 0);
  }

  lemma MonthLength(y: int, m: int)
    requires 0 <= m < 12
    ensures DaysBeforeMonth(y, m + 1) == DaysBeforeMonth(y, m) + DaysInMonth(y, m)
  {
  }

  // ---------------------------------------------------------------------------
  // Stepping by days
  // ---------------------------------------------------------------------------

  function NextDay(d: Date): (r: Date)
    requires Valid(d)
    ensures Valid(r) && DayNumber(r) == DayNumber(d) + 1
  {
    if d.day < DaysInMonth(d.year, d.month) then d.(day := d.day + 1)
    else if d.month < 11 then
      MonthLength(d.year, d.month);
      Date(d.year, d.month + 1, 1)
    else
      YearLength(d.year);
      Date(d.year + 1, 0, 1)
  }

  function PrevDay(d: Date): (r: Date)
    requires Valid(d)
    ensures Valid(r) && DayNumber(r) == DayNumber(d) - 1
  {
    if d.day > 1 then d.(day := d.day - 1)
    else if d.month > 0 then
      MonthLength(d.year, d.month - 1);
      Date(d.year, d.month - 1, DaysInMonth(d.year, d.month - 1))
    else
      YearLength(d.year - 1);
      Date(d.year - 1, 11, 31)
  }

  /** The date `k` days after `d` (before it when `k` is negative), as
      `setDate(getDate() + k)` normalises it. */
  function AddDays(d: Date, k: int): (r: Date)
    requires Valid(d)
    ensures Valid(r) && DayNumber(r) == DayNumber(d) + k
    decreases if k < 0 then -k else k
  {
    if k == 0 then d
    else if k > 0 then AddDays(NextDay(d), k - 1)
    else AddDays(PrevDay(d), k + 1)
  }

  /** Weekdays advance with the day number. */
  lemma WeekdayAfter(a: Date, b: Date, k: int)
    requires 0 <= a.month < 12 && 0 <= b.month < 12
    requires DayNumber(b) == DayNumber(a) + k
    ensures Weekday(b) == (Weekday(a) + k) % 7
  {
    var n := DayNumber(a);
    var x := (n + 6) % 7 + k;
    var q := (n + 6) / 7;
    assert n + k + 6 == x + 7 * q;
    ModShift(x, q);
  }

  /** One day more than `k` days away is the day after the date `k` days away. */
  lemma AddDaysNext(d: Date, k: int)
    requires Valid(d)
    ensures AddDays(d, k + 1) == NextDay(AddDays(d, k))
  {
    DayNumberInjective(AddDays(d, k + 1), NextDay(AddDays(d, k)));
  }

  lemma AddDaysWeekday(d: Date, k: int)
    requires Valid(d)
    ensures Weekday(AddDays(d, k)) == (Weekday(d) + k) % 7
  {
    WeekdayAfter(d, AddDays(d, k), k);
  }

  lemma ModShift(x: int, q: int)
    ensures (x + 7 * q) % 7 == x % 7
  {
    var r := x % 7;
    assert x + 7 * q == 7 * (x / 7 + q) + r;
  }

  /** Day numbers grow with the year... */
  lemma DayNumberOrdersYears(a: Date, b: Date)
    requires Valid(a) && Valid(b) && a.year < b.year
    ensures DayNumber(a) < DayNumber(b)
  {
    YearBounds(a);
    YearBounds(b);
    YearsApart(a.year + 1, b.year);
  }

  /** ... and, within a year, with the month. */
  lemma DayNumberOrdersMonths(a: Date, b: Date)
    requires Valid(a) && Valid(b) && a.year == b.year && a.month < b.month
    ensures DayNumber(a) < DayNumber(b)
  {
    MonthLength(a.year, a.month);
    MonthsApart(a.year, a.month + 1, b.month);
  }

  /** Two valid dates with the same day number are the same date. */
  lemma DayNumberInjective(a: Date, b: Date)
    requires Valid(a) && Valid(b) && DayNumber(a) == DayNumber(b)
    ensures a == b
  {
    if a.year < b.year {
      DayNumberOrdersYears(a, b);
    } else if b.year < a.year {
      DayNumberOrdersYears(b, a);
    } else if a.month < b.month {
      DayNumberOrdersMonths(a, b);
    } else if b.month < a.month {
      DayNumberOrdersMonths(b, a);
    }
  }

  lemma YearBounds(d: Date)
    requires Valid(d)
    ensures DaysBeforeYear(d.year) <= DayNumber(d) < DaysBeforeYear(d.year + 1)
  {
    MonthLength(d.year, d.month);
    MonthsApart(d.year, d.month + 1, 12);
    YearLength(d.year);
  }

  lemma {:induction false} YearsApart(y: int, z: int)
    requires y <= z
    ensures DaysBeforeYear(y) <= DaysBeforeYear(z)
    decreases z - y
  {
    if y < z {
      YearLength(y);
      YearsApart(y + 1, z);
    }
  }

  lemma MonthsApart(y: int, m: int, n: int)
    requires 0 <= m <= n <= 12
    ensures DaysBeforeMonth(y, m) <= DaysBeforeMonth(y, n)
  {
  }

  // ---------------------------------------------------------------------------
  // The `Date` constructor's normalisation
  // ---------------------------------------------------------------------------

  /** `new Date(year, month, 1)`: the month index may run outside 0..11 and
      carries into the year. */
  function FirstOfMonth(year: int, month: int): (r: Date)
    ensures Valid(r) && r.day == 1
    ensures 12 * r.year + r.month == 12 * year + month
  {
    Date(year + month / 12, month % 12, 1)
  }

  /** `new Date(year, month, day)` with any month index and any day, the day
      overflowing into the neighbouring months as JavaScript does. */
  function MakeDate(year: int, month: int, day: int): (r: Date)
    ensures Valid(r)
  {
    AddDays(FirstOfMonth(year, month), day - 1)
  }

  /** Within 0..11 the month index needs no normalising. */
  lemma FirstOfMonthInRange(y: int, m: int)
    requires 0 <= m < 12
    ensures FirstOfMonth(y, m) == Date(y, m, 1)
  {
    assert m / 12 == 0 && m % 12 == m;
  }

  /** `new Date(y, m, d)` with a day inside month `m` is simply that date. */
  lemma MakeDateInMonth(y: int, m: int, d: int)
    requires 0 <= m < 12 && 1 <= d <= DaysInMonth(y, m)
    ensures MakeDate(y, m, d) == Date(y, m, d)
  {
    FirstOfMonthInRange(y, m);
    var first := Date(y, m, 1);
    assert DayNumber(MakeDate(y, m, d)) == DayNumber(first) + d - 1;
    assert DayNumber(Date(y, m, d)) == DayNumber(first) + d - 1;
    DayNumberInjective(MakeDate(y, m, d), Date(y, m, d));
  }

  /** The first of the next month lies `DaysInMonth` days after the first of this one. */
  lemma NextMonthFirstDay(y: int, m: int)
    requires 0 <= m < 12
    ensures DayNumber(FirstOfMonth(y, m + 1)) == DayNumber(Date(y, m, 1)) + DaysInMonth(y, m)
  {
    MonthLength(y, m);
    if m < 11 {
      FirstOfMonthInRange(y, m + 1);
    } else {
      assert FirstOfMonth(y, 12) == Date(y + 1, 0, 1) by {
        assert 12 / 12 == 1 && 12 % 12 == 0;
      }
      YearLength(y);
    }
  }

  /** Day 0 of the month after `m` is the last day of month `m`:
      `new Date(y, m + 1, 0).getDate()` is the length of month `m`. */
  lemma LastDayOfMonth(y: int, m: int)
    requires 0 <= m < 12
    ensures MakeDate(y, m + 1, 0) == Date(y, m, DaysInMonth(y, m))
  {
    NextMonthFirstDay(y, m);
    var last := Date(y, m, DaysInMonth(y, m));
    assert DayNumber(MakeDate(y, m + 1, 0)) == DayNumber(FirstOfMonth(y, m + 1)) - 1;
    assert DayNumber(last) == DayNumber(Date(y, m, 1)) + DaysInMonth(y, m) - 1;
    DayNumberInjective(MakeDate(y, m + 1, 0), last);
  }

  /** `new Date(y, m, 0).getDate()` is the length of the month before `m`, in
      the previous year when `m` is January. */
  lemma LastDayOfPreviousMonth(y: int, m: int)
    requires 0 <= m < 12
    ensures var p := FirstOfMonth(y, m - 1);
            MakeDate(y, m, 0) == Date(p.year, p.month, DaysInMonth(p.year, p.month))
  {
    var p := FirstOfMonth(y, m - 1);
    if m == 0 {
      assert p == Date(y - 1, 11, 1) by {
        assert (m - 1) / 12 == -1 && (m - 1) % 12 == 11;
      }
      FirstOfMonthInRange(y, 0);
      assert FirstOfMonth(y - 1, 12) == Date(y, 0, 1) by {
        assert 12 / 12 == 1 && 12 % 12 == 0;
      }
    } else {
      FirstOfMonthInRange(y, m - 1);
      FirstOfMonthInRange(y, m);
    }
    assert FirstOfMonth(p.year, p.month + 1) == FirstOfMonth(y, m);
    LastDayOfMonth(p.year, p.month);
  }


  // ---------------------------------------------------------------------------
  // `toISOString().split('T')[0]`
  // ---------------------------------------------------------------------------

  /** Four digits for years 0..9999, otherwise a sign and six digits. */
  function YearText(y: int): string
  {
    if 0 <= y <= 9999 then ZeroPad(y, 4)
    else if y > 9999 then "+" + ZeroPad(y, 6)
    else "-" + ZeroPad(-y, 6)
  }

  /** "YYYY-MM-DD" with a one-based month. */
  function IsoDate(d: Date): (r: string)
    requires Valid(d)
    ensures |r| >= 10 && r[|r| - 3] == '-' && r != ""
  {
    YearText(d.year) + "-" + ZeroPad(d.month + 1, 2) + "-" + ZeroPad(d.day, 2)
  }

  /** Distinct years are written differently: the first character tells the
      unsigned, the `+` and the `-` forms apart, and the digits read back. */
  lemma YearTextInjective(y1: int, y2: int)
    requires YearText(y1) == YearText(y2)
    ensures y1 == y2
  {
    var t := YearText(y1);
    if 0 <= y1 <= 9999 {
      assert IsDigit(t[0]);
    }
    if 0 <= y2 <= 9999 {
      assert IsDigit(t[0]);
    }
    if 0 <= y1 <= 9999 {
      ZeroPadRoundTrip(y1, 4);
      ZeroPadRoundTrip(y2, 4);
    } else if y1 > 9999 {
      assert t[1..] == ZeroPad(y1, 6) == ZeroPad(y2, 6);
      ZeroPadRoundTrip(y1, 6);
      ZeroPadRoundTrip(y2, 6);
    } else {
      assert t[1..] == ZeroPad(-y1, 6) == ZeroPad(-y2, 6);
      ZeroPadRoundTrip(-y1, 6);
      ZeroPadRoundTrip(-y2, 6);
    }
  }

  /** The date string is the year text followed by "-MM-DD". Its last two
      characters spell the day of the month, the two before the last dash
      spell the one-based month, and for the years 0..9999 the first four
      spell the year. */
  lemma IsoDateFields(d: Date)
    requires Valid(d)
    ensures |IsoDate(d)| == |YearText(d.year)| + 6
    ensures IsoDate(d)[..|IsoDate(d)| - 6] == YearText(d.year)
    ensures 0 <= d.year <= 9999 ==> |IsoDate(d)| == 10
    ensures 0 <= d.year <= 9999 ==> forall i :: 0 <= i < 4 ==> IsDigit(IsoDate(d)[i])
    ensures 0 <= d.year <= 9999 ==> DecimalValue(IsoDate(d)[..4]) == d.year
    ensures var s := IsoDate(d);
            forall i :: |s| - 2 <= i < |s| ==> IsDigit(s[i])
    ensures var s := IsoDate(d);
            forall i :: |s| - 5 <= i < |s| - 3 ==> IsDigit(s[i])
    ensures DecimalValue(IsoDate(d)[|IsoDate(d)| - 2..]) == d.day
    ensures DecimalValue(IsoDate(d)[|IsoDate(d)| - 5..|IsoDate(d)| - 3]) == d.month + 1
  {
    var s := IsoDate(d);
    var dd := ZeroPad(d.day, 2);
    var mm := ZeroPad(d.month + 1, 2);
    assert |Digits(d.day)| <= 2;
    assert |Digits(d.month + 1)| <= 2;
    assert s[|s| - 2..] == dd;
    assert s[|s| - 5..|s| - 3] == mm;
    assert s[..|s| - 6] == YearText(d.year);
    ZeroPadRoundTrip(d.day, 2);
    ZeroPadRoundTrip(d.month + 1, 2);
    if 0 <= d.year <= 9999 {
      DigitsFit(d.year, 4);
      ZeroPadRoundTrip(d.year, 4);
    }
  }

  /** Dates in the same year and month have the same string only when they are the same day. */
  lemma IsoDateDistinctDays(a: Date, b: Date)
    requires Valid(a) && Valid(b) && a.year == b.year && a.month == b.month && a.day != b.day
    ensures IsoDate(a) != IsoDate(b)
  {
    IsoDateFields(a);
    IsoDateFields(b);
  }

  /** Different valid dates have different strings, so comparing date strings
      compares dates. */
  lemma IsoDateInjective(a: Date, b: Date)
    requires Valid(a) && Valid(b) && IsoDate(a) == IsoDate(b)
    ensures a == b
  {
    IsoDateFields(a);
    IsoDateFields(b);
    YearTextInjective(a.year, b.year);
  }

  // ---------------------------------------------------------------------------
  // `toLocaleDateString('en-US', { weekday: 'short' })`
  // ---------------------------------------------------------------------------

  /** The English abbreviation of weekday `w`, 0 being Sunday. */
  function WeekdayShortName(w: int): (r: string)
    requires 0 <= w < 7
    ensures |r| == 3
  {
    ["Sun", "Mon", "Tue", "Wed", "Thu", "Fri", "Sat"][w]
  }

  /** No two weekdays share a name, and the anchor days are named as they should be. */
  lemma WeekdayNames(v: int, w: int)
    requires 0 <= v < 7 && 0 <= w < 7 && v != w
    ensures WeekdayShortName(v) != WeekdayShortName(w)
    ensures WeekdayShortName(Weekday(Date(1970, 0, 1))) == "Thu"
    ensures WeekdayShortName(Weekday(Date(2000, 0, 1))) == "Sat"
  {
    WeekdayAnchors();
  }
}
