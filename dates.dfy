/**
 * The calendar arithmetic behind `Date.prototype.toISOString` (section 21.4
 * of ECMA-262): day numbers, the proleptic Gregorian year, month and date,
 * and the ISO-8601 text. `toISOString().split('T')[0]` is DateKey
 * (SplitIsDateKey).
 */
module Dates {
  import opened Strings

  const MsPerDay := 86_400_000
  const MsPerHour := 3_600_000
  const MsPerMinute := 60_000

  /** The largest distance from the epoch, in ms, of a valid Date. */
  const MaxTime := 8_640_000_000_000_000

  /** Epoch milliseconds that denote a valid Date. */
  type Time = t: int | -MaxTime <= t <= MaxTime

  /** Day(t): the day number of an instant (floor division). */
  function Day(t: int): int {
    t / MsPerDay
  }

  function TimeWithinDay(t: int): (ms: int)
    ensures 0 <= ms < MsPerDay && t == Day(t) * MsPerDay + ms
  {
    t % MsPerDay
  }

  predicate IsLeap(y: int) {
    y % 4 == 0 && (y % 100 != 0 || y % 400 == 0)
  }

  function DaysInYear(y: int): int {
    if IsLeap(y) then 366 else 365
  }

  /** DayFromYear(y): the day number of January 1 of year `y`. */
  function DayFromYear(y: int): int {
    365 * (y - 1970) + (y - 1969) / 4 - (y - 1901) / 100 + (y - 1601) / 400
  }

  lemma YearLength(y: int)
    ensures DayFromYear(y + 1) == DayFromYear(y) + DaysInYear(y)
  {
    StepDiv4(y);
    StepDiv100(y);
    StepDiv400(y);
    LeapCount(y);
  }

  /** The leap rule, written as the three corrections DayFromYear makes. */
  lemma LeapCount(y: int)
    ensures DaysInYear(y) == 365 + (if y % 4 == 0 then 1 else 0) - (if y % 100 == 0 then 1 else 0)
      + (if y % 400 == 0 then 1 else 0)
  {
    if y % 400 == 0 {
      var q := y / 400;
      assert y == 100 * (4 * q) && y == 4 * (100 * q);
    } else if y % 100 == 0 {
      var q := y / 100;
      assert y == 4 * (25 * q);
    }
  }

  lemma StepDiv4(y: int)
    ensures (y - 1968) / 4 == (y - 1969) / 4 + (if y % 4 == 0 then 1 else 0)
  {
    var q, r := (y - 1969) / 4, (y - 1969) % 4;
    assert y == 4 * (q + 492) + r + 1;
  }

  lemma StepDiv100(y: int)
    ensures (y - 1900) / 100 == (y - 1901) / 100 + (if y % 100 == 0 then 1 else 0)
  {
    var q, r := (y - 1901) / 100, (y - 1901) % 100;
    assert y == 100 * (q + 19) + r + 1;
  }

  lemma StepDiv400(y: int)
    ensures (y - 1600) / 400 == (y - 1601) / 400 + (if y % 400 == 0 then 1 else 0)
  {
    var q, r := (y - 1601) / 400, (y - 1601) % 400;
    assert y == 400 * (q + 4) + r + 1;
  }

  /** Every 400 years have exactly 146097 days. */
  lemma Period(y: int, n: int)
    ensures DayFromYear(y + 400 * n) == DayFromYear(y) + 146097 * n
  {
    assert (y + 400 * n - 1969) / 4 == (y - 1969) / 4 + 100 * n;
    assert (y + 400 * n - 1901) / 100 == (y - 1901) / 100 + 4 * n;
    assert (y + 400 * n - 1601) / 400 == (y - 1601) / 400 + n;
  }

  lemma {:induction false} DayFromYearMonotone(a: int, b: int)
    requires a < b
    ensures DayFromYear(a) < DayFromYear(b)
    decreases b - a
  {
    YearLength(a);
    if a + 1 < b {
      DayFromYearMonotone(a + 1, b);
    }
  }

  /**
   * Within one 400-year era starting in 1970 + 400 * e, the number of whole
   * years that precede day `rem` of the era.
   */
  function YearsIntoEra(rem: int, k: nat): (r: nat)
    requires 0 <= rem < 146097 && k <= 399 && DayFromYear(1970 + k) <= rem
    ensures k <= r <= 399
    ensures DayFromYear(1970 + r) <= rem < DayFromYear(1971 + r)
    decreases 399 - k
  {
    if k < 399 && DayFromYear(1971 + k) <= rem then YearsIntoEra(rem, k + 1) else k
  }

  /** YearFromTime, on day numbers: the year that contains day `z`. */
  function YearFromDay(z: int): (y: int)
    ensures DayFromYear(y) <= z < DayFromYear(y + 1)
  {
    var era := z / 146097;
    var k := YearsIntoEra(z % 146097, 0);
    var y := 1970 + k + 400 * era;
    EraYear(z, era, k, y);
    y
  }

  lemma EraYear(z: int, era: int, k: int, y: int)
    requires era == z / 146097 && y == 1970 + k + 400 * era
    requires DayFromYear(1970 + k) <= z % 146097 < DayFromYear(1971 + k)
    ensures DayFromYear(y) <= z < DayFromYear(y + 1)
  {
    Period(1970 + k, era);
    Period(1971 + k, era);
    assert 1971 + k + 400 * era == y + 1;
  }

  /** As ECMA-262 defines it: the largest year whose first day is not after `z`. */
  lemma YearFromDayIsLargest(z: int, y: int)
    requires DayFromYear(y) <= z
    ensures y <= YearFromDay(z)
  {
    if y > YearFromDay(z) {
      if y > YearFromDay(z) + 1 {
        DayFromYearMonotone(YearFromDay(z) + 1, y);
      }
    }
  }

  lemma YearUnique(z: int, a: int, b: int)
    requires DayFromYear(a) <= z < DayFromYear(a + 1)
    requires DayFromYear(b) <= z < DayFromYear(b + 1)
    ensures a == b
  {
    if a + 1 < b + 1 && a + 1 != b {
      DayFromYearMonotone(a + 1, b);
    }
    if b + 1 < a + 1 && b + 1 != a {
      DayFromYearMonotone(b + 1, a);
    }
  }

  /** Days of a common year before each month, January to December, and the year's length. */
  const MonthStarts: seq<int> := [0, 31, 59, 90, 120, 151, 181, 212, 243, 273, 304, 334, 365]

  /** Days of the year before month `m` (0 = January), as in MonthFromTime. */
  function MonthStart(m: int, leap: bool): int
    requires 0 <= m <= 12
  {
    MonthStarts[m] + if leap && m >= 2 then 1 else 0
  }

  /** MonthFromTime, on the day within the year. */
  function MonthIndex(dayInYear: int, leap: bool): (m: int)
    requires 0 <= dayInYear < MonthStart(12, leap)
    ensures 0 <= m < 12 && MonthStart(m, leap) <= dayInYear < MonthStart(m + 1, leap)
  {
    var l := if leap then 1 else 0;
    if dayInYear < 31 then 0 else if dayInYear < 59 + l then 1 else if dayInYear < 90 + l then 2
    else if dayInYear < 120 + l then 3 else if dayInYear < 151 + l then 4
    else if dayInYear < 181 + l then 5 else if dayInYear < 212 + l then 6
    else if dayInYear < 243 + l then 7 else if dayInYear < 273 + l then 8
    else if dayInYear < 304 + l then 9 else if dayInYear < 334 + l then 10
    else 11
  }

  /** A calendar date: month 1..12, day of the month from 1. */
  datatype Civil = Civil(year: int, month: int, day: int)

  function DaysInMonth(y: int, m: int): int
    requires 1 <= m <= 12
  {
    MonthStart(m, IsLeap(y)) - MonthStart(m - 1, IsLeap(y))
  }

  predicate ValidCivil(c: Civil) {
    1 <= c.month <= 12 && 1 <= c.day <= DaysInMonth(c.year, c.month)
  }

  /** MakeDay: the day number of a calendar date. */
  function DaysFromCivil(c: Civil): int
    requires 1 <= c.month <= 12
  {
    DayFromYear(c.year) + MonthStart(c.month - 1, IsLeap(c.year)) + c.day - 1
  }

  /** The proleptic Gregorian date of day `z`; DaysFromCivil undoes it. */
  function CivilFromDay(z: int): (c: Civil)
    ensures ValidCivil(c)
    ensures DaysFromCivil(c) == z
  {
    var y := YearFromDay(z);
    var dayInYear := z - DayFromYear(y);
    DayInYear(z, y);
    var m := MonthIndex(dayInYear, IsLeap(y));
    Civil(y, m + 1, dayInYear - MonthStart(m, IsLeap(y)) + 1)
  }

  /** A day of year `y` is one of the year's `MonthStart(12, _)` days. */
  lemma DayInYear(z: int, y: int)
    requires DayFromYear(y) <= z < DayFromYear(y + 1)
    ensures 0 <= z - DayFromYear(y) < MonthStart(12, IsLeap(y))
  {
    YearLength(y);
  }

  /** The other round trip: every valid calendar date is the date of its own day number. */
  lemma CivilRoundTrip(c: Civil)
    requires ValidCivil(c)
    ensures CivilFromDay(DaysFromCivil(c)) == c
  {
    var z := DaysFromCivil(c);
    assert YearFromDay(z) == c.year by {
      WithinYear(c);
      YearUnique(z, c.year, YearFromDay(z));
    }
    MonthOfCivil(c);
    CivilFromParts(z, c);
  }

  lemma MonthOfCivil(c: Civil)
    requires ValidCivil(c)
    ensures MonthIndex(MonthStart(c.month - 1, IsLeap(c.year)) + c.day - 1, IsLeap(c.year)) == c.month - 1
  {
    MonthIndexUnique(MonthStart(c.month - 1, IsLeap(c.year)) + c.day - 1, IsLeap(c.year), c.month - 1);
  }

  lemma CivilFromParts(z: int, c: Civil)
    requires ValidCivil(c) && YearFromDay(z) == c.year
    requires z - DayFromYear(c.year) == MonthStart(c.month - 1, IsLeap(c.year)) + c.day - 1
    requires MonthIndex(z - DayFromYear(c.year), IsLeap(c.year)) == c.month - 1
    ensures CivilFromDay(z) == c
  {
  }

  /** The month whose span holds a day of the year is the month MonthIndex finds. */
  lemma MonthIndexUnique(d: int, leap: bool, m: int)
    requires 0 <= m < 12 && MonthStart(m, leap) <= d < MonthStart(m + 1, leap)
    ensures MonthIndex(d, leap) == m
  {
    MonthStartMonotone(m + 1, 12, leap);
    var k := MonthIndex(d, leap);
    if k < m {
      MonthStartMonotone(k + 1, m, leap);
    } else if m < k {
      MonthStartMonotone(m + 1, k, leap);
    }
  }

  /** Lexicographic order of (year, month, day). */
  predicate CivilBefore(a: Civil, b: Civil) {
    a.year < b.year
    || (a.year == b.year && a.month < b.month)
    || (a.year == b.year && a.month == b.month && a.day < b.day)
  }

  lemma DaysFromCivilMonotone(a: Civil, b: Civil)
    requires ValidCivil(a) && ValidCivil(b) && CivilBefore(a, b)
    ensures DaysFromCivil(a) < DaysFromCivil(b)
  {
    if a.year < b.year {
      YearsBefore(a, b);
    } else {
      SameYearOrder(a, b);
    }
  }

  lemma YearsBefore(a: Civil, b: Civil)
    requires ValidCivil(a) && ValidCivil(b) && a.year < b.year
    ensures DaysFromCivil(a) < DaysFromCivil(b)
  {
    WithinYear(a);
    WithinYear(b);
    if a.year + 1 < b.year {
      DayFromYearMonotone(a.year + 1, b.year);
    }
  }

  /** Within one year, a date before another lies fewer days into the year. */
  lemma SameYearOrder(a: Civil, b: Civil)
    requires ValidCivil(a) && ValidCivil(b) && a.year == b.year && CivilBefore(a, b)
    ensures MonthStart(a.month - 1, IsLeap(a.year)) + a.day < MonthStart(b.month - 1, IsLeap(b.year)) + b.day
  {
    if a.month < b.month {
      MonthStartMonotone(a.month, b.month - 1, IsLeap(a.year));
    }
  }

  /** A valid date's day number lies within its year. */
  lemma WithinYear(c: Civil)
    requires ValidCivil(c)
    ensures DayFromYear(c.year) <= DaysFromCivil(c) < DayFromYear(c.year + 1)
  {
    YearLength(c.year);
    MonthStartMonotone(c.month, 12, IsLeap(c.year));
  }

  lemma MonthStartMonotone(m1: int, m2: int, leap: bool)
    requires 0 <= m1 <= m2 <= 12
    ensures MonthStart(m1, leap) <= MonthStart(m2, leap)
  {
  }

  /** Valid calendar dates are ordered as their day numbers are. */
  lemma CivilOrder(c1: Civil, c2: Civil)
    requires ValidCivil(c1) && ValidCivil(c2)
    ensures DaysFromCivil(c1) < DaysFromCivil(c2) <==> CivilBefore(c1, c2)
    ensures DaysFromCivil(c1) == DaysFromCivil(c2) <==> c1 == c2
  {
    if CivilBefore(c1, c2) {
      DaysFromCivilMonotone(c1, c2);
    }
    if CivilBefore(c2, c1) {
      DaysFromCivilMonotone(c2, c1);
    }
  }

  /** Day numbers and calendar dates are ordered alike. */
  lemma DayOrder(z1: int, z2: int)
    ensures z1 < z2 <==> CivilBefore(CivilFromDay(z1), CivilFromDay(z2))
    ensures z1 == z2 <==> CivilFromDay(z1) == CivilFromDay(z2)
  {
    CivilOrder(CivilFromDay(z1), CivilFromDay(z2));
  }

  /** Characters that can occur in the date part of an ISO string. */
  predicate DateChars(s: string) {
    forall i :: 0 <= i < |s| ==> IsDigit(s[i]) || s[i] == '-' || s[i] == '+'
  }

  /** The year field of toISOString: four digits, or a sign and six digits. */
  function YearText(y: int): (s: string)
    ensures DateChars(s)
  {
    if 0 <= y <= 9999 then Pad(y, 4)
    else (if y < 0 then "-" else "+") + Pad(if y < 0 then -y else y, 6)
  }

  /** YYYY-MM-DD (or the expanded year form). */
  function DateText(c: Civil): (s: string)
    requires ValidCivil(c)
    ensures DateChars(s)
  {
    YearText(c.year) + "-" + Pad(c.month, 2) + "-" + Pad(c.day, 2)
  }

  /** HH:mm:ss.sss of a time within the day. */
  function TimeText(ms: int): string
    requires 0 <= ms < MsPerDay
  {
    Pad(ms / MsPerHour, 2) + ":" + Pad(ms / MsPerMinute % 60, 2) + ":"
      + Pad(ms / 1000 % 60, 2) + "." + Pad(ms % 1000, 3)
  }

  /** `new Date(t).toISOString()`: YYYY-MM-DDTHH:mm:ss.sssZ. */
  function IsoString(t: Time): string {
    DateText(CivilFromDay(Day(t))) + "T" + (TimeText(TimeWithinDay(t)) + "Z")
  }

  /** `s.split('T')[0]`: everything before the first 'T'. */
  function BeforeFirstT(s: string): (r: string)
    ensures 'T' !in r
  {
    if |s| == 0 || s[0] == 'T' then [] else [s[0]] + BeforeFirstT(s[1..])
  }

  lemma {:induction false} BeforeFirstTOf(x: string, rest: string)
    requires 'T' !in x
    ensures BeforeFirstT(x + "T" + rest) == x
  {
    if |x| > 0 {
      assert (x + "T" + rest)[1..] == x[1..] + "T" + rest;
      BeforeFirstTOf(x[1..], rest);
      assert x == [x[0]] + x[1..];
    } else {
      assert x + "T" + rest == "T" + rest;
    }
  }

  /** The UTC date of `t` as toISOString writes it: YYYY-MM-DD. */
  function DateKey(t: Time): string {
    DateText(CivilFromDay(Day(t)))
  }

  /** `new Date(t).toISOString().split('T')[0]` is the date key. */
  lemma SplitIsDateKey(t: Time)
    ensures BeforeFirstT(IsoString(t)) == DateKey(t)
  {
    var d := DateText(CivilFromDay(Day(t)));
    assert forall i :: 0 <= i < |d| ==> d[i] != 'T';
    BeforeFirstTOf(d, TimeText(TimeWithinDay(t)) + "Z");
  }

  /** The date key is the ISO string up to its 'T'. */
  lemma DateKeyPrefix(t: Time)
    ensures |DateKey(t)| < |IsoString(t)|
    ensures IsoString(t)[..|DateKey(t)|] == DateKey(t) && IsoString(t)[|DateKey(t)|] == 'T'
  {
    SplitAtT(DateKey(t), TimeText(TimeWithinDay(t)) + "Z", IsoString(t));
  }

  lemma SplitAtT(d: string, rest: string, s: string)
    requires s == d + "T" + rest
    ensures |d| < |s| && s[..|d|] == d && s[|d|] == 'T'
  {
  }

  predicate FourDigitYear(t: Time) {
    0 <= CivilFromDay(Day(t)).year <= 9999
  }

  /** Two fields joined by a dash, the first of a fixed width, compare field by field. */
  lemma DashOrder(a1: string, b1: string, a2: string, b2: string)
    requires |a1| == |a2|
    ensures Below(a1 + "-" + b1, a2 + "-" + b2) <==> Below(a1, a2) || (a1 == a2 && Below(b1, b2))
    ensures a1 + "-" + b1 == a2 + "-" + b2 <==> a1 == a2 && b1 == b2
  {
    assert a1 + "-" + b1 == a1 + ("-" + b1);
    assert a2 + "-" + b2 == a2 + ("-" + b2);
    BelowConcat(a1, "-" + b1, a2, "-" + b2);
    BelowConcat("-", b1, "-", b2);
    BelowIrreflexive(a1);
    SplitEqual(a1, "-" + b1, a2, "-" + b2);
    SplitEqual("-", b1, "-", b2);
  }

  lemma SplitEqual(x1: string, y1: string, x2: string, y2: string)
    requires |x1| == |x2|
    ensures x1 + y1 == x2 + y2 <==> x1 == x2 && y1 == y2
  {
    if x1 + y1 == x2 + y2 {
      assert (x1 + y1)[..|x1|] == x1 && (x2 + y2)[..|x1|] == x2;
      assert (x1 + y1)[|x1|..] == y1 && (x2 + y2)[|x1|..] == y2;
    }
  }

  /** Dates with four-digit years: the text order is the calendar order. */
  lemma DateTextOrder(c1: Civil, c2: Civil)
    requires ValidCivil(c1) && ValidCivil(c2)
    requires 0 <= c1.year <= 9999 && 0 <= c2.year <= 9999
    ensures Below(DateText(c1), DateText(c2)) <==> CivilBefore(c1, c2)
    ensures DateText(c1) == DateText(c2) <==> c1 == c2
  {
    Pow10Values();
    MonthLength(c1);
    MonthLength(c2);
    PadFieldOrder(c1.year, c2.year, 4, 10000);
    PadFieldOrder(c1.month, c2.month, 2, 100);
    PadFieldOrder(c1.day, c2.day, 2, 100);
    DateTextFields(c1, c2);
  }

  /** Date texts with four-digit years compare field by field. */
  lemma DateTextFields(c1: Civil, c2: Civil)
    requires ValidCivil(c1) && ValidCivil(c2)
    requires 0 <= c1.year <= 9999 && 0 <= c2.year <= 9999
    ensures Below(DateText(c1), DateText(c2)) <==>
      (|| Below(Pad(c1.year, 4), Pad(c2.year, 4))
       || (Pad(c1.year, 4) == Pad(c2.year, 4) && Below(Pad(c1.month, 2), Pad(c2.month, 2)))
       || (Pad(c1.year, 4) == Pad(c2.year, 4) && Pad(c1.month, 2) == Pad(c2.month, 2) && Below(Pad(c1.day, 2), Pad(c2.day, 2))))
    ensures DateText(c1) == DateText(c2) <==>
      (Pad(c1.year, 4) == Pad(c2.year, 4) && Pad(c1.month, 2) == Pad(c2.month, 2) && Pad(c1.day, 2) == Pad(c2.day, 2))
  {
    FieldsOrder(Pad(c1.year, 4), Pad(c1.month, 2), Pad(c1.day, 2), Pad(c2.year, 4), Pad(c2.month, 2), Pad(c2.day, 2));
  }

  lemma Pow10Values()
    ensures Pow10(2) == 100 && Pow10(4) == 10000
  {
  }

  /** No month has more than 31 days. */
  lemma MonthLength(c: Civil)
    requires ValidCivil(c)
    ensures c.day <= 31
  {
  }

  lemma PadFieldOrder(a: nat, b: nat, width: nat, bound: nat)
    requires bound == Pow10(width) && a < bound && b < bound
    ensures Below(Pad(a, width), Pad(b, width)) <==> a < b
    ensures Pad(a, width) == Pad(b, width) <==> a == b
    ensures |Pad(a, width)| == |Pad(b, width)| == width
  {
    PadOrder(a, b, width);
  }

  /** Three dash-separated fields, the first two of fixed widths, compare field by field. */
  lemma FieldsOrder(y1: string, m1: string, d1: string, y2: string, m2: string, d2: string)
    requires |y1| == |y2| && |m1| == |m2|
    ensures Below(y1 + "-" + m1 + "-" + d1, y2 + "-" + m2 + "-" + d2)
      <==> Below(y1, y2) || (y1 == y2 && Below(m1, m2)) || (y1 == y2 && m1 == m2 && Below(d1, d2))
    ensures y1 + "-" + m1 + "-" + d1 == y2 + "-" + m2 + "-" + d2 <==> y1 == y2 && m1 == m2 && d1 == d2
  {
    DashOrder(y1, m1, y2, m2);
    DashOrder(y1 + "-" + m1, d1, y2 + "-" + m2, d2);
  }

  /**
   * For four-digit years the date keys sort as strings exactly as the days
   * sort in time, and two instants share a key exactly when they share a day.
   */
  lemma DateKeyOrder(t1: Time, t2: Time)
    requires FourDigitYear(t1) && FourDigitYear(t2)
    ensures Below(DateKey(t1), DateKey(t2)) <==> Day(t1) < Day(t2)
    ensures DateKey(t1) == DateKey(t2) <==> Day(t1) == Day(t2)
  {
    DayOrder(Day(t1), Day(t2));
    DateTextOrder(CivilFromDay(Day(t1)), CivilFromDay(Day(t2)));
  }

  /** A date key with a four-digit year is ten characters long. */
  lemma DateKeyLength(t: Time)
    requires FourDigitYear(t)
    ensures |DateKey(t)| == 10
  {
  }
}
