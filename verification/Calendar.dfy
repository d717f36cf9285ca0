/** Calendar dates as the audit guard checks and compares them. */
module Calendar {
  import opened DigitStrings

  // ---- the time arithmetic of ECMAScript dates (section 21.4.1 of ECMA-262) ----

  predicate Leap(y: int) { y % 4 == 0 && (y % 100 != 0 || y % 400 == 0) }

  function DayFromYear(y: int): int {
    365 * (y - 1970) + (y - 1969) / 4 - (y - 1901) / 100 + (y - 1601) / 400
  }

  function DaysInYear(y: int): int { if Leap(y) then 366 else 365 }

  /** Days of the year before month m, counted from 0. */
  function MonthStart(m: int, leap: bool): int
    requires 0 <= m <= 12
  {
    var shift := if leap then 1 else 0;
    if m == 0 then 0 else if m == 1 then 31 else if m == 2 then 59 + shift
    else if m == 3 then 90 + shift else if m == 4 then 120 + shift else if m == 5 then 151 + shift
    else if m == 6 then 181 + shift else if m == 7 then 212 + shift else if m == 8 then 243 + shift
    else if m == 9 then 273 + shift else if m == 10 then 304 + shift else if m == 11 then 334 + shift
    else 365 + shift
  }

  function DaysInMonth(y: int, m: int): int
    requires 1 <= m <= 12
  {
    if m == 2 then (if Leap(y) then 29 else 28)
    else if m == 4 || m == 6 || m == 9 || m == 11 then 30
    else 31
  }

  lemma Fourth(y: int)
    ensures (y - 1968) / 4 - (y - 1969) / 4 == if y % 4 == 0 then 1 else 0
  {
  }

  lemma Hundredth(y: int)
    ensures (y - 1900) / 100 - (y - 1901) / 100 == if y % 100 == 0 then 1 else 0
  {
  }

  lemma FourHundredth(y: int)
    ensures (y - 1600) / 400 - (y - 1601) / 400 == if y % 400 == 0 then 1 else 0
  {
  }

  lemma Multiples(k: int)
    ensures 4 * k % 4 == 0 && 100 * k % 100 == 0
  {
  }

  lemma HundredsByFour(y: int)
    requires y % 100 == 0
    ensures y % 4 == 0
  {
    assert y == 4 * (25 * (y / 100));
    Multiples(25 * (y / 100));
  }

  lemma FourHundredsByHundred(y: int)
    requires y % 400 == 0
    ensures y % 100 == 0
  {
    assert y == 100 * (4 * (y / 400));
    Multiples(4 * (y / 400));
  }

  lemma CenturiesLeap(y: int)
    ensures y % 400 == 0 ==> y % 100 == 0
    ensures y % 100 == 0 ==> y % 4 == 0
  {
    if y % 400 == 0 { FourHundredsByHundred(y); }
    if y % 100 == 0 { HundredsByFour(y); }
  }

  lemma YearStep(y: int)
    ensures DayFromYear(y + 1) == DayFromYear(y) + DaysInYear(y)
  {
    Fourth(y);
    Hundredth(y);
    FourHundredth(y);
    CenturiesLeap(y);
  }

  lemma {:induction false} YearsIncrease(y: int, z: int)
    requires y <= z
    ensures DayFromYear(y) + 365 * (z - y) <= DayFromYear(z)
    decreases z - y
  {
    if y < z {
      YearsIncrease(y, z - 1);
      YearStep(z - 1);
    }
  }

  /** The year a day falls in, searched upwards from a year not after it. */
  function YearOf(day: int, from: int): (y: int)
    requires DayFromYear(from) <= day
    ensures DayFromYear(y) <= day < DayFromYear(y + 1)
    decreases day - DayFromYear(from)
  {
    YearStep(from);
    if day < DayFromYear(from + 1) then from else YearOf(day, from + 1)
  }

  lemma YearUnique(day: int, y: int, z: int)
    requires DayFromYear(y) <= day < DayFromYear(y + 1) && DayFromYear(z) <= day < DayFromYear(z + 1)
    ensures y == z
  {
    if z < y { YearsIncrease(z + 1, y); }
    if y < z { YearsIncrease(y + 1, z); }
  }

  lemma YearIs(day: int, from: int, y: int)
    requires DayFromYear(from) <= day && DayFromYear(y) <= day < DayFromYear(y + 1)
    ensures YearOf(day, from) == y
  {
    YearUnique(day, y, YearOf(day, from));
  }

  /** The month, from 0, of a day of the year. */
  function MonthOf(n: int, leap: bool, from: int): (m: int)
    requires 0 <= from < 12 && MonthStart(from, leap) <= n < MonthStart(12, leap)
    ensures from <= m < 12 && MonthStart(m, leap) <= n < MonthStart(m + 1, leap)
    decreases 12 - from
  {
    if n < MonthStart(from + 1, leap) then from else MonthOf(n, leap, from + 1)
  }

  datatype Date = Date(year: int, month: int, day: int)

  function DayNumber(d: Date): int
    requires 1 <= d.month <= 12
  {
    DayFromYear(d.year) + MonthStart(d.month - 1, Leap(d.year)) + d.day - 1
  }

  /** The calendar fields of a day number, months from 1. */
  function FieldsOf(day: int): Date
    requires DayFromYear(0) <= day
  {
    var y := YearOf(day, 0);
    YearStep(y);
    var n := day - DayFromYear(y);
    var m := MonthOf(n, Leap(y), 0);
    Date(y, m + 1, n - MonthStart(m, Leap(y)) + 1)
  }

  predicate Gregorian(d: Date) { 1 <= d.month <= 12 && 1 <= d.day <= DaysInMonth(d.year, d.month) }

  /** `Date.UTC` reads a year of at most two digits as one of the 1900s. */
  function FullYear(y: int): int { if 0 <= y <= 99 then 1900 + y else y }

  // ---- isCalendarDate ----

  predicate DateShape(s: string) {
    && |s| == 10 && s[4] == '-' && s[7] == '-'
    && AllDigits(s[..4]) && AllDigits(s[5..7]) && AllDigits(s[8..])
  }

  function DateOf(s: string): Date
    requires |s| == 10
  {
    Date(Value(s[..4]), Value(s[5..7]), Value(s[8..]))
  }

  /** The written fields, rebuilt as a day and read back, are what was written. */
  predicate IsCalendarDate(s: string) {
    && DateShape(s)
    && var d := DateOf(s);
       && 1 <= d.month <= 12 && 1 <= d.day <= 31
       && SurvivesRebuild(d)
  }

  predicate SurvivesRebuild(d: Date)
    requires d.year >= 0 && 1 <= d.month <= 12 && 1 <= d.day <= 31
  {
    var day := DayNumber(d.(year := FullYear(d.year)));
    YearsIncrease(0, FullYear(d.year));
    FieldsOf(day) == d
  }

  lemma MonthLengths(y: int, m: int)
    requires 1 <= m <= 12
    ensures MonthStart(m, Leap(y)) == MonthStart(m - 1, Leap(y)) + DaysInMonth(y, m)
  {
  }

  /** The day of the year a written date stands for, and the month that day falls in. */
  lemma DayOfYear(d: Date) returns (m: int)
    requires d.year >= 0 && 1 <= d.month <= 12 && 1 <= d.day <= 31
    ensures 0 <= m < 12
    ensures var leap, n := Leap(d.year), MonthStart(d.month - 1, Leap(d.year)) + d.day - 1;
            MonthStart(m, leap) <= n < MonthStart(m + 1, leap) && 0 <= n < DaysInYear(d.year)
    ensures m == d.month - 1 <==> d.day <= DaysInMonth(d.year, d.month)
  {
    MonthLengths(d.year, d.month);
    StartsOrdered(d.month, Leap(d.year));
    m := if d.day <= DaysInMonth(d.year, d.month) then d.month - 1 else d.month;
    if m < 12 { MonthLengths(d.year, m + 1); }
  }

  lemma FieldsAre(day: int, y: int, n: int, m: int)
    requires y >= 0 && day == DayFromYear(y) + n && 0 <= n < DaysInYear(y)
    requires 0 <= m < 12 && MonthStart(m, Leap(y)) <= n < MonthStart(m + 1, Leap(y))
    ensures day >= DayFromYear(0) && FieldsOf(day) == Date(y, m + 1, n - MonthStart(m, Leap(y)) + 1)
  {
    YearsIncrease(0, y);
    YearStep(y);
    YearIs(day, 0, y);
    MonthIs(n, Leap(y), m);
  }

  /** A day within its month is read back unchanged; one past its end falls in another month. */
  lemma FieldsBack(d: Date)
    requires d.year >= 0 && 1 <= d.month <= 12 && 1 <= d.day <= 31
    ensures DayNumber(d) >= DayFromYear(0)
    ensures FieldsOf(DayNumber(d)) == d <==> d.day <= DaysInMonth(d.year, d.month)
    ensures FieldsOf(DayNumber(d)).year == d.year
  {
    var m := DayOfYear(d);
    var n := MonthStart(d.month - 1, Leap(d.year)) + d.day - 1;
    FieldsAre(DayNumber(d), d.year, n, m);
    SameMonthSameDate(d, m, n);
  }

  lemma SameMonthSameDate(d: Date, m: int, n: int)
    requires 1 <= d.month <= 12 && 0 <= m < 12 && n == MonthStart(d.month - 1, Leap(d.year)) + d.day - 1
    ensures Date(d.year, m + 1, n - MonthStart(m, Leap(d.year)) + 1) == d <==> m == d.month - 1
  {
  }

  lemma StartsOrdered(m: int, leap: bool)
    requires 1 <= m <= 12
    ensures 0 <= MonthStart(m - 1, leap) && MonthStart(m, leap) <= MonthStart(12, leap)
    ensures m < 12 ==> MonthStart(m - 1, leap) + 31 <= MonthStart(12, leap) - 28
    ensures MonthStart(m - 1, leap) + 31 <= MonthStart(12, leap)
  {
  }

  lemma MonthIs(n: int, leap: bool, m: int)
    requires 0 <= m < 12 && MonthStart(m, leap) <= n < MonthStart(m + 1, leap)
    ensures 0 <= n < MonthStart(12, leap) && MonthOf(n, leap, 0) == m
  {
    MonthsIncrease(0, m, leap);
    MonthsIncrease(m + 1, 12, leap);
    MonthUnique(n, leap, m, MonthOf(n, leap, 0));
  }

  lemma MonthUnique(n: int, leap: bool, k: int, m: int)
    requires 0 <= k < 12 && MonthStart(k, leap) <= n < MonthStart(k + 1, leap)
    requires 0 <= m < 12 && MonthStart(m, leap) <= n < MonthStart(m + 1, leap)
    ensures k == m
  {
    if k < m { MonthsIncrease(k + 1, m, leap); }
    if m < k { MonthsIncrease(m + 1, k, leap); }
  }

  /** Accepted are exactly the Gregorian dates of the year 100 and later. */
  lemma AcceptsExactly(s: string)
    ensures IsCalendarDate(s) <==> DateShape(s) && Gregorian(DateOf(s)) && DateOf(s).year >= 100
  {
    if DateShape(s) {
      var d := DateOf(s);
      if 1 <= d.month <= 12 && 1 <= d.day <= 31 {
        FieldsBack(d.(year := FullYear(d.year)));
      }
    }
  }

  // ---- comparing dates as strings ----

  /** Strings in the order of their characters. */
  predicate Less(a: string, b: string) {
    if a == [] then b != []
    else b != [] && (a[0] < b[0] || (a[0] == b[0] && Less(a[1..], b[1..])))
  }

  lemma {:induction false} LessParts(a: string, b: string, c: string, d: string)
    requires |a| == |b|
    ensures Less(a + c, b + d) <==> Less(a, b) || (a == b && Less(c, d))
  {
    if a == [] {
      assert a + c == c && b + d == d;
    } else {
      assert (a + c)[1..] == a[1..] + c && (b + d)[1..] == b[1..] + d;
      LessParts(a[1..], b[1..], c, d);
      assert a == [a[0]] + a[1..] && b == [b[0]] + b[1..];
    }
  }

  lemma {:induction false} DigitsOrder(a: string, b: string)
    requires |a| == |b| && AllDigits(a) && AllDigits(b)
    ensures Less(a, b) <==> Value(a) < Value(b)
    ensures Value(a) == Value(b) ==> a == b
    decreases |a|
  {
    if a != [] {
      var k := |a| - 1;
      DigitsOrder(a[..k], b[..k]);
      DigitsOrder(b[..k], a[..k]);
      assert a == a[..k] + [a[k]] && b == b[..k] + [b[k]];
      LastDigitOrder(a[..k], a[k], b[..k], b[k]);
    }
  }

  lemma LastDigitOrder(p: string, c: char, q: string, d: char)
    requires |p| == |q| && AllDigits(p) && AllDigits(q) && IsDigit(c) && IsDigit(d)
    requires Less(p, q) <==> Value(p) < Value(q)
    requires Value(p) == Value(q) ==> p == q
    ensures Less(p + [c], q + [d]) <==> Value(p + [c]) < Value(q + [d])
    ensures Value(p + [c]) == Value(q + [d]) ==> p + [c] == q + [d]
  {
    ValueLast(p, c);
    ValueLast(q, d);
    LessParts(p, q, [c], [d]);
    LessOne(c, d);
    TenTimes(Value(p), Value(q), (c - '0') as int, (d - '0') as int);
  }

  lemma ValueLast(p: string, c: char)
    requires AllDigits(p) && IsDigit(c)
    ensures Value(p + [c]) == Value(p) * 10 + (c - '0') as int
  {
    assert (p + [c])[..|p|] == p;
    ValueSnoc(p + [c]);
  }

  lemma TenTimes(m: nat, n: nat, c: int, d: int)
    requires 0 <= c < 10 && 0 <= d < 10
    ensures m * 10 + c < n * 10 + d <==> m < n || (m == n && c < d)
    ensures m * 10 + c == n * 10 + d <==> m == n && c == d
  {
  }

  lemma LessOne(c: char, d: char)
    ensures Less([c], [d]) <==> c < d
  {
  }

  predicate Earlier(a: Date, b: Date) {
    || a.year < b.year
    || (a.year == b.year && a.month < b.month)
    || (a.year == b.year && a.month == b.month && a.day < b.day)
  }

  lemma ShapeParts(s: string)
    requires DateShape(s)
    ensures s == s[..4] + ("-" + (s[5..7] + ("-" + s[8..])))
  {
  }

  lemma LessAfterDash(a: string, b: string)
    ensures Less("-" + a, "-" + b) <==> Less(a, b)
  {
    LessParts("-", "-", a, b);
    LessOne('-', '-');
  }

  lemma ShapeOrder(s: string, t: string)
    requires DateShape(s) && DateShape(t)
    ensures Less(s, t) <==> Earlier(DateOf(s), DateOf(t))
  {
    ShapeParts(s);
    ShapeParts(t);
    LessParts(s[..4], t[..4], "-" + (s[5..7] + ("-" + s[8..])), "-" + (t[5..7] + ("-" + t[8..])));
    LessAfterDash(s[5..7] + ("-" + s[8..]), t[5..7] + ("-" + t[8..]));
    LessParts(s[5..7], t[5..7], "-" + s[8..], "-" + t[8..]);
    LessAfterDash(s[8..], t[8..]);
    DigitsOrder(s[..4], t[..4]);
    DigitsOrder(s[5..7], t[5..7]);
    DigitsOrder(s[8..], t[8..]);
  }

  /** A day of the year lies within its month, and so within the year. */
  lemma DayInYear(d: Date)
    requires Gregorian(d)
    ensures DayFromYear(d.year) + MonthStart(d.month - 1, Leap(d.year)) <= DayNumber(d)
    ensures DayNumber(d) < DayFromYear(d.year) + MonthStart(d.month, Leap(d.year))
    ensures DayFromYear(d.year) <= DayNumber(d) < DayFromYear(d.year) + DaysInYear(d.year)
  {
    MonthLengths(d.year, d.month);
    StartsOrdered(d.month, Leap(d.year));
  }

  lemma DayOrder(a: Date, b: Date)
    requires Gregorian(a) && Gregorian(b) && Earlier(a, b)
    ensures DayNumber(a) < DayNumber(b)
  {
    if a.year < b.year {
      YearOrder(a, b);
    } else if a.month < b.month {
      MonthOrder(a, b);
    }
  }

  lemma YearOrder(a: Date, b: Date)
    requires Gregorian(a) && Gregorian(b) && a.year < b.year
    ensures DayNumber(a) < DayNumber(b)
  {
    DayInYear(a);
    DayInYear(b);
    YearStep(a.year);
    YearsIncrease(a.year + 1, b.year);
  }

  lemma MonthOrder(a: Date, b: Date)
    requires Gregorian(a) && Gregorian(b) && a.year == b.year && a.month < b.month
    ensures DayNumber(a) < DayNumber(b)
  {
    DayInYear(a);
    DayInYear(b);
    MonthsIncrease(a.month, b.month - 1, Leap(a.year));
  }

  lemma MonthsIncrease(m: int, n: int, leap: bool)
    requires 0 <= m <= n <= 12
    ensures MonthStart(m, leap) <= MonthStart(n, leap)
  {
  }

  /** On accepted dates, string order is the order of days. */
  lemma StringOrderIsDayOrder(s: string, t: string)
    requires IsCalendarDate(s) && IsCalendarDate(t)
    ensures Gregorian(DateOf(s)) && Gregorian(DateOf(t))
    ensures Less(s, t) <==> DayNumber(DateOf(s)) < DayNumber(DateOf(t))
    ensures s == t <==> DayNumber(DateOf(s)) == DayNumber(DateOf(t))
  {
    AcceptsExactly(s);
    AcceptsExactly(t);
    ShapeOrder(s, t);
    var a, b := DateOf(s), DateOf(t);
    if Earlier(a, b) { DayOrder(a, b); }
    if Earlier(b, a) { DayOrder(b, a); }
    if a == b { SameDateSameText(s, t); }
  }

  lemma SameDateSameText(s: string, t: string)
    requires DateShape(s) && DateShape(t) && DateOf(s) == DateOf(t)
    ensures s == t
  {
    ShapeParts(s);
    ShapeParts(t);
    DigitsOrder(s[..4], t[..4]);
    DigitsOrder(s[5..7], t[5..7]);
    DigitsOrder(s[8..], t[8..]);
  }

  lemma TwoDigits(s: string)
    requires |s| == 2 && AllDigits(s)
    ensures Value(s) == (s[0] - '0') as int * 10 + (s[1] - '0') as int
  {
    assert s[..1] == [s[0]] && s[..0] == [];
    ValueSnoc(s);
    ValueSnoc(s[..1]);
    assert s[..1][..0] == [];
    assert Value([]) == 0;
  }

  lemma FourDigits(s: string)
    requires |s| == 4 && AllDigits(s)
    ensures Value(s) == Value(s[..2]) * 100 + (s[2] - '0') as int * 10 + (s[3] - '0') as int
  {
    assert s[..3][..2] == s[..2];
    ValueSnoc(s);
    ValueSnoc(s[..3]);
  }

  lemma Value2026()
    ensures Value("2026") == 2026
  {
    assert "2026"[..2] == "20";
    TwoDigits("20");
    FourDigits("2026");
  }

  lemma PartsAccepted(y: string, m: string, d: string)
    requires |y| == 4 && |m| == 2 && |d| == 2 && AllDigits(y) && AllDigits(m) && AllDigits(d)
    requires Gregorian(Date(Value(y), Value(m), Value(d))) && Value(y) >= 100
    ensures IsCalendarDate(y + "-" + m + "-" + d)
  {
    var s := y + "-" + m + "-" + d;
    assert s[..4] == y && s[5..7] == m && s[8..] == d;
    AcceptsExactly(s);
  }

  function DateText(y: string, m: string, d: string): string { y + "-" + m + "-" + d }

  const LAST_DAY: string := DateText("2026", "12", "31")

  lemma Value12And31()
    ensures Value("12") == 12 && Value("31") == 31
  {
    TwoDigits("12");
    TwoDigits("31");
  }

  lemma PartsGregorian(y: string, m: string, d: string, date: Date)
    requires |y| == 4 && |m| == 2 && |d| == 2 && AllDigits(y) && AllDigits(m) && AllDigits(d)
    requires Value(y) == date.year && Value(m) == date.month && Value(d) == date.day
    requires Gregorian(date) && date.year >= 100
    ensures IsCalendarDate(DateText(y, m, d))
  {
    PartsAccepted(y, m, d);
  }

  lemma TextDigits()
    ensures AllDigits("2026") && AllDigits("12") && AllDigits("31")
  {
  }

  lemma LastDayGregorian()
    ensures Gregorian(Date(2026, 12, 31))
  {
  }

  /** An accepted date. */
  lemma LastDayOf2026()
    ensures IsCalendarDate(LAST_DAY)
  {
    Value2026();
    Value12And31();
    TextDigits();
    LastDayGregorian();
    PartsGregorian("2026", "12", "31", Date(2026, 12, 31));
  }
}
