/** The closed-form day number of timezoneJS against a plain count of days, month by month. */
module JulianDay {
  predicate IsLeap(y: int) {
    (y % 4 == 0 && y % 100 != 0) || y % 400 == 0
  }

  /** Months are counted from January of the year 0: number 12 * y + m, with m from 0 to 11. */
  function DaysIn(k: int): nat {
    var y, m := k / 12, k % 12;
    if m == 1 then (if IsLeap(y) then 29 else 28)
    else if m == 3 || m == 5 || m == 8 || m == 10 then 30
    else 31
  }

  const EPOCH := 12 * 1970

  /** The day number of the day before the first of month `k`: counted forward or backward, one month
      at a time, from the first of January 1970, whose Julian day number is 2440588. */
  function DayBefore(k: int): int
    decreases if k < EPOCH then EPOCH - k else k - EPOCH
  {
    if k == EPOCH then 2440587
    else if k > EPOCH then DayBefore(k - 1) + DaysIn(k - 1)
    else DayBefore(k + 1) - DaysIn(k)
  }

  /** The closed form: years of 365.25 days, months of 30.6001 days, and a correction for centuries. January
      and February are months 13 and 14 of the year before. Exact fractions stand for the constants. */
  function Closed(y: int, m: int, d: int): int {
    var a := y / 100;
    var b := 2 - a + a / 4;
    (1461 * (y + 4716)) / 4 + (306001 * (m + 1)) / 10000 + d + b - 1524
  }

  /** The formula for the month with number `k`. */
  function ClosedMonth(k: int): int {
    var y, m := k / 12, k % 12 + 1;
    if m <= 2 then Closed(y - 1, m + 12, 0) else Closed(y, m, 0)
  }

  lemma Quarter(q: int, s: int)
    requires 0 <= s < 4
    ensures (1461 * (4 * q + s)) / 4 ==
            1461 * q + (if s == 0 then 0 else if s == 1 then 365 else if s == 2 then 730 else 1095)
  {
    assert 1461 * (4 * q + s) == 4 * (1461 * q) + 1461 * s;
  }

  lemma FourYearTerm(y: int)
    ensures (1461 * (y + 4716)) / 4 - (1461 * (y - 1 + 4716)) / 4 == if y % 4 == 0 then 366 else 365
  {
    var q, s := (y + 4716) / 4, y % 4;
    assert y + 4716 == 4 * q + s;
    Quarter(q, s);
    if s == 0 {
      Quarter(q - 1, 3);
    } else {
      Quarter(q, s - 1);
    }
  }

  lemma CenturyTerm(y: int)
    ensures var a, a' := y / 100, (y - 1) / 100;
            (a / 4 - a) - (a' / 4 - a') == if y % 100 == 0 && y % 400 != 0 then -1 else 0
  {
    var c, r := y / 100, y % 100;
    assert y == 100 * c + r;
    if r == 0 {
      assert (y - 1) / 100 == c - 1;
      var q, s := c / 4, c % 4;
      assert y == 400 * q + 100 * s;
      assert y % 400 == 100 * s;
    } else {
      assert (y - 1) / 100 == c;
    }
  }

  /** The leap day of year `y` is what the year terms gain from year `y - 1` to year `y`. */
  lemma YearTerms(y: int)
    ensures Closed(y, 3, 0) - Closed(y - 1, 3, 0) == if IsLeap(y) then 366 else 365
  {
    FourYearTerm(y);
    CenturyTerm(y);
    assert y % 400 == 0 ==> y % 4 == 0 && y % 100 == 0;
    assert y % 100 == 0 ==> y % 4 == 0;
  }

  lemma Split12(k: int, y: int, m: int)
    requires k == 12 * y + m && 0 <= m < 12
    ensures k / 12 == y && k % 12 == m
  {
  }

  /** From March to January the month term gains the length of the month. */
  lemma MonthTerm(y: int, m: int)
    requires 3 <= m < 14
    ensures Closed(y, m + 1, 0) == Closed(y, m, 0) + if m == 4 || m == 6 || m == 9 || m == 11 then 30 else 31
  {
    assert (306001 * (m + 2)) / 10000 - (306001 * (m + 1)) / 10000 ==
           if m == 4 || m == 6 || m == 9 || m == 11 then 30 else 31;
  }

  lemma MarchToFebruary(y: int)
    ensures Closed(y, 14, 0) == Closed(y, 3, 0) + 337
  {
  }

  /** Month by month, the formula gains the length of the month. */
  lemma ClosedGains(k: int)
    ensures ClosedMonth(k + 1) == ClosedMonth(k) + DaysIn(k)
  {
    var y, m := k / 12, k % 12;
    if m == 11 {
      Split12(k + 1, y + 1, 0);
      MonthTerm(y, 12);
    } else {
      Split12(k + 1, y, m + 1);
      if m == 1 {
        YearTerms(y);
        MarchToFebruary(y - 1);
      } else if m == 0 {
        MonthTerm(y - 1, 13);
      } else {
        MonthTerm(y, m + 1);
      }
    }
  }

  /** Month `m` of a year that starts in March. */
  lemma Shifted(k: int, y: int, m: int)
    requires k == 12 * y + m - 1 && 3 <= m <= 14
    ensures ClosedMonth(k) == Closed(y, m, 0)
  {
    if m <= 12 {
      Split12(k, y, m - 1);
    } else {
      Split12(k, y + 1, m - 13);
    }
  }

  lemma EpochMonth()
    ensures ClosedMonth(EPOCH) == 2440587
  {
  }

  lemma {:induction false} ClosedIsCount(k: int)
    ensures ClosedMonth(k) == DayBefore(k)
    decreases if k < EPOCH then EPOCH - k else k - EPOCH
  {
    if k > EPOCH {
      ClosedIsCount(k - 1);
      ClosedGains(k - 1);
    } else if k < EPOCH {
      ClosedIsCount(k + 1);
      ClosedGains(k);
    } else {
      EpochMonth();
    }
  }

  // ----- months that are too early

  lemma TwelveMonthsTerm(m: int)
    ensures (306001 * (m + 13)) / 10000 >= (306001 * (m + 1)) / 10000 + 367
  {
  }

  lemma YearEarlier(y: int, m: int)
    ensures Closed(y, m, 0) <= Closed(y, m + 12, 0) - 367
  {
    TwelveMonthsTerm(m);
  }

  lemma SameMonth(y: int, m: int)
    ensures Closed(y, m, 0) - Closed(y - 1, m, 0) <= 366
  {
    YearTerms(y);
  }

  /** Twelve months are no more than 366 days. */
  lemma TwelveMonths(k: int)
    ensures DayBefore(k + 12) <= DayBefore(k) + 366
  {
    var y, m := k / 12, k % 12;
    Split12(k + 12, y + 1, m);
    ClosedIsCount(k);
    ClosedIsCount(k + 12);
    if m < 2 {
      SameMonth(y, m + 13);
    } else {
      SameMonth(y + 1, m + 1);
    }
  }

  /** With a month before March that was not moved to the year before, the formula falls short. */
  lemma {:induction false} TooEarly(y: int, m: int)
    requires m <= 2
    ensures Closed(y, m, 0) < DayBefore(12 * y + m - 1)
    decreases 2 - m
  {
    var k := 12 * y + m - 1;
    YearEarlier(y, m);
    TwelveMonths(k);
    if m + 12 <= 2 {
      TooEarly(y, m + 12);
    } else {
      Shifted(k + 12, y, m + 12);
      ClosedIsCount(k + 12);
    }
  }

  /** `civilToJulianDayNumber`, with the month counted from 0. Months beyond December belong to later
      years and months before January to earlier ones, but the source goes back one year only: the number
      is right exactly from month -10 on, and too small before. */
  method CivilToJulianDayNumber(year: int, month: int, d: int) returns (jDt: int)
    ensures jDt <= DayBefore(12 * year + month) + d
    ensures jDt == DayBefore(12 * year + month) + d <==> month >= -10
  {
    var y, m := year, month + 1;
    if m > 12 {
      var a := m / 12;
      m := m % 12;
      y := y + a;
    }
    if m <= 2 {
      y := y - 1;
      m := m + 12;
    }
    var a := y / 100;
    var b := 2 - a + a / 4;
    jDt := (1461 * (y + 4716)) / 4 + (306001 * (m + 1)) / 10000 + d + b - 1524;
    FormulaIsCount(12 * year + month, y, m);
    assert jDt == Closed(y, m, 0) + d;
  }

  lemma FormulaIsCount(k: int, y: int, m: int)
    requires k == 12 * y + m - 1 && m <= 14
    ensures Closed(y, m, 0) <= DayBefore(k) && (Closed(y, m, 0) == DayBefore(k) <==> m >= 3)
  {
    if m >= 3 {
      Shifted(k, y, m);
      ClosedIsCount(k);
    } else {
      TooEarly(y, m);
    }
  }

  // ----- what the count is good for

  datatype Date = Date(year: int, month: int, day: int)

  predicate IsDate(t: Date) {
    0 <= t.month < 12 && 1 <= t.day <= DaysIn(12 * t.year + t.month)
  }

  function Number(t: Date): int {
    DayBefore(12 * t.year + t.month) + t.day
  }

  function NextDay(t: Date): Date {
    if t.day < DaysIn(12 * t.year + t.month) then t.(day := t.day + 1)
    else if t.month < 11 then Date(t.year, t.month + 1, 1)
    else Date(t.year + 1, 0, 1)
  }

  predicate Earlier(s: Date, t: Date) {
    s.year < t.year || (s.year == t.year && (s.month < t.month || (s.month == t.month && s.day < t.day)))
  }

  lemma NextMonth(k: int)
    ensures DayBefore(k + 1) == DayBefore(k) + DaysIn(k)
  {
  }

  lemma {:induction false} MonthsIncrease(j: int, k: int)
    requires j < k
    ensures DayBefore(j) + DaysIn(j) <= DayBefore(k)
    decreases k - j
  {
    if j + 1 < k {
      MonthsIncrease(j, k - 1);
      NextMonth(k - 1);
    } else {
      NextMonth(j);
    }
  }

  lemma NextDayNumber(s: Date)
    requires IsDate(s)
    ensures IsDate(NextDay(s)) && Number(NextDay(s)) == Number(s) + 1
  {
    NextMonth(12 * s.year + s.month);
  }

  lemma EarlierIsLess(s: Date, t: Date)
    requires IsDate(s) && IsDate(t) && Earlier(s, t)
    ensures Number(s) < Number(t)
  {
    var j, k := 12 * s.year + s.month, 12 * t.year + t.month;
    if j < k {
      MonthsIncrease(j, k);
    }
  }

  /** The next calendar day has the next number, and numbers order dates as the calendar does. */
  lemma CalendarOrder(s: Date, t: Date)
    requires IsDate(s) && IsDate(t)
    ensures IsDate(NextDay(s)) && Number(NextDay(s)) == Number(s) + 1
    ensures Earlier(s, t) <==> Number(s) < Number(t)
    ensures Number(s) == Number(t) ==> s == t
  {
    NextDayNumber(s);
    if Earlier(s, t) {
      EarlierIsLess(s, t);
    } else if Earlier(t, s) {
      EarlierIsLess(t, s);
    }
  }
}
