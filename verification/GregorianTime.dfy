/** mkgmtime against the Gregorian calendar. C integer division truncates toward zero, and month and
    year are 16-bit; time_t is taken to be wide enough. */
module GregorianTime {
  import opened Arithmetic

  datatype Tm = Tm(year: int, mon: int, mday: int, hour: int, min: int, sec: int)

  const M_TO_D: seq<int> := [0, 31, 59, 90, 120, 151, 181, 212, 243, 273, 304, 334]

  /** C's `/`. */
  function Quot(a: int, b: int): int
    requires b > 0
  {
    if a >= 0 then a / b else -((-a) / b)
  }

  /** C's `%`. */
  function Rem(a: int, b: int): int
    requires b > 0
  {
    a - b * Quot(a, b)
  }

  /** Conversion to a 16-bit short. */
  function ToShort(x: int): int { (x + 0x8000) % 0x1_0000 - 0x8000 }

  function DayCount(year: int, month: nat, leapYear: int): int
    requires month < 12
  {
    (year - 1970) * 365 + M_TO_D[month] + Quot(leapYear - 1968, 4) - Quot(leapYear - 1900, 100) + Quot(leapYear - 1600, 400)
  }

  /** `mday`, `hour`, `min` and `sec` count on from the given day, whatever they are. */
  function Clock(days: int, t: Tm): int {
    (((days + t.mday - 1) * 24 + t.hour) * 60 + t.min) * 60 + t.sec
  }

  /** `month` after `month %= 12` and its correction. */
  function NormalMonth(t: Tm): (m: nat)
    ensures m < 12
  {
    var rem := Rem(ToShort(t.mon), 12);
    if rem < 0 then rem + 12 else rem
  }

  /** `year` after the matching correction. */
  function NormalYear(t: Tm): int {
    var year := ToShort(t.year + Quot(ToShort(t.mon), 12) + 1900);
    if Rem(ToShort(t.mon), 12) < 0 then ToShort(year - 1) else year
  }

  function MkGmTime(t: Tm): int {
    var month, year := NormalMonth(t), NormalYear(t);
    Clock(DayCount(year, month, if month <= 1 then ToShort(year - 1) else year), t)
  }

  // ----- the calendar, counted year by year and month by month -----

  predicate Leap(y: int) { y % 4 == 0 && (y % 100 != 0 || y % 400 == 0) }

  function YearLength(y: int): int { if Leap(y) then 366 else 365 }

  function MonthLength(y: int, m: nat): (n: int)
    requires m < 12
  {
    if m == 1 then (if Leap(y) then 29 else 28) else if m == 3 || m == 5 || m == 8 || m == 10 then 30 else 31
  }

  /** Days from 1 January 1970 to 1 January of year `y`. */
  function DaysToYear(y: int): int
    decreases if y >= 1970 then y - 1970 else 1970 - y
  {
    if y == 1970 then 0
    else if y > 1970 then DaysToYear(y - 1) + YearLength(y - 1)
    else DaysToYear(y + 1) - YearLength(y)
  }

  function DaysToMonth(y: int, m: nat): int
    requires m <= 12
  {
    if m == 0 then 0 else DaysToMonth(y, m - 1) + MonthLength(y, m - 1)
  }

  /** The year and month that `t` means: months run over into years. */
  function YearOf(t: Tm): int { t.year + 1900 + t.mon / 12 }

  function MonthOf(t: Tm): (m: nat)
    ensures m < 12
  {
    t.mon % 12
  }

  /** Seconds since the epoch, by the calendar. */
  function TrueTime(t: Tm): int { Clock(DaysToYear(YearOf(t)) + DaysToMonth(YearOf(t), MonthOf(t)), t) }

  /** The last year that is complete when the month begins, as far as leap days go. */
  function LeapYear(t: Tm): int { if MonthOf(t) <= 1 then YearOf(t) - 1 else YearOf(t) }

  predicate InRange(t: Tm) { -0x8000 <= t.mon < 0x8000 && -0x8000 <= LeapYear(t) && YearOf(t) < 0x8000 }

  /** Leap days counted with division rounding down. */
  function LeapDays(y: int): int { (y - 1968) / 4 - (y - 1900) / 100 + (y - 1600) / 400 }

  /** How far truncation is off: one for a negative dividend that does not divide evenly. */
  function Slip(y: int, base: int, n: int): int
    requires n > 0
  {
    if y < base && (y - base) % n != 0 then 1 else 0
  }

  lemma TruncationSlips(y: int, base: int, n: int)
    requires n > 0
    ensures Quot(y - base, n) == (y - base) / n + Slip(y, base, n)
  {
    var a := y - base;
    if a < 0 {
      var q, r := a / n, a % n;
      if r == 0 {
        DivisionIs(-a, n, -q, 0);
      } else {
        assert n * (-q - 1) == -(n * q) - n;
        DivisionIs(-a, n, -q - 1, n - r);
      }
    }
  }

  lemma StepOfDivision(a: int, n: int)
    requires n > 1
    ensures a / n - (a - 1) / n == if a % n == 0 then 1 else 0
  {
    var q, r := a / n, a % n;
    if r == 0 {
      assert n * (q - 1) == n * q - n;
      DivisionIs(a - 1, n, q - 1, n - 1);
    } else {
      DivisionIs(a - 1, n, q, r - 1);
    }
  }

  lemma SameRemainder(y: int, n: int, c: int)
    requires n > 0
    ensures (y - n * c) % n == y % n
  {
    assert n * (y / n - c) == n * (y / n) - n * c;
    DivisionIs(y - n * c, n, y / n - c, y % n);
  }

  lemma CenturiesDivide(y: int)
    ensures y % 100 == 0 ==> y % 4 == 0
    ensures y % 400 == 0 ==> y % 100 == 0
  {
    if y % 100 == 0 {
      DivisionIs(y, 4, 25 * (y / 100), 0);
    }
    if y % 400 == 0 {
      DivisionIs(y, 100, 4 * (y / 400), 0);
    }
  }

  lemma LeapDaysStep(y: int)
    ensures LeapDays(y) - LeapDays(y - 1) == if Leap(y) then 1 else 0
  {
    StepOfDivision(y - 1968, 4);
    StepOfDivision(y - 1900, 100);
    StepOfDivision(y - 1600, 400);
    SameRemainder(y, 4, 492);
    SameRemainder(y, 100, 19);
    SameRemainder(y, 400, 4);
    CenturiesDivide(y);
  }

  lemma {:induction false} DaysToYearClosed(y: int)
    ensures DaysToYear(y) == (y - 1970) * 365 + LeapDays(y - 1)
    decreases if y >= 1970 then y - 1970 else 1970 - y
  {
    if y > 1970 {
      DaysToYearClosed(y - 1);
      LeapDaysStep(y - 1);
    } else if y < 1970 {
      DaysToYearClosed(y + 1);
      LeapDaysStep(y);
    }
  }

  lemma DaysToMonthClosed(y: int, m: nat)
    requires m < 12
    ensures DaysToMonth(y, m) == M_TO_D[m] + if m > 1 && Leap(y) then 1 else 0
  {
    if m > 0 {
      DaysToMonthClosed(y, m - 1);
    }
  }

  /** The years for which the code counts leap days right. From 1969 on it always does. Before that,
      truncation goes the wrong way unless the quotients happen to be exact or to cancel out. */
  predicate CountsRight(y: int) {
    if y >= 1968 then true
    else if y >= 1900 then y % 4 == 0
    else if y >= 1600 then y % 100 == 0 || y % 4 != 0
    else y % 400 == 0 || (y % 4 == 0 && y % 100 != 0)
  }

  lemma SlipsCancel(y: int)
    ensures Slip(y, 1968, 4) - Slip(y, 1900, 100) + Slip(y, 1600, 400) == 0 <==> CountsRight(y)
  {
    SameRemainder(y, 4, 492);
    SameRemainder(y, 100, 19);
    SameRemainder(y, 400, 4);
    CenturiesDivide(y);
  }

  lemma MonthsCarry(m: int)
    ensures Rem(m, 12) + (if Rem(m, 12) < 0 then 12 else 0) == m % 12
    ensures Quot(m, 12) - (if Rem(m, 12) < 0 then 1 else 0) == m / 12
  {
    if m < 0 {
      var q, r := (-m) / 12, (-m) % 12;
      assert m == 12 * (if r == 0 then -q else -q - 1) + (if r == 0 then 0 else 12 - r);
    }
  }

  lemma ShortIsKept(x: int)
    requires -0x8000 <= x < 0x8000
    ensures ToShort(x) == x
  {
  }

  lemma ShortSteps(x: int)
    requires -0x8000 <= x < 0x8000
    ensures ToShort(ToShort(x + 1) - 1) == x
  {
  }

  /** The 16-bit steps of the code normalise month and year as the calendar does. */
  lemma NormalisesMonths(t: Tm)
    requires InRange(t)
    ensures NormalMonth(t) == MonthOf(t) && NormalYear(t) == YearOf(t)
  {
    ShortIsKept(t.mon);
    MonthsCarry(t.mon);
    ShortIsKept(YearOf(t));
    ShortSteps(YearOf(t));
  }

  lemma MkGmTimeClosed(t: Tm)
    requires InRange(t)
    ensures MkGmTime(t) == Clock(DayCount(YearOf(t), MonthOf(t), LeapYear(t)), t)
  {
    NormalisesMonths(t);
    assert ToShort(LeapYear(t)) == LeapYear(t);
  }

  lemma TrueDays(y: int, m: nat)
    requires m < 12
    ensures DaysToYear(y) + DaysToMonth(y, m) == (y - 1970) * 365 + M_TO_D[m] + LeapDays(if m <= 1 then y - 1 else y)
  {
    DaysToYearClosed(y);
    DaysToMonthClosed(y, m);
    LeapDaysStep(y);
  }

  lemma DayCountSlips(year: int, m: nat, y: int)
    requires m < 12
    ensures DayCount(year, m, y) == (year - 1970) * 365 + M_TO_D[m] + LeapDays(y)
                                    + (Slip(y, 1968, 4) - Slip(y, 1900, 100) + Slip(y, 1600, 400))
  {
    TruncationSlips(y, 1968, 4);
    TruncationSlips(y, 1900, 100);
    TruncationSlips(y, 1600, 400);
  }

  /** mkgmtime is the calendar exactly when the years it counts leap days for are counted right. */
  lemma {:induction false} MkGmTimeIsCalendar(t: Tm)
    requires InRange(t)
    ensures MkGmTime(t) == TrueTime(t) <==> CountsRight(LeapYear(t))
  {
    MkGmTimeClosed(t);
    TrueDays(YearOf(t), MonthOf(t));
    DayCountSlips(YearOf(t), MonthOf(t), LeapYear(t));
    SlipsCancel(LeapYear(t));
  }

  /** In particular for every month from January 1969 to the last year a short can hold. */
  lemma {:induction false} RightFrom1969(t: Tm)
    requires -0x8000 <= t.mon < 0x8000 && 1969 <= YearOf(t) < 0x8000
    ensures MkGmTime(t) == TrueTime(t)
  {
    MkGmTimeIsCalendar(t);
  }

  /** New Year's Day of 1968 comes out a day late. */
  lemma {:induction false} WrongBefore1969()
    ensures MkGmTime(Tm(68, 0, 1, 0, 0, 0)) == TrueTime(Tm(68, 0, 1, 0, 0, 0)) + 86400
  {
    MkGmTimeClosed(Tm(68, 0, 1, 0, 0, 0));
    TrueDays(1968, 0);
  }

  // ----- order -----

  predicate ValidDate(t: Tm) {
    && 0 <= t.mon < 12 && 1 <= t.mday <= MonthLength(t.year + 1900, t.mon)
    && 0 <= t.hour < 24 && 0 <= t.min < 60 && 0 <= t.sec < 60
  }

  /** Field by field, the year first. */
  predicate Earlier(a: Tm, b: Tm) {
    if a.year != b.year then a.year < b.year
    else if a.mon != b.mon then a.mon < b.mon
    else if a.mday != b.mday then a.mday < b.mday
    else if a.hour != b.hour then a.hour < b.hour
    else if a.min != b.min then a.min < b.min
    else a.sec < b.sec
  }

  function Day(y: int, m: nat, d: int): int
    requires m < 12
  {
    DaysToYear(y) + DaysToMonth(y, m) + d - 1
  }

  lemma {:induction false} YearsAddUp(y: int, z: int)
    requires y < z
    ensures DaysToYear(y) + YearLength(y) <= DaysToYear(z)
    decreases z - y
  {
    if y + 1 < z {
      YearsAddUp(y, z - 1);
    }
  }

  lemma {:induction false} MonthsAddUp(y: int, m: nat, n: nat)
    requires m < n <= 12
    ensures DaysToMonth(y, m) + MonthLength(y, m) <= DaysToMonth(y, n)
  {
    if m + 1 < n {
      MonthsAddUp(y, m, n - 1);
    }
  }

  lemma MonthsFillTheYear(y: int)
    ensures DaysToMonth(y, 12) == YearLength(y)
  {
    DaysToMonthClosed(y, 11);
  }

  lemma DaysAreOrdered(a: Tm, b: Tm)
    requires ValidDate(a) && ValidDate(b) && a.(hour := 0, min := 0, sec := 0) != b.(hour := 0, min := 0, sec := 0)
    requires Earlier(a.(hour := 0, min := 0, sec := 0), b.(hour := 0, min := 0, sec := 0))
    ensures Day(a.year + 1900, a.mon, a.mday) < Day(b.year + 1900, b.mon, b.mday)
  {
    if a.year < b.year {
      YearsAddUp(a.year + 1900, b.year + 1900);
      MonthsAddUp(a.year + 1900, a.mon, 12);
      MonthsFillTheYear(a.year + 1900);
      MonthStartsAtZero(b.year + 1900, b.mon);
    } else if a.mon < b.mon {
      MonthsAddUp(a.year + 1900, a.mon, b.mon);
    }
  }

  lemma MonthStartsAtZero(y: int, m: nat)
    requires m < 12
    ensures DaysToMonth(y, m) >= 0
  {
    DaysToMonthClosed(y, m);
  }

  /** Later dates get larger times, so different dates get different times. */
  lemma {:induction false} StrictlyMonotone(a: Tm, b: Tm)
    requires ValidDate(a) && ValidDate(b) && 69 <= a.year < 0x8000 - 1900 && 69 <= b.year < 0x8000 - 1900
    ensures Earlier(a, b) ==> MkGmTime(a) < MkGmTime(b)
    ensures MkGmTime(a) == MkGmTime(b) ==> a == b
  {
    RightFrom1969(a);
    RightFrom1969(b);
    if Earlier(a, b) {
      TrueTimeOrdered(a, b);
    } else if Earlier(b, a) {
      TrueTimeOrdered(b, a);
    }
  }

  lemma TrueTimeOrdered(a: Tm, b: Tm)
    requires ValidDate(a) && ValidDate(b) && Earlier(a, b)
    ensures TrueTime(a) < TrueTime(b)
  {
    if a.year != b.year || a.mon != b.mon || a.mday != b.mday {
      DaysAreOrdered(a, b);
    }
  }
}
