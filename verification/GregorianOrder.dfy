/** Which date-times mkgmtime puts in the wrong order: the leap days up to 1968 fall on the first of March. */
module GregorianOrder {
  import opened GregorianTime

  /** By how many days mkgmtime is off when it counts leap days up to this year. */
  function Error(y: int): int { Slip(y, 1968, 4) - Slip(y, 1900, 100) + Slip(y, 1600, 400) }

  lemma ErrorIs(t: Tm)
    requires InRange(t)
    ensures MkGmTime(t) == TrueTime(t) + 86400 * Error(LeapYear(t))
  {
    MkGmTimeClosed(t);
    TrueDays(YearOf(t), MonthOf(t));
    DayCountSlips(YearOf(t), MonthOf(t), LeapYear(t));
  }

  predicate Lost(y: int) { Leap(y) && y <= 1968 }

  /** It loses a day at the end of February of each leap year up to 1968, and only there. */
  lemma ErrorSteps(y: int)
    ensures -1 <= Error(y) <= 1
    ensures if Lost(y) then Error(y - 1) - Error(y) == 1 else Error(y - 1) <= Error(y)
  {
    SameRemainder(y, 4, 492);
    SameRemainder(y, 100, 19);
    SameRemainder(y, 400, 4);
    SameRemainder(y - 1, 4, 492);
    SameRemainder(y - 1, 100, 19);
    SameRemainder(y - 1, 400, 4);
    CenturiesDivide(y);
    NextRemainders(y);
  }

  /** Of two years in a row at most one is divisible by four. */
  lemma NextRemainders(y: int)
    ensures y % 4 == 0 ==> (y - 1) % 4 != 0 && (y - 1) % 100 != 0 && (y - 1) % 400 != 0
    ensures (y - 1) % 100 == 0 ==> (y - 1) % 4 == 0
    ensures (y - 1) % 400 == 0 ==> (y - 1) % 100 == 0
  {
    CenturiesDivide(y - 1);
  }

  /** Seconds since midnight. */
  function Time(t: Tm): int { (t.hour * 60 + t.min) * 60 + t.sec }

  function DayOf(t: Tm): int
    requires 0 <= t.mon < 12
  {
    Day(t.year + 1900, t.mon, t.mday)
  }

  lemma TrueTimeIs(t: Tm)
    requires ValidDate(t)
    ensures TrueTime(t) == 86400 * DayOf(t) + Time(t) && 0 <= Time(t) < 86400
  {
  }

  /** Midnight at the start of the given day, in years since 1900. */
  function At(year: int, mon: nat, mday: nat): Tm { Tm(year, mon, mday, 0, 0, 0) }

  lemma DayIsLater(a: Tm, b: Tm)
    requires ValidDate(a) && ValidDate(b)
    requires a.year < b.year || (a.year == b.year && (a.mon < b.mon || (a.mon == b.mon && a.mday < b.mday)))
    ensures DayOf(a) < DayOf(b)
  {
    DaysAreOrdered(a, b);
  }

  /** The year whose March `t` is the first not to be before: leap days are counted up to it. */
  function March(t: Tm): Tm
    requires 0 <= t.mon < 12
  {
    At(LeapYear(t) - 1900, 2, 1)
  }

  lemma MarchIsBefore(t: Tm)
    requires ValidDate(t)
    ensures ValidDate(March(t)) && DayOf(March(t)) <= DayOf(t)
    ensures DayOf(March(t)) == DayOf(t) ==> t.mon == 2 && t.mday == 1 && t.year == March(t).year
  {
    var m := March(t);
    if t.year != m.year || t.mon != 2 || t.mday != 1 {
      DayIsLater(m, t);
    }
  }

  lemma NextMarchIsAfter(t: Tm)
    requires ValidDate(t)
    ensures ValidDate(At(March(t).year + 1, 2, 1)) && DayOf(t) < DayOf(At(March(t).year + 1, 2, 1))
  {
    DayIsLater(t, At(March(t).year + 1, 2, 1));
  }

  lemma LeapDayIsLast(year: int)
    requires Leap(year + 1900)
    ensures ValidDate(At(year, 1, 29)) && DayOf(At(year, 2, 1)) == DayOf(At(year, 1, 29)) + 1
  {
    DaysToMonthClosed(year + 1900, 1);
    DaysToMonthClosed(year + 1900, 2);
  }

  /** What comes before the first of March of a leap year is before its leap day or on it. */
  lemma BeforeLeapDay(t: Tm, year: int)
    requires ValidDate(t) && Leap(year + 1900) && DayOf(t) < DayOf(At(year, 2, 1))
    ensures DayOf(t) + 1 <= DayOf(At(year, 2, 1))
    ensures DayOf(t) + 1 == DayOf(At(year, 2, 1)) <==> t.year == year && t.mon == 1 && t.mday == 29
  {
    LeapDayIsLast(year);
    var leap := At(year, 1, 29);
    if t.year != year || t.mon != 1 || t.mday != 29 {
      if DayOf(t) == DayOf(leap) {
        SameDay(t, leap);
      }
    }
  }

  lemma SameDay(a: Tm, b: Tm)
    requires ValidDate(a) && ValidDate(b) && DayOf(a) == DayOf(b)
    ensures a.year == b.year && a.mon == b.mon && a.mday == b.mday
  {
    if a.year < b.year || (a.year == b.year && (a.mon < b.mon || (a.mon == b.mon && a.mday < b.mday))) {
      DayIsLater(a, b);
    } else if a.year != b.year || a.mon != b.mon || a.mday != b.mday {
      DayIsLater(b, a);
    }
  }

  lemma MarchesApart(y: int, z: int)
    requires y < z
    ensures DayOf(At(y, 2, 1)) + 300 <= DayOf(At(z, 2, 1))
  {
    YearsAddUp(y + 1900, z + 1900);
    DaysToMonthClosed(y + 1900, 2);
    DaysToMonthClosed(z + 1900, 2);
  }

  /** The leap day of a year up to 1968 and the day after it, at the same time of day or an earlier one. */
  predicate Folded(a: Tm, b: Tm) {
    && a.year == b.year && Leap(a.year + 1900) && a.year + 1900 <= 1968
    && a.mon == 1 && a.mday == 29 && b.mon == 2 && b.mday == 1 && Time(b) <= Time(a)
  }

  lemma ResultIs(t: Tm)
    requires ValidDate(t) && InRange(t)
    ensures MkGmTime(t) == 86400 * (DayOf(t) + Error(LeapYear(t))) + Time(t) && 0 <= Time(t) < 86400
  {
    ErrorIs(t);
    TrueTimeIs(t);
  }

  /** Comparing results is comparing days, as counted, and then times of day. */
  lemma Compare(r: int, d: int, t: int, r': int, d': int, t': int)
    requires r == 86400 * d + t && r' == 86400 * d' + t' && 0 <= t < 86400 && 0 <= t' < 86400
    ensures r < r' <==> d < d' || (d == d' && t < t')
    ensures r == r' <==> d == d' && t == t'
  {
  }

  lemma SameLeapYear(a: Tm, b: Tm)
    requires ValidDate(a) && ValidDate(b) && InRange(a) && InRange(b) && Earlier(a, b) && LeapYear(a) == LeapYear(b)
    ensures MkGmTime(a) < MkGmTime(b)
  {
    ErrorIs(a);
    ErrorIs(b);
    TrueTimeOrdered(a, b);
  }

  lemma LeapYearsApart(a: Tm, b: Tm)
    requires ValidDate(a) && ValidDate(b) && InRange(a) && InRange(b) && LeapYear(a) + 2 <= LeapYear(b)
    ensures MkGmTime(a) < MkGmTime(b)
  {
    assert DayOf(a) + 300 < DayOf(b) by {
      NextMarchIsAfter(a);
      MarchIsBefore(b);
      MarchesApart(March(a).year + 1, March(b).year);
    }
    ErrorSteps(LeapYear(a));
    ErrorSteps(LeapYear(b));
    CountedDays(a, b);
  }

  lemma CountedDays(a: Tm, b: Tm)
    requires ValidDate(a) && ValidDate(b) && InRange(a) && InRange(b)
    ensures var d, d' := DayOf(a) + Error(LeapYear(a)), DayOf(b) + Error(LeapYear(b));
            && (MkGmTime(a) < MkGmTime(b) <==> d < d' || (d == d' && Time(a) < Time(b)))
            && (MkGmTime(a) == MkGmTime(b) <==> d == d' && Time(a) == Time(b))
  {
    ResultIs(a);
    ResultIs(b);
    Compare(MkGmTime(a), DayOf(a) + Error(LeapYear(a)), Time(a), MkGmTime(b), DayOf(b) + Error(LeapYear(b)), Time(b));
  }

  /** The days before and after the March that lies between, and whether they touch it. */
  lemma DaysAcross(a: Tm, b: Tm)
    requires ValidDate(a) && ValidDate(b) && LeapYear(a) + 1 == LeapYear(b)
    ensures ValidDate(March(b)) && DayOf(a) < DayOf(March(b)) <= DayOf(b)
    ensures DayOf(March(b)) == DayOf(b) <==> b.mon == 2 && b.mday == 1
    ensures Leap(LeapYear(b)) ==> (DayOf(a) + 1 == DayOf(March(b)) <==> a.year == March(b).year && a.mon == 1 && a.mday == 29)
  {
    NextMarchIsAfter(a);
    MarchIsBefore(b);
    if Leap(LeapYear(b)) {
      BeforeLeapDay(a, March(b).year);
    }
  }

  /** Results `r` and `r'` of days `a` and `b` on both sides of day `m`, counted with errors `e` and `e'`: the order is
      lost exactly if a day is lost and the days touch. */
  lemma DayLost(r: int, r': int, a: int, m: int, b: int, e: int, e': int, lost: bool, t: int, t': int, folded: bool)
    requires a < m <= b && if lost then e - e' == 1 else e <= e'
    requires r < r' <==> a + e < b + e' || (a + e == b + e' && t < t')
    requires r == r' <==> a + e == b + e' && t == t'
    requires folded <==> lost && a + 1 == m && m == b && t' <= t
    ensures r < r' <==> !folded
    ensures r == r' <==> folded && t == t'
  {
  }

  lemma AcrossOneMarch(a: Tm, b: Tm, y: int)
    requires ValidDate(a) && ValidDate(b) && InRange(a) && InRange(b) && y == LeapYear(b) && LeapYear(a) == y - 1
    ensures MkGmTime(a) < MkGmTime(b) <==> !Folded(a, b)
    ensures MkGmTime(a) == MkGmTime(b) <==> Folded(a, b) && Time(a) == Time(b)
  {
    ErrorSteps(y);
    DaysAcross(a, b);
    CountedDays(a, b);
    FoldedIs(a, b);
    DayLost(MkGmTime(a), MkGmTime(b), DayOf(a), DayOf(March(b)), DayOf(b), Error(y - 1), Error(y), Lost(y), Time(a), Time(b), Folded(a, b));
  }

  lemma FoldedIs(a: Tm, b: Tm)
    requires ValidDate(a) && ValidDate(b) && LeapYear(a) + 1 == LeapYear(b)
    ensures var y := LeapYear(b);
            Folded(a, b) <==> Lost(y) && DayOf(a) + 1 == DayOf(March(b)) && DayOf(March(b)) == DayOf(b) && Time(b) <= Time(a)
  {
    DaysAcross(a, b);
  }

  lemma LeapYearsOrdered(a: Tm, b: Tm)
    requires ValidDate(a) && ValidDate(b) && Earlier(a, b)
    ensures LeapYear(a) <= LeapYear(b) && (Folded(a, b) ==> LeapYear(a) + 1 == LeapYear(b))
  {
  }

  /** Over the whole range of the code, of two valid date-times the earlier one has the smaller result exactly
      if they are not a leap day up to 1968 and the day after it in this way. */
  lemma OrderedExactly(a: Tm, b: Tm)
    requires ValidDate(a) && ValidDate(b) && InRange(a) && InRange(b) && Earlier(a, b)
    ensures MkGmTime(a) < MkGmTime(b) <==> !Folded(a, b)
    ensures MkGmTime(a) == MkGmTime(b) <==> Folded(a, b) && Time(a) == Time(b)
  {
    LeapYearsOrdered(a, b);
    if LeapYear(a) == LeapYear(b) {
      SameLeapYear(a, b);
    } else if LeapYear(a) + 1 == LeapYear(b) {
      AcrossOneMarch(a, b, LeapYear(b));
    } else {
      LeapYearsApart(a, b);
    }
  }

  /** 29 February and 1 March 1968 have the same result. */
  lemma LeapDayCollides()
    ensures ValidDate(Tm(68, 1, 29, 0, 0, 0)) && ValidDate(Tm(68, 2, 1, 0, 0, 0))
    ensures MkGmTime(Tm(68, 1, 29, 0, 0, 0)) == MkGmTime(Tm(68, 2, 1, 0, 0, 0))
  {
    OrderedExactly(Tm(68, 1, 29, 0, 0, 0), Tm(68, 2, 1, 0, 0, 0));
  }
}
