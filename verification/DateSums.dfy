/** Sums whose months lead back before January, which the program counts on as the months 0 to -10. */
module DateSums {
  import opened Calendar
  import opened DateTimes

  /** The real length of a month; the months 0 to -10 are those from December to February of the year before. */
  function RealLength(year: int, month: int): int
    requires -10 <= month <= 12
  {
    if month <= 0 then MonthLength(year - 1, month + 12) else MonthLength(year, month)
  }

  lemma NextEarly(year: int, month: int, day: int)
    requires -10 <= month <= 0
    ensures FloorNumber(year, month + 1, day) == FloorNumber(year, month, day + RealLength(year, month))
  {
    hide YearDays, Leap;
    if month == -10 {
      YearLength(year + 4798);
      LeapShift(year - 1);
    }
  }

  lemma FloorShift(year: int, month: int, day: int, n: int)
    ensures FloorNumber(year, month, day + n) == FloorNumber(year, month, day) + n
  {
    hide YearDays, MonthDays;
  }

  /** Once in these months with days to spare, the loop never falls behind. */
  lemma {:induction false} SettleAhead(year: int, month: int, day: int)
    requires -10 <= month <= 1 && day >= 1 && year > -4799
    ensures Settle(year, month, day) >= FloorNumber(year, month, day)
    decreases Far(day)
  {
    hide CDiv, CMod, MaxDayInMonthFor, JulianDate, FloorNumber, MonthLength;
    if month == 1 {
      SettleUp(year, 1, day);
    } else {
      StepOn(year, month, day);
      if day > 28 {
        SettleAhead(year, month + 1, day - 28);
      } else {
        JulianFloor(year, month, day);
      }
    }
  }

  /** What the loop does in one of these months: a day beyond the 28th goes to the next month. */
  lemma StepOn(year: int, month: int, day: int)
    requires -10 <= month <= 0 && day >= 1
    ensures Settle(year, month, day) == if day > 28 then Settle(year, month + 1, day - 28) else JulianDate(year, month, day)
    ensures FloorNumber(year, month + 1, day - 28) == FloorNumber(year, month, day) + RealLength(year, month) - 28
    ensures RealLength(year, month) >= 28 && (-10 < month ==> RealLength(year, month) >= 30)
  {
    hide CDiv, CMod, MaxDayInMonthFor, JulianDate, FloorNumber;
    MaxDayReal(year, month);
    MonthSteps(month, 1);
    NextEarly(year, month, day - 28);
    FloorShift(year, month, day, RealLength(year, month) - 28);
  }

  /** And a day before the first goes to the month before, which is given 28 days, or 31 if it is a January. */
  lemma StepBack(year: int, month: int, day: int)
    requires -10 <= month <= 0 && day < 1
    ensures Settle(year, month, day) == if month == -10 then Settle(year - 1, 1, day + 31) else Settle(year, month - 1, day + 28)
    ensures month == -10 ==> FloorNumber(year - 1, 1, day + 31) == FloorNumber(year, month, day)
    ensures month > -10 ==> FloorNumber(year, month - 1, day + 28) == FloorNumber(year, month, day) - (RealLength(year, month - 1) - 28)
    ensures month > -10 ==> RealLength(year, month - 1) >= if month == -9 then 28 else 30
  {
    hide CDiv, CMod, MaxDayInMonthFor, JulianDate, FloorNumber;
    MaxDayReal(year, month - 1);
    MonthSteps(month, -1);
    if month == -10 {
      JanuaryBefore(year, day);
    } else {
      NextEarly(year, month - 1, day);
      FloorShift(year, month - 1, day + 28, RealLength(year, month - 1) - 28);
    }
  }

  lemma JanuaryBefore(year: int, day: int)
    ensures FloorNumber(year - 1, 1, day + 31) == FloorNumber(year, -10, day)
  {
    hide YearDays;
  }

  /** From February of the year before, days before the first lead to January, and from there at worst too far back. */
  lemma FebruaryBack(year: int, day: int)
    requires day < 1 && year > -4799
    ensures day + 31 >= 1 ==> Settle(year, -10, day) == FloorNumber(year, -10, day)
    ensures day + 31 < 1 ==> Settle(year, -10, day) < FloorNumber(year, -10, day)
  {
    hide Settle, FloorNumber, JulianDate;
    StepBack(year, -10, day);
    FloorShift(year - 1, 1, 1, day + 30);
    MaxDayReal(year - 1, 1);
    SettleDown(year - 1, 1, day + 31);
  }

  /**
   When settling is exact although the program cut the day too much by `extra`: it stays in its month and nothing
   was cut; or it goes on from a month that was cut to 28 days just because the day was its last, into a real month
   or one it does not leave; or it goes back, with nothing cut, through no month but a short February to a January.
   */
  predicate EarlyFits(year: int, month: int, day: int, extra: int)
    requires -10 <= month <= 0
  {
    if day > 28 then RealLength(year, month) - 28 == extra && (month == 0 || day <= 56)
    else if day >= 1 then extra == 0
    else extra == 0 && ((month == -10 && day + 31 >= 1) || (month == -9 && !Leap(year - 1) && day + 59 >= 1))
  }

  lemma EarlyOn(year: int, month: int, day: int, extra: int)
    requires -10 <= month <= 0 && day > 28 && year > -4799 && 0 <= extra <= RealLength(year, month) - 28
    ensures Settle(year, month, day) == FloorNumber(year, month, day) + extra <==> EarlyFits(year, month, day, extra)
  {
    hide Settle, FloorNumber, JulianDate, RealLength;
    StepOn(year, month, day);
    if month == 0 {
      SettleUp(year, 1, day - 28);
    } else {
      StepOn(year, month + 1, day - 28);
      if day - 28 > 28 {
        SettleAhead(year, month + 2, day - 56);
      } else {
        JulianFloor(year, month + 1, day - 28);
      }
    }
  }

  lemma EarlyBack(year: int, month: int, day: int, extra: int)
    requires -10 <= month <= 0 && day < 1 && year > -4799 && 0 <= extra
    ensures Settle(year, month, day) == FloorNumber(year, month, day) + extra <==> EarlyFits(year, month, day, extra)
  {
    hide Settle, FloorNumber, JulianDate;
    if month == -10 {
      FebruaryBack(year, day);
    } else {
      StepBack(year, month, day);
      MaxDayReal(year, month - 1);
      if month == -9 {
        FebruaryFurther(year, day);
      } else {
        SettleBehind(year, month - 1, day + 28);
      }
    }
  }

  lemma FebruaryFurther(year: int, day: int)
    requires day < 1 && year > -4799
    ensures day + 59 >= 1 ==> Settle(year, -10, day + 28) == FloorNumber(year, -10, day + 28)
    ensures day + 59 < 1 ==> Settle(year, -10, day + 28) < FloorNumber(year, -10, day + 28)
  {
    hide Settle, FloorNumber, JulianDate;
    if day + 28 < 1 {
      FebruaryBack(year, day + 28);
    } else {
      MaxDayReal(year, -10);
      SettledAlready(year, -10, day + 28);
      JulianFloor(year, -10, day + 28);
    }
  }

  lemma EarlyExact(year: int, month: int, day: int, extra: int)
    requires -10 <= month <= 0 && year > -4799 && 0 <= extra <= RealLength(year, month) - 28
    ensures Settle(year, month, day) == FloorNumber(year, month, day) + extra <==> EarlyFits(year, month, day, extra)
  {
    hide Settle, FloorNumber, JulianDate;
    if day > 28 {
      EarlyOn(year, month, day, extra);
    } else if day < 1 {
      EarlyBack(year, month, day, extra);
    } else {
      MaxDayReal(year, month);
      SettledAlready(year, month, day);
      JulianFloor(year, month, day);
    }
  }

  /** By how many days the program cuts a day more than the month reached does. */
  function Extra(t: Ymd, dur: Duration): int {
    MonthsLater(t, dur).day - if t.day > 28 then 28 else t.day
  }

  /** The days of a sum allow it to be settled exactly. */
  predicate Fits(t: Ymd, h: Hms, dur: Duration) {
    var s := Sum(t, h, dur).0;
    SumMonth(t, h, dur);
    if s.month >= 1 then Number(s) >= Number(Ymd(s.year, 1, 1)) else EarlyFits(s.year, s.month, s.day, Extra(t, dur))
  }

  lemma EarlySum(t: Ymd, h: Hms, dur: Duration)
    requires Date(t) && 0 <= MakeHms(h) && 0 <= h.millis < 1000
    requires Sum(t, h, dur).0.month <= 0 && MonthsLater(t, dur).year > -4800
    ensures var s := Sum(t, h, dur);
            Seconds(Settle(s.0.year, s.0.month, s.0.day), s.1) == ExactSum(t, h, dur)
            <==> Settle(s.0.year, s.0.month, s.0.day) == FloorNumber(s.0.year, s.0.month, s.0.day) + Extra(t, dur)
  {
    hide Settle, JulianDate, Sum, CDiv, MaxDayInMonthFor, MonthsLater;
    var s, u := Sum(t, h, dur).0, MonthsLater(t, dur);
    SumMonth(t, h, dur);
    SumDay(t, h, dur);
    WholeSeconds(h);
    MaxDayReal(s.year, s.month);
    MonthsLaterDate(t, dur);
    JulianFloor(u.year, u.month, u.day);
    assert FloorNumber(u.year, u.month, u.day) == FloorNumber(s.year, s.month, u.day);
    FloorShift(s.year, s.month, u.day, s.day - u.day);
    hide FloorNumber;
  }

  lemma ExtraBounds(t: Ymd, h: Hms, dur: Duration)
    requires Date(t) && Sum(t, h, dur).0.month <= 0
    ensures -10 <= Sum(t, h, dur).0.month
    ensures 0 <= Extra(t, dur) <= RealLength(Sum(t, h, dur).0.year, Sum(t, h, dur).0.month) - 28
  {
    hide Sum;
    SumMonth(t, h, dur);
  }

  /** Any duration, with parts of any sign: the sum is exact, to the second, iff its days fit. */
  lemma SumExactIff(t: Ymd, h: Hms, dur: Duration)
    requires Date(t) && 0 <= MakeHms(h) && 0 <= h.millis < 1000 && MonthsLater(t, dur).year > -4800
    ensures var s := Sum(t, h, dur);
            Seconds(Settle(s.0.year, s.0.month, s.0.day), s.1) == ExactSum(t, h, dur) <==> Fits(t, h, dur)
  {
    hide Settle, JulianDate, Sum, MonthsLater, FloorNumber, Extra, EarlyFits, ExactSum, Seconds;
    var s := Sum(t, h, dur).0;
    SumMonth(t, h, dur);
    if s.month >= 1 {
      SumExact(t, h, dur);
    } else {
      EarlySum(t, h, dur);
      ExtraBounds(t, h, dur);
      EarlyExact(s.year, s.month, s.day, Extra(t, dur));
    }
  }
}
