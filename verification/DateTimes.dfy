/** Instants as a day number and the milliseconds of the day, and the addition of durations. */
module DateTimes {
  import opened Calendar

  const MILLIS_PER_DAY := 86400000

  datatype Hms = Hms(hour: int, minute: int, second: int, millis: int)

  function MakeHms(t: Hms): int {
    1000 * (3600 * t.hour + 60 * t.minute + t.second) + t.millis
  }

  function GetHms(time: int): Hms {
    var ticks := CDiv(time, 1000);
    Hms(CDiv(ticks, 3600), CMod(CDiv(ticks, 60), 60), CMod(ticks, 60), CMod(time, 1000))
  }

  predicate Clock(t: Hms) {
    0 <= t.hour < 24 && 0 <= t.minute < 60 && 0 <= t.second < 60 && 0 <= t.millis < 1000
  }

  lemma SixtyTwice(a: int)
    ensures CDiv(CDiv(a, 60), 60) == CDiv(a, 3600)
  {
  }

  /** The clock time of a time is that time again, even of one that is negative or too large. */
  lemma TimeToClock(time: int)
    ensures MakeHms(GetHms(time)) == time
    ensures 0 <= time < MILLIS_PER_DAY ==> Clock(GetHms(time))
  {
    SixtyTwice(CDiv(time, 1000));
  }

  lemma ClockToTime(t: Hms)
    requires Clock(t)
    ensures 0 <= MakeHms(t) < MILLIS_PER_DAY && GetHms(MakeHms(t)) == t
  {
    var ticks := 3600 * t.hour + 60 * t.minute + t.second;
    assert CDiv(MakeHms(t), 1000) == ticks;
    assert CDiv(ticks, 60) == 60 * t.hour + t.minute;
  }

  /** The instant in milliseconds. */
  function Instant(date: int, time: int): int {
    date * MILLIS_PER_DAY + time
  }

  datatype Duration = Duration(years: int, months: int, days: int, hours: int, minutes: int, seconds: int)

  class DateTime {
    var date: int
    var time: int

    constructor (t: Ymd, h: Hms)
      ensures date == Number(t) && time == MakeHms(h)
    {
      date := JulianDate(t.year, t.month, t.day);
      time := MakeHms(h);
    }

    /** Adds seconds. The instant moves by just as much, but midnight may come out as the end of the day before. */
    method AddSeconds(seconds: int)
      requires 0 <= time <= MILLIS_PER_DAY
      modifies this
      ensures Instant(date, time) == old(Instant(date, time)) + 1000 * seconds
      ensures 0 <= time <= MILLIS_PER_DAY
      ensures time == MILLIS_PER_DAY <==> old(time) + 1000 * CMod(seconds, 86400) == MILLIS_PER_DAY
    {
      var d := CDiv(seconds, 86400);
      var s := CMod(seconds, 86400);
      assert -86400 < s < 86400;
      date := date + d;
      time := time + 1000 * s;
      if time > MILLIS_PER_DAY {
        date := date + 1;
        time := CMod(time, MILLIS_PER_DAY);
      } else if time < 0 {
        date := date - 1;
        time := time + MILLIS_PER_DAY;
      }
    }

    /** The comparison of two date times. */
    predicate Less(other: DateTime)
      reads this, other
    {
      if date < other.date then true
      else if date > other.date then false
      else time < other.time
    }

    method AddDuration(dur: Duration)
      modifies this
      ensures var s := old(Sum(GetYmd(date), GetHms(time), dur)); date == Settle(s.0.year, s.0.month, s.0.day) && time == s.1
    {
      hide CDiv, CMod, JulianDate, MaxDayInMonthFor, GetYmd, GetHms, Settle, MakeHms;
      var t, h := GetYmd(date), GetHms(time);

      var tmpMonth := t.month + dur.months;
      var eMonth := CMod(tmpMonth - 1, 12) + 1;
      var eYear := t.year + dur.years + CDiv(tmpMonth - 1, 12);

      var tmpSec := h.second + dur.seconds;
      var eSec := CMod(tmpSec, 60);
      var tmpMin := h.minute + dur.minutes + CDiv(tmpSec, 60);
      var eMin := CMod(tmpMin, 60);
      var tmpHour := h.hour + dur.hours + CDiv(tmpMin, 60);
      var eHour := CMod(tmpHour, 24);

      var tmpDay;
      if t.day > MaxDayInMonthFor(eYear, eMonth) {
        tmpDay := MaxDayInMonthFor(eYear, eMonth);
      } else if t.day < 1 {
        tmpDay := 1;
      } else {
        tmpDay := t.day;
      }
      var eDay := tmpDay + dur.days + CDiv(tmpHour, 24);

      assert Sum(t, h, dur) == (Ymd(eYear, eMonth, eDay), MakeHms(Hms(eHour, eMin, eSec, 0)));
      date := SettleDays(eYear, eMonth, eDay);
      time := MakeHms(Hms(eHour, eMin, eSec, 0));
    }

    /** The loop of AddDuration. */
    method SettleDays(year: int, month: int, day: int) returns (jday: int)
      ensures jday == Settle(year, month, day)
    {
      hide CDiv, CMod, JulianDate, MaxDayInMonthFor;
      var eYear, eMonth, eDay := year, month, day;
      while true
        invariant Settle(eYear, eMonth, eDay) == Settle(year, month, day)
        decreases Far(eDay)
      {
        var carryDay;
        if eDay < 1 {
          eDay := eDay + MaxDayInMonthFor(eYear, eMonth - 1);
          carryDay := -1;
        } else if eDay > MaxDayInMonthFor(eYear, eMonth) {
          eDay := eDay - MaxDayInMonthFor(eYear, eMonth);
          carryDay := 1;
        } else {
          break;
        }
        var tmpMonth := eMonth + carryDay;
        eMonth := CMod(tmpMonth - 1, 12) + 1;
        eYear := eYear + CDiv(tmpMonth - 1, 12);
      }
      jday := JulianDate(eYear, eMonth, eDay);
    }
  }

  // ---------------------------------------------------------------- the sum before and after the days are settled

  /** Months and years added, the day cut to the month, then days and carries: maybe no day of that month. */
  function Sum(t: Ymd, h: Hms, dur: Duration): (Ymd, int) {
    var month := CMod(t.month + dur.months - 1, 12) + 1;
    var year := t.year + dur.years + CDiv(t.month + dur.months - 1, 12);
    var sec := h.second + dur.seconds;
    var min := h.minute + dur.minutes + CDiv(sec, 60);
    var hour := h.hour + dur.hours + CDiv(min, 60);
    var max := MaxDayInMonthFor(year, month);
    var day := if t.day > max then max else if t.day < 1 then 1 else t.day;
    (Ymd(year, month, day + dur.days + CDiv(hour, 24)), MakeHms(Hms(CMod(hour, 24), CMod(min, 60), CMod(sec, 60), 0)))
  }

  function Far(day: int): nat {
    if day < 1 then 100 - day else day
  }

  /** The day number that the loop ends with: a day too small or too large moves the date month by month. */
  function Settle(year: int, month: int, day: int): int
    decreases Far(day)
  {
    if day < 1 then
      Settle(year + CDiv(month - 2, 12), CMod(month - 2, 12) + 1, day + MaxDayInMonthFor(year, month - 1))
    else if day > MaxDayInMonthFor(year, month) then
      Settle(year + CDiv(month, 12), CMod(month, 12) + 1, day - MaxDayInMonthFor(year, month))
    else
      JulianDate(year, month, day)
  }

  // ---------------------------------------------------------------- when the sum is right

  /** The number of a day, with the months 0 to -10 for those of the year before, and with rounding down. */
  function FloorNumber(year: int, month: int, day: int): int {
    var a := if month <= -10 then 2 else if month <= 2 then 1 else 0;
    day - 1 + MonthDays(month + 12 * a - 3) + YearDays(year + 4800 - a) - 32044
  }

  lemma JulianFloor(year: int, month: int, day: int)
    requires -10 <= month <= 12
    ensures FloorNumber(year, month, day) <= JulianDate(year, month, day) <= FloorNumber(year, month, day) + 1
    ensures (month >= 1 && year > -4800) || year > -4799 ==> JulianDate(year, month, day) == FloorNumber(year, month, day)
  {
    var a := if month <= -10 then 2 else if month <= 2 then 1 else 0;
    var y := year + 4800 - a;
    hide CDiv;
    Rounding(y);
    JulianParts(year, month, day, a);
    if y >= 0 {
      CDivRounds(y, 4);
      CDivRounds(y, 100);
      CDivRounds(y, 400);
    }
  }

  lemma JulianParts(year: int, month: int, day: int, a: int)
    requires -10 <= month <= 12 && a == if month <= -10 then 2 else if month <= 2 then 1 else 0
    ensures var y := year + 4800 - a;
            JulianDate(year, month, day) == day + MonthDays(month + 12 * a - 3) + 365 * y + CDiv(y, 4) - CDiv(y, 100) + CDiv(y, 400) - 32045
  {
    assert CDiv(14 - month, 12) == a;
    var m := month + 12 * a - 3;
    assert m >= 0;
    assert CDiv(153 * m + 2, 5) == MonthDays(m);
  }

  /** Rounding towards zero instead of down. */
  lemma Rounding(y: int)
    ensures 0 <= CDiv(y, 4) - CDiv(y, 100) + CDiv(y, 400) - (y / 4 - y / 100 + y / 400) <= 1
  {
    LeapNested(y);
    CDivFloor(y, 4);
    CDivFloor(y, 100);
    CDivFloor(y, 400);
  }

  lemma CDivFloor(y: int, n: int)
    requires n == 4 || n == 100 || n == 400
    ensures CDiv(y, n) - y / n == if y < 0 && y % n != 0 then 1 else 0
  {
  }

  /** The month that a step of the loop goes to, from `month` by `step`. */
  lemma MonthSteps(month: int, step: int)
    requires -10 <= month <= 12 && (step == 1 || step == -1)
    ensures var n := month + step - 1;
            && CDiv(n, 12) == (if n == 12 then 1 else if n == -12 then -1 else 0)
            && CMod(n, 12) == (if n == 12 || n == -12 then 0 else n)
  {
  }

  lemma CModZero(y: int, n: int)
    requires n == 4 || n == 100 || n == 400
    ensures CMod(y, n) == 0 <==> y % n == 0
  {
    hide CDiv;
    CDivFloor(y, n);
    assert CMod(y, n) == y % n - n * (if y < 0 && y % n != 0 then 1 else 0);
  }

  /** The months of a year get their lengths; the months 0 to -10, of the year before, get 28 days. */
  lemma MaxDayReal(year: int, month: int)
    requires -11 <= month <= 12
    ensures MaxDayInMonthFor(year, month) == if month == -11 then 31 else if month <= 0 then 28 else MonthLength(year, month)
  {
    hide CDiv, CMod;
    assert CDiv(CMod(month - 1, 12), 12) == 0 && CMod(month - 1, 12) == if month == -11 then 0 else month - 1 by {
      MonthMod(month);
    }
    CModZero(year, 4);
    CModZero(year, 100);
    CModZero(year, 400);
  }

  lemma MonthMod(month: int)
    requires -11 <= month <= 12
    ensures CMod(month - 1, 12) == (if month == -11 then 0 else month - 1) && CDiv(CMod(month - 1, 12), 12) == 0
  {
  }

  /** Going back a month keeps the day number, except that the months 0 to -9 are given 28 days. */
  lemma BackAMonth(year: int, month: int, day: int)
    requires -10 <= month <= 12
    ensures var y, m, d := year + CDiv(month - 2, 12), CMod(month - 2, 12) + 1, day + MaxDayInMonthFor(year, month - 1);
            && -10 <= m <= 12 && FloorNumber(y, m, d) <= FloorNumber(year, month, day)
            && (month >= 2 ==> m == month - 1 && y == year && FloorNumber(y, m, d) == FloorNumber(year, month, day))
            && (month == 1 ==> m == 0 && y == year && d == day + 28 && FloorNumber(y, m, d) == FloorNumber(year, month, day) - 3)
            && (month <= 0 ==> (d == day + 28 || (m == 1 && d == day + 31)))
  {
    hide CDiv, CMod, MaxDayInMonthFor, YearDays, Leap;
    MonthSteps(month, -1);
    MaxDayReal(year, month - 1);
    if month == 3 || month == -9 {
      YearLength(year + 4799);
      YearLength(year + 4798);
      LeapShift(year);
    }
  }

  /** Going on a month from a real one keeps the day number. */
  lemma OnAMonth(year: int, month: int, day: int)
    requires 1 <= month <= 12
    ensures var y, m, d := year + CDiv(month, 12), CMod(month, 12) + 1, day - MaxDayInMonthFor(year, month);
            1 <= m <= 12 && y >= year && FloorNumber(y, m, d) == FloorNumber(year, month, day)
  {
    hide CDiv, CMod, MaxDayInMonthFor, YearDays, Leap;
    MonthSteps(month, 1);
    MaxDayReal(year, month);
    if month == 2 {
      YearLength(year + 4799);
      LeapShift(year);
    }
  }

  /** Days that run beyond their month are settled exactly. */
  lemma {:induction false} SettleUp(year: int, month: int, day: int)
    requires 1 <= month <= 12 && day >= 1 && year > -4800
    ensures Settle(year, month, day) == FloorNumber(year, month, day)
    decreases Far(day)
  {
    hide CDiv, CMod, MaxDayInMonthFor, JulianDate, FloorNumber;
    if day > MaxDayInMonthFor(year, month) {
      OnAMonth(year, month, day);
      SettleUp(year + CDiv(month, 12), CMod(month, 12) + 1, day - MaxDayInMonthFor(year, month));
    } else {
      JulianFloor(year, month, day);
    }
  }

  /** Once in the months of the year before, the loop can only fall behind. */
  lemma {:induction false} SettleBehind(year: int, month: int, day: int)
    requires -10 <= month <= 12 && day <= MaxDayInMonthFor(year, month)
    ensures Settle(year, month, day) <= FloorNumber(year, month, day) + 1
    decreases Far(day)
  {
    hide CDiv, CMod, MaxDayInMonthFor, JulianDate, FloorNumber, MonthLength;
    if day < 1 {
      var y, m, d := year + CDiv(month - 2, 12), CMod(month - 2, 12) + 1, day + MaxDayInMonthFor(year, month - 1);
      BackAMonth(year, month, day);
      BackFits(year, month);
      SettleBehind(y, m, d);
    } else {
      JulianFloor(year, month, day);
    }
  }

  lemma BackFits(year: int, month: int)
    requires -10 <= month <= 12
    ensures MaxDayInMonthFor(year, month - 1) == MaxDayInMonthFor(year + CDiv(month - 2, 12), CMod(month - 2, 12) + 1)
  {
    hide CDiv, CMod, MaxDayInMonthFor, Leap;
    MonthSteps(month, -1);
    MaxDayReal(year, month - 1);
    MaxDayReal(year + CDiv(month - 2, 12), CMod(month - 2, 12) + 1);
  }

  /** Too few days are settled exactly iff the result is still in the same year; otherwise it is too early. */
  lemma {:induction false} SettleDown(year: int, month: int, day: int)
    requires 1 <= month <= 12 && day <= MaxDayInMonthFor(year, month) && year > -4800
    ensures FloorNumber(year, month, day) >= FloorNumber(year, 1, 1) ==> Settle(year, month, day) == FloorNumber(year, month, day)
    ensures FloorNumber(year, month, day) < FloorNumber(year, 1, 1) ==> Settle(year, month, day) < FloorNumber(year, month, day)
    decreases Far(day)
  {
    hide CDiv, CMod, MaxDayInMonthFor, JulianDate, FloorNumber, MonthLength;
    BackAMonth(year, month, day);
    BackFits(year, month);
    JulianFloor(year, month, day);
    FirstOfYear(year, month, day);
    if day < 1 {
      if month == 1 {
        SettleBehind(year, 0, day + 28);
      } else {
        SettleDown(year, month - 1, day + MaxDayInMonthFor(year, month - 1));
      }
    }
  }

  lemma FirstOfYear(year: int, month: int, day: int)
    requires 1 <= month <= 12
    ensures day >= 1 ==> FloorNumber(year, month, day) >= FloorNumber(year, 1, 1)
    ensures month == 1 && day < 1 ==> FloorNumber(year, month, day) < FloorNumber(year, 1, 1)
  {
    hide YearDays;
    YearLength(year + 4799);
  }

  /** For a real month the loop is right iff the days do not lead back beyond the start of its year. */
  lemma SettleExact(year: int, month: int, day: int)
    requires 1 <= month <= 12 && year > -4800
    ensures Settle(year, month, day) == JulianDate(year, month, 1) + day - 1
       <==> JulianDate(year, month, 1) + day - 1 >= JulianDate(year, 1, 1)
  {
    hide Settle, JulianDate, MaxDayInMonthFor;
    JulianFloor(year, month, 1);
    JulianFloor(year, 1, 1);
    assert FloorNumber(year, month, day) == FloorNumber(year, month, 1) + day - 1;
    hide FloorNumber;
    if day >= 1 {
      SettleUp(year, month, day);
      FirstOfYear(year, month, day);
    } else {
      SettleDown(year, month, day);
    }
  }

  // ---------------------------------------------------------------- the meaning of a sum

  /** The seconds of a day number and a time. */
  function Seconds(date: int, time: int): int {
    date * 86400 + CDiv(time, 1000)
  }

  /** The month reached by calendar arithmetic, with the day cut to its length. */
  function MonthsLater(t: Ymd, dur: Duration): Ymd {
    var n := 12 * (t.year + dur.years) + t.month - 1 + dur.months;
    var y, m := n / 12, n % 12 + 1;
    Ymd(y, m, if t.day > MonthLength(y, m) then MonthLength(y, m) else t.day)
  }

  /** The sum as it should be, in seconds: the month reached, and the rest of the duration counted from there. */
  function ExactSum(t: Ymd, h: Hms, dur: Duration): int {
    Seconds(Number(MonthsLater(t, dur)), MakeHms(h)) + 86400 * dur.days + 3600 * dur.hours + 60 * dur.minutes + dur.seconds
  }

  /** The months 0 to -10 of a sum are those from December to February of the year before. */
  lemma SumMonth(t: Ymd, h: Hms, dur: Duration)
    ensures var s, u := Sum(t, h, dur).0, MonthsLater(t, dur);
            && -10 <= s.month <= 12 && (t.month + dur.months >= 1 ==> s.month >= 1)
            && if s.month >= 1 then u.year == s.year && u.month == s.month else u.year == s.year - 1 && u.month == s.month + 12
  {
    hide MakeHms, MaxDayInMonthFor, MonthLength, CDiv, CMod;
    var k := t.month + dur.months - 1;
    TruncatedMonth(k);
    assert (12 * (t.year + dur.years) + k) / 12 == t.year + dur.years + k / 12;
  }

  lemma TruncatedMonth(k: int)
    ensures var q, r := CDiv(k, 12), CMod(k, 12);
            && -11 <= r <= 11 && (k >= 0 ==> r >= 0)
            && if r >= 0 then k / 12 == q && k % 12 == r else k / 12 == q - 1 && k % 12 == r + 12
  {
  }

  /** Carrying seconds to minutes, hours and days loses nothing. */
  lemma CarrySeconds(sec: int, min: int, hour: int)
    ensures var m := min + CDiv(sec, 60);
            var d := hour + CDiv(m, 60);
            86400 * CDiv(d, 24) + 3600 * CMod(d, 24) + 60 * CMod(m, 60) + CMod(sec, 60) == 3600 * hour + 60 * min + sec
  {
    hide CDiv;
  }

  lemma WholeSeconds(h: Hms)
    requires (MakeHms(h) >= 0 && 0 <= h.millis < 1000) || h.millis == 0
    ensures CDiv(MakeHms(h), 1000) == 3600 * h.hour + 60 * h.minute + h.second
  {
  }

  /** The day of a sum before it is settled: the day cut to what the program takes for the month's length, and the rest. */
  lemma SumDay(t: Ymd, h: Hms, dur: Duration)
    requires Date(t)
    ensures var s := Sum(t, h, dur).0;
            var max := MaxDayInMonthFor(s.year, s.month);
            var d := s.day - (if t.day > max then max else t.day) - dur.days;
            86400 * d + CDiv(Sum(t, h, dur).1, 1000) == 3600 * (h.hour + dur.hours) + 60 * (h.minute + dur.minutes) + h.second + dur.seconds
  {
    hide CDiv, CMod, MakeHms, MaxDayInMonthFor, MonthLength;
    CarrySeconds(h.second + dur.seconds, h.minute + dur.minutes, h.hour + dur.hours);
    var sec := h.second + dur.seconds;
    var min := h.minute + dur.minutes + CDiv(sec, 60);
    var hour := h.hour + dur.hours + CDiv(min, 60);
    WholeSeconds(Hms(CMod(hour, 24), CMod(min, 60), CMod(sec, 60), 0));
  }

  /**
   A sum that the months leave in a year, rather than in the months counted back from it, is exact, to the second,
   iff its days, with the carry of the clock, do not lead back beyond the first of January of that year.
   */
  lemma SumExact(t: Ymd, h: Hms, dur: Duration)
    requires Date(t) && 0 <= MakeHms(h) && 0 <= h.millis < 1000
    requires Sum(t, h, dur).0.month >= 1 && MonthsLater(t, dur).year > -4800
    ensures var s := Sum(t, h, dur);
            Seconds(Settle(s.0.year, s.0.month, s.0.day), s.1) == ExactSum(t, h, dur) <==> Number(s.0) >= Number(Ymd(s.0.year, 1, 1))
  {
    hide Settle, JulianDate, Sum, CDiv, MaxDayInMonthFor;
    var s, u := Sum(t, h, dur), MonthsLater(t, dur);
    SumMonth(t, h, dur);
    SumDay(t, h, dur);
    WholeSeconds(h);
    MaxDayReal(u.year, u.month);
    hide MonthsLater;
    assert 1 <= u.month <= 12 by {
      MonthsLaterDate(t, dur);
    }
    JulianFloor(s.0.year, s.0.month, s.0.day);
    JulianFloor(s.0.year, s.0.month, 1);
    JulianFloor(u.year, u.month, u.day);
    hide FloorNumber;
    SettleExact(s.0.year, s.0.month, s.0.day);
  }

  lemma MonthsLaterDate(t: Ymd, dur: Duration)
    requires Date(t) && MonthsLater(t, dur).year > -4800
    ensures Date(MonthsLater(t, dur))
  {
  }

  lemma CarryClock(sec: int, min: int, hour: int)
    requires sec >= 0 && min >= 0 && hour >= 0
    ensures var m := min + CDiv(sec, 60);
            var d := hour + CDiv(m, 60);
            CDiv(d, 24) >= 0 && Clock(Hms(CMod(d, 24), CMod(m, 60), CMod(sec, 60), 0))
  {
  }

  predicate NonNegative(dur: Duration) {
    && dur.years >= 0 && dur.months >= 0 && dur.days >= 0
    && dur.hours >= 0 && dur.minutes >= 0 && dur.seconds >= 0
  }

  lemma SumForward(t: Ymd, h: Hms, dur: Duration)
    requires Date(t) && Clock(h) && NonNegative(dur)
    ensures Sum(t, h, dur).0.day >= 1 && 0 <= Sum(t, h, dur).1 < MILLIS_PER_DAY && Sum(t, h, dur).1 % 1000 == 0
  {
    hide CDiv, CMod, MaxDayInMonthFor, MakeHms;
    var sec := h.second + dur.seconds;
    var min := h.minute + dur.minutes + CDiv(sec, 60);
    var hour := h.hour + dur.hours + CDiv(min, 60);
    CarryClock(sec, h.minute + dur.minutes, h.hour + dur.hours);
    var e := Hms(CMod(hour, 24), CMod(min, 60), CMod(sec, 60), 0);
    ClockToTime(e);
    WholeTime(e);
  }

  lemma WholeTime(h: Hms)
    requires h.millis == 0
    ensures MakeHms(h) % 1000 == 0
  {
  }

  /** Nothing negative: the sum is exact, and its time is a time of the day, in whole seconds. */
  lemma NonNegativeExact(t: Ymd, h: Hms, dur: Duration)
    requires Date(t) && Clock(h) && t.year > -4800 && NonNegative(dur)
    ensures var s := Sum(t, h, dur);
            && Seconds(Settle(s.0.year, s.0.month, s.0.day), s.1) == ExactSum(t, h, dur)
            && 0 <= s.1 < MILLIS_PER_DAY && s.1 % 1000 == 0
  {
    hide Settle, JulianDate, Sum, MonthsLater, CDiv, FloorNumber, ExactSum, Seconds;
    var s := Sum(t, h, dur).0;
    assert MonthsLater(t, dur).year >= t.year by {
      LaterYear(t, dur);
    }
    MonthsLaterDate(t, dur);
    SumMonth(t, h, dur);
    SumForward(t, h, dur);
    SumExact(t, h, dur);
    JulianFloor(s.year, s.month, s.day);
    JulianFloor(s.year, 1, 1);
    FirstOfYear(s.year, s.month, s.day);
  }

  lemma LaterYear(t: Ymd, dur: Duration)
    requires t.month >= 1 && dur.years >= 0 && dur.months >= 0
    ensures MonthsLater(t, dur).year >= t.year
  {
  }

  lemma MonthsBackSum(year: int)
    ensures var t, dur := Ymd(year, 3, 31), Duration(0, -3, 0, 0, 0, 0);
            Sum(t, Hms(0, 0, 0, 0), dur).0 == Ymd(year, 0, 28) && MonthsLater(t, dur) == Ymd(year - 1, 12, 31)
  {
    hide MakeHms, MaxDayInMonthFor;
    MaxDayReal(year, 0);
    var n := 12 * year - 1;
    assert n == 12 * (year - 1) + 11;
    assert n / 12 == year - 1 && n % 12 == 11;
  }

  /** Three months before the 31st of March, in any year: month 0 is taken to have 28 days. */
  lemma MonthsBackWrong(year: int)
    requires year > -4798
    ensures var t, dur := Ymd(year, 3, 31), Duration(0, -3, 0, 0, 0, 0);
            var s := Sum(t, Hms(0, 0, 0, 0), dur);
            && GetYmd(Settle(s.0.year, s.0.month, s.0.day)) == Ymd(year - 1, 12, 28)
            && MonthsLater(t, dur) == Ymd(year - 1, 12, 31)
  {
    hide GetYmd, MaxDayInMonthFor, JulianDate, Settle, Sum, MonthsLater;
    MonthsBackSum(year);
    MaxDayReal(year, 0);
    assert Settle(year, 0, 28) == JulianDate(year, 0, 28) by {
      SettledAlready(year, 0, 28);
    }
    assert JulianDate(year, 0, 28) == Number(Ymd(year - 1, 12, 28)) by {
      JulianParts(year, 0, 28, 1);
      JulianParts(year - 1, 12, 28, 0);
    }
    DateToNumber(Ymd(year - 1, 12, 28));
  }

  lemma SettledAlready(year: int, month: int, day: int)
    requires 1 <= day <= MaxDayInMonthFor(year, month)
    ensures Settle(year, month, day) == JulianDate(year, month, day)
  {
  }

  // ---------------------------------------------------------------- comparing

  /** Two date times compare as instants, except when the later is the midnight that the earlier keeps as the end of its day. */
  lemma LessIsEarlier(a: DateTime, b: DateTime)
    requires 0 <= a.time <= MILLIS_PER_DAY && 0 <= b.time <= MILLIS_PER_DAY
    ensures (a.Less(b) <==> Instant(a.date, a.time) < Instant(b.date, b.time))
       <==> !(a.date + 1 == b.date && a.time == MILLIS_PER_DAY && b.time == 0)
  {
    if a.date < b.date {
      assert b.date - a.date == 1 || Instant(b.date, b.time) - Instant(a.date, a.time) >= MILLIS_PER_DAY;
    } else if a.date > b.date {
      assert Instant(a.date, a.time) >= Instant(b.date, b.time);
    }
  }
}
