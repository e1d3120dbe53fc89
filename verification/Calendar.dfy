/** Day numbers and calendar dates, with the truncating division of C. */
module Calendar {

  function CDiv(a: int, b: int): int
    requires b > 0
  {
    if a >= 0 then a / b else -((-a) / b)
  }

  function CMod(a: int, b: int): int
    requires b > 0
  {
    a - b * CDiv(a, b)
  }

  datatype Ymd = Ymd(year: int, month: int, day: int)

  /** The day number of a calendar date. */
  function JulianDate(year: int, month: int, day: int): int {
    var a := CDiv(14 - month, 12);
    var y := year + 4800 - a;
    var m := month + 12 * a - 3;
    day + CDiv(153 * m + 2, 5) + y * 365 + CDiv(y, 4) - CDiv(y, 100) + CDiv(y, 400) - 32045
  }

  function GetYmd(jday: int): Ymd {
    var a := jday + 32044;
    var b := CDiv(4 * a + 3, 146097);
    var c := a - CDiv(b * 146097, 4);
    var d := CDiv(4 * c + 3, 1461);
    var e := c - CDiv(1461 * d, 4);
    var m := CDiv(5 * e + 2, 153);
    Ymd(b * 100 + d - 4800 + CDiv(m, 10), m + 3 - 12 * CDiv(m, 10), e - CDiv(153 * m + 2, 5) + 1)
  }

  /** The number of days the program gives a month. */
  function MaxDayInMonthFor(year: int, month: int): (n: int)
    ensures 28 <= n <= 31
  {
    var m := CMod(month - 1, 12) + 1;
    var y := year + CDiv(m - 1, 12);
    if m == 1 || m == 3 || m == 5 || m == 7 || m == 8 || m == 10 || m == 12 then 31
    else if m == 4 || m == 6 || m == 9 || m == 11 then 30
    else if m == 2 && (CMod(y, 400) == 0 || (CMod(y, 100) != 0 && CMod(y, 4) == 0)) then 29
    else 28
  }

  // ---------------------------------------------------------------- dates the calendar has

  predicate Leap(year: int) {
    year % 400 == 0 || (year % 100 != 0 && year % 4 == 0)
  }

  /** The Gregorian lengths of the months. */
  function MonthLength(year: int, month: int): int
    requires 1 <= month <= 12
  {
    if month == 2 then (if Leap(year) then 29 else 28)
    else if month == 4 || month == 6 || month == 9 || month == 11 then 30
    else 31
  }

  /** From the first of March of the year 4801 BC on. */
  predicate InRange(year: int, month: int) {
    year > -4800 || (year == -4800 && month >= 3)
  }

  predicate Date(t: Ymd) {
    1 <= t.month <= 12 && 1 <= t.day <= MonthLength(t.year, t.month) && InRange(t.year, t.month)
  }

  // ---------------------------------------------------------------- years that begin in March

  /** The days of the `y` years before, counted from March to February. */
  function YearDays(y: int): int {
    365 * y + y / 4 - y / 100 + y / 400
  }

  /** The days of the `m` months before, counted from March. */
  function MonthDays(m: int): int {
    (153 * m + 2) / 5
  }

  lemma JulianOfMarch(year: int, month: int, day: int)
    requires 1 <= month <= 12 && InRange(year, month)
    ensures var a := if month <= 2 then 1 else 0;
            JulianDate(year, month, day) == day - 1 + MonthDays(month + 12 * a - 3) + YearDays(year + 4800 - a) - 32044
  {
    hide CDiv;
    var a := if month <= 2 then 1 else 0;
    var y := year + 4800 - a;
    CDivRounds(14 - month, 12);
    assert (14 - month) / 12 == a;
    CDivRounds(153 * (month + 12 * a - 3) + 2, 5);
    CDivRounds(y, 4);
    CDivRounds(y, 100);
    CDivRounds(y, 400);
  }

  lemma CenturyDays(b: int, d: int)
    requires 0 <= b && 0 <= d < 100
    ensures YearDays(100 * b + d) == b * 146097 / 4 + 1461 * d / 4
  {
    assert (100 * b + d) / 100 == b;
    assert (100 * b + d) / 4 == 25 * b + d / 4;
    assert (100 * b + d) / 400 == b / 4;
    assert b * 146097 / 4 == 36524 * b + b / 4;
    assert 1461 * d / 4 == 365 * d + d / 4;
  }

  /** The century of a day number. */
  lemma Century(a: int, b: int, c: int)
    requires 0 <= a && b == (4 * a + 3) / 146097 && c == a - b * 146097 / 4
    ensures b >= 0 && 0 <= c <= 36524
  {
  }

  lemma YearInCentury(c: int, d: int, e: int)
    requires 0 <= c <= 36524 && d == (4 * c + 3) / 1461 && e == c - 1461 * d / 4
    ensures 0 <= d < 100 && 0 <= e <= 365
  {
  }

  lemma MonthInYear(e: int, m: int)
    requires 0 <= e <= 365 && m == (5 * e + 2) / 153
    ensures 0 <= m <= 11 && 0 <= e - MonthDays(m)
    ensures e == 365 ==> m == 11 && e - MonthDays(m) == 28
    ensures e < 365 ==> e - MonthDays(m) < (if m == 11 then 28 else if m == 1 || m == 3 || m == 6 || m == 8 then 30 else 31)
  {
  }

  lemma QuarterOf(a: int, x: int)
    ensures (4 * a + x) / 4 == a + x / 4
  {
  }

  lemma Times(k: int, x: int)
    ensures (4 * k + 1) * x == 4 * (k * x) + x && (4 * k + 1) * (x + 1) == 4 * (k * x) + x + 4 * k + 1
  {
  }

  /** `kx` is the product of `k` and `x`. */
  lemma LastQuarter(x: int, c: int, r: int, k: int, kx: int)
    requires 4 * c + 3 < 4 * kx + x + 4 * k + 1 && r == kx + x / 4 && c - r == k
    ensures x % 4 == 3
  {
  }

  lemma LastOfFour(x: int, c: int, r: int, n: int)
    requires 4 * c + 3 < n * (x + 1) && r == n * x / 4 && c - r == (n - 1) / 4 && n % 4 == 1
    ensures x % 4 == 3
  {
    var k := n / 4;
    assert n == 4 * k + 1 && (n - 1) / 4 == k;
    Times(k, x);
    QuarterOf(k * x, x);
    LastQuarter(x, c, r, k, k * x);
  }

  /** A year has a last day of February only when it ends in a leap year. */
  lemma LastDay(a: int, b: int, c: int, d: int, e: int)
    requires 0 <= a && b == (4 * a + 3) / 146097 && c == a - b * 146097 / 4
    requires d == (4 * c + 3) / 1461 && e == c - 1461 * d / 4 && e == 365
    ensures Leap(100 * b + d + 1)
  {
    hide Leap;
    Century(a, b, c);
    YearInCentury(c, d, e);
    LastOfFour(d, c, 1461 * d / 4, 1461);
    if d == 99 {
      assert 1461 * 99 / 4 == 36159;
      LastOfFour(b, a, b * 146097 / 4, 146097);
    }
    LeapInCentury(b, d);
  }

  lemma LeapInCentury(b: int, d: int)
    requires 0 <= d < 100 && d % 4 == 3 && (d == 99 ==> b % 4 == 3)
    ensures Leap(100 * b + d + 1)
  {
    if d == 99 {
      assert 100 * b + d + 1 == 400 * (b / 4 + 1);
      Multiple400(b / 4 + 1);
    } else {
      Hundreds(b, d + 1);
      assert 100 * b + d + 1 == 4 * (25 * b + (d + 1) / 4);
      Multiple4(25 * b + (d + 1) / 4);
    }
  }

  lemma Multiple400(k: int)
    ensures 400 * k % 400 == 0
  {
  }

  lemma Multiple4(k: int)
    ensures 4 * k % 4 == 0
  {
  }

  lemma Hundreds(b: int, e: int)
    requires 0 <= e < 100
    ensures (100 * b + e) % 100 == e
  {
  }

  lemma FourHundreds(b: int, e: int)
    requires 0 <= e < 400
    ensures (400 * b + e) % 400 == e
  {
  }

  lemma Fours(b: int, e: int)
    requires 0 <= e < 4
    ensures (4 * b + e) % 4 == e
  {
  }

  lemma LeapShift(year: int)
    ensures Leap(year + 4800) == Leap(year)
  {
    FourHundreds(year / 400 + 12, year % 400);
    Hundreds(year / 100 + 48, year % 100);
    Fours(year / 4 + 1200, year % 4);
  }

  lemma CDivRounds(a: int, b: int)
    requires a >= 0 && b > 0
    ensures CDiv(a, b) == a / b
  {
  }

  /** From the first representable day on, nothing negative is divided. */
  lemma GetYmdRounds(j: int, a: int, b: int, c: int, d: int, e: int, m: int)
    requires 0 <= a == j + 32044 && b == (4 * a + 3) / 146097 && c == a - b * 146097 / 4
    requires d == (4 * c + 3) / 1461 && e == c - 1461 * d / 4 && m == (5 * e + 2) / 153
    requires 0 <= b && 0 <= c && 0 <= d && 0 <= e && 0 <= m
    ensures GetYmd(j) == Ymd(b * 100 + d - 4800 + m / 10, m + 3 - 12 * (m / 10), e - MonthDays(m) + 1)
  {
    hide CDiv;
    CDivRounds(4 * a + 3, 146097);
    CDivRounds(b * 146097, 4);
    CDivRounds(4 * c + 3, 1461);
    CDivRounds(1461 * d, 4);
    CDivRounds(5 * e + 2, 153);
    CDivRounds(153 * m + 2, 5);
    CDivRounds(m, 10);
  }

  /** What the steps of GetYmd find: century, year, month and day, all counted from March. */
  lemma GetYmdParts(j: int) returns (b: int, d: int, m: int, e: int)
    requires j >= -32044
    ensures 0 <= b && 0 <= d < 100 && 0 <= e <= 365 && m == (5 * e + 2) / 153
    ensures j + 32044 == e + YearDays(100 * b + d)
    ensures e == 365 ==> Leap(100 * b + d + 1)
    ensures var k := m / 10; GetYmd(j) == Ymd(b * 100 + d - 4800 + k, m + 3 - 12 * k, e - MonthDays(m) + 1)
  {
    hide Leap, YearDays, GetYmd, CDiv;
    var a := j + 32044;
    b := (4 * a + 3) / 146097;
    var c := a - b * 146097 / 4;
    Century(a, b, c);
    d := (4 * c + 3) / 1461;
    e := c - 1461 * d / 4;
    YearInCentury(c, d, e);
    m := (5 * e + 2) / 153;
    MonthInYear(e, m);
    if e == 365 {
      LastDay(a, b, c, d, e);
    }
    CenturyDays(b, d);
    GetYmdRounds(j, a, b, c, d, e, m);
  }

  /** From the first representable day on, every day number has a date, and the date has that number. */
  lemma NumberToDate(j: int)
    requires j >= -32044
    ensures Date(GetYmd(j)) && JulianDate(GetYmd(j).year, GetYmd(j).month, GetYmd(j).day) == j
  {
    hide JulianDate, MaxDayInMonthFor, GetYmd, Leap, YearDays, MonthDays;
    var t := GetYmd(j);
    var b, d, m, e := GetYmdParts(j);
    MonthInYear(e, m);
    LeapShift(t.year);
    JulianOfMarch(t.year, t.month, t.day);
  }

  function Number(t: Ymd): int {
    JulianDate(t.year, t.month, t.day)
  }

  /** The order of the calendar. */
  predicate Before(t: Ymd, u: Ymd) {
    || t.year < u.year
    || (t.year == u.year && t.month < u.month)
    || (t.year == u.year && t.month == u.month && t.day < u.day)
  }

  function NextDay(t: Ymd): Ymd
    requires 1 <= t.month <= 12
  {
    if t.day < MonthLength(t.year, t.month) then Ymd(t.year, t.month, t.day + 1)
    else if t.month < 12 then Ymd(t.year, t.month + 1, 1)
    else Ymd(t.year + 1, 1, 1)
  }

  lemma YearLength(y: int)
    ensures YearDays(y + 1) - YearDays(y) == if Leap(y + 1) then 366 else 365
  {
    FloorNext(y, 4);
    FloorNext(y, 100);
    FloorNext(y, 400);
    LeapNested(y + 1);
  }

  lemma FloorNext(y: int, n: int)
    requires n == 4 || n == 100 || n == 400
    ensures (y + 1) / n - y / n == if (y + 1) % n == 0 then 1 else 0
  {
  }

  lemma LeapNested(y: int)
    ensures (y % 400 == 0 ==> y % 100 == 0) && (y % 100 == 0 ==> y % 4 == 0)
  {
    var q, r := y / 400, y % 400;
    assert y / 100 == 4 * q + r / 100;
    assert y % 100 == r % 100;
    var p, e := y / 100, y % 100;
    assert y / 4 == 25 * p + e / 4;
    assert y % 4 == e % 4;
  }

  lemma YearsGrow(y: int, z: int)
    requires 0 <= y <= z
    ensures YearDays(y) <= YearDays(z)
    decreases z - y
  {
    if y < z {
      YearLength(y);
      YearsGrow(y + 1, z);
    }
  }

  /** The year of a date counted from March, and the day in it. */
  function MarchYear(t: Ymd): int {
    t.year + 4800 - (if t.month <= 2 then 1 else 0)
  }

  function MarchDay(t: Ymd): int {
    t.day - 1 + MonthDays(if t.month <= 2 then t.month + 9 else t.month - 3)
  }

  lemma MarchNumber(t: Ymd)
    requires Date(t)
    ensures Number(t) == MarchDay(t) + YearDays(MarchYear(t)) - 32044
    ensures 0 <= MarchYear(t) && 0 <= MarchDay(t) < YearDays(MarchYear(t) + 1) - YearDays(MarchYear(t))
  {
    hide JulianDate, YearDays, Leap;
    JulianOfMarch(t.year, t.month, t.day);
    YearLength(MarchYear(t));
    LeapShift(t.year);
  }

  lemma MarchDayGrows(t: Ymd, u: Ymd)
    requires Date(t) && Date(u) && Before(t, u) && MarchYear(t) == MarchYear(u)
    ensures MarchDay(t) < MarchDay(u)
  {
    hide Leap;
  }

  /** Day numbers are in the order of the calendar. */
  lemma NumbersGrow(t: Ymd, u: Ymd)
    requires Date(t) && Date(u) && Before(t, u)
    ensures Number(t) < Number(u)
  {
    hide Number, MarchDay, YearDays, MonthLength;
    MarchNumber(t);
    MarchNumber(u);
    if MarchYear(t) == MarchYear(u) {
      MarchDayGrows(t, u);
    } else {
      assert MarchYear(t) < MarchYear(u);
      YearsGrow(MarchYear(t) + 1, MarchYear(u));
    }
  }

  /** The round trip from the calendar. */
  lemma DateToNumber(t: Ymd)
    requires Date(t)
    ensures Number(t) >= -32044 && GetYmd(Number(t)) == t
  {
    hide YearDays, GetYmd, MonthLength, JulianDate, MarchDay;
    MarchNumber(t);
    YearsGrow(0, MarchYear(t));
    assert YearDays(0) == 0 by {
      YearDaysZero();
    }
    var u := GetYmd(Number(t));
    NumberToDate(Number(t));
    if Before(t, u) {
      NumbersGrow(t, u);
    } else if Before(u, t) {
      NumbersGrow(u, t);
    }
  }

  lemma YearDaysZero()
    ensures YearDays(0) == 0
  {
  }

  /** The next day of the calendar has the next number. */
  lemma NextNumber(t: Ymd)
    requires Date(t)
    ensures Date(NextDay(t)) && Number(NextDay(t)) == Number(t) + 1
  {
    hide YearDays, Number, Leap;
    var u := NextDay(t);
    MarchNumber(t);
    MarchNumber(u);
    if t.month == 2 {
      YearLength(MarchYear(t));
      LeapShift(t.year);
    }
  }

  /** Before the first date the numbers collide: C divides towards zero. */
  lemma FirstDateCollides()
    ensures Number(Ymd(-4800, 2, 29)) == Number(Ymd(-4800, 3, 1)) && 29 == MonthLength(-4800, 2)
  {
  }
}
