/** Dates as integers, and as text: the parser's reading and the printer's writing. */
module DateText {
  import opened Calendar
  import opened RowOrder

  predicate Digit(c: char) {
    '0' <= c <= '9'
  }

  predicate AllDigits(s: string) {
    forall i :: 0 <= i < |s| ==> Digit(s[i])
  }

  /** The number that a string of characters stands for, each counting by its distance from the zero. */
  function Value(s: string): int {
    if s == [] then 0 else Value(s[..|s| - 1]) * 10 + (s[|s| - 1] as int - '0' as int)
  }

  /** The character printed for a last digit, which is negative for a negative number. */
  function DigitOf(n: int): (c: char)
    ensures n >= 0 ==> c == (n % 10 + '0' as int) as char
    ensures c as int - '0' as int == CMod(n, 10)
  {
    assert -10 < CMod(n, 10) < 10;
    (CMod(n, 10) + '0' as int) as char
  }

  /** The last `k` decimal digits of a number. */
  function Digits(n: int, k: nat): (s: string)
    ensures |s| == k && (n >= 0 ==> AllDigits(s))
    decreases k
  {
    if k == 0 then [] else Digits(CDiv(n, 10), k - 1) + [DigitOf(n)]
  }

  function Pow10(k: nat): (p: nat)
    ensures p > 0
  {
    if k == 0 then 1 else 10 * Pow10(k - 1)
  }

  function Zeros(k: nat): string {
    seq(k, _ => '0')
  }

  /** The value of the last digits is the rest of the number. */
  lemma {:induction false} ValueOfDigits(n: nat, k: nat)
    ensures Value(Digits(n, k)) == n % Pow10(k)
  {
    if k > 0 {
      ValueOfDigits(n / 10, k - 1);
      var s := Digits(n / 10, k - 1) + [DigitOf(n)];
      assert s[..k - 1] == Digits(n / 10, k - 1);
      RestOfTen(n, Pow10(k - 1));
    }
  }

  lemma RestOfTen(n: nat, p: nat)
    requires p > 0
    ensures n % (10 * p) == n / 10 % p * 10 + n % 10
  {
    var q, r := n / 10 / p, n / 10 % p;
    assert n / 10 == q * p + r;
    assert n == (q * p + r) * 10 + n % 10 == q * (10 * p) + (r * 10 + n % 10);
    assert 0 <= r * 10 + n % 10 < 10 * p;
    DivUnique(n, 10 * p, q, r * 10 + n % 10);
  }

  lemma DivUnique(a: int, n: int, q: int, r: int)
    requires n > 0 && a == q * n + r && 0 <= r < n
    ensures a % n == r
  {
    assert a - a / n * n == a % n;
    assert (q - a / n) * n == a % n - r;
    if q > a / n {
      MulAtLeast(q - a / n, n);
    } else if q < a / n {
      MulAtLeast(a / n - q, n);
    }
  }

  lemma MulAtLeast(k: int, n: int)
    requires k >= 1 && n > 0
    ensures k * n >= n
  {
  }

  /** Writing the value of at most `k` digits with `k` digits puts zeros in front. */
  lemma {:induction false} DigitsOfValue(s: string, k: nat)
    requires AllDigits(s) && |s| <= k
    ensures Value(s) >= 0 && Digits(Value(s), k) == Zeros(k - |s|) + s
  {
    if k > 0 {
      if s == [] {
        DigitsOfValue([], k - 1);
        assert Zeros(k) == Zeros(k - 1) + ['0'];
      } else {
        var rest, c := s[..|s| - 1], s[|s| - 1];
        DigitsOfValue(rest, k - 1);
        assert s == rest + [c];
        assert Value(s) / 10 == Value(rest) && Value(s) % 10 == c as int - '0' as int;
      }
    }
  }

  // ---------------------------------------------------------------- reading

  method CharToInt(v: string, l: int, r: int) returns (re: int)
    requires 0 <= l && r < |v|
    ensures re == if l <= r + 1 then Value(v[l..r + 1]) else 0
  {
    re := 0;
    var i := l;
    while i <= r
      invariant l <= i && (i <= r + 1 || (l > r + 1 && i == l))
      invariant re == if l <= r + 1 then Value(v[l..i]) else 0
    {
      assert v[l..i + 1][..i - l] == v[l..i];
      re := re * 10 + (v[i] as int - '0' as int);
      i := i + 1;
    }
  }

  predicate NoDash(s: string) {
    forall i :: 0 <= i < |s| ==> s[i] != '-'
  }

  /** The place of the first dash. */
  function FirstDash(v: string): (l: nat)
    requires '-' in v
    ensures l < |v| && v[l] == '-' && forall i :: 0 <= i < l ==> v[i] != '-'
  {
    if v[0] == '-' then 0 else 1 + FirstDash(v[1..])
  }

  /** The place of the last dash. */
  function LastDash(v: string): (r: nat)
    requires '-' in v
    ensures r < |v| && v[r] == '-' && forall i :: r < i < |v| ==> v[i] != '-'
  {
    if v[|v| - 1] == '-' then |v| - 1 else LastDash(v[..|v| - 1])
  }

  /** A date in text: the parts before the first dash, between it and the last, and after the last. */
  function ReadDate(v: string): int
    requires '-' in v
  {
    var l, r := FirstDash(v), LastDash(v);
    Value(v[..l]) * 10000 + (if l < r then Value(v[l + 1..r]) else 0) * 100 + Value(v[r + 1..])
  }

  method ValueInitDates(v: string) returns (n: int)
    requires '-' in v
    ensures n == ReadDate(v)
  {
    hide Value;
    var l := 0;
    while v[l] != '-'
      invariant l <= FirstDash(v)
      decreases |v| - l
    {
      l := l + 1;
    }
    var r := |v| - 1;
    while v[r] != '-'
      invariant LastDash(v) <= r < |v|
      decreases r
    {
      r := r - 1;
    }
    var yy := CharToInt(v, 0, l - 1);
    var mm := CharToInt(v, l + 1, r - 1);
    var dd := CharToInt(v, r + 1, |v| - 1);
    n := yy * 10000 + mm * 100 + dd;
    assert v[0..l] == v[..l] && v[r + 1..|v|] == v[r + 1..];
  }

  function Joined(y: string, m: string, d: string): (v: string)
    ensures '-' in v
  {
    assert (y + "-" + m + "-" + d)[|y|] == '-';
    y + "-" + m + "-" + d
  }

  lemma JoinedParts(y: string, m: string, d: string)
    ensures var v, l, r := Joined(y, m, d), |y|, |y| + 1 + |m|;
            && |v| == r + 1 + |d| && v[l] == '-' && v[r] == '-'
            && v[..l] == y && v[l + 1..r] == m && v[r + 1..] == d
  {
    var a, b := y + "-", y + "-" + m + "-";
    assert Joined(y, m, d) == b + d && b == a + (m + "-");
  }

  lemma DashesFound(v: string, l: nat, r: nat)
    requires l <= r < |v| && v[l] == '-' && v[r] == '-' && NoDash(v[..l]) && NoDash(v[r + 1..])
    ensures FirstDash(v) == l && LastDash(v) == r
  {
    hide FirstDash, LastDash;
    forall i | 0 <= i < l ensures v[i] != '-' {
      assert v[..l][i] == v[i];
    }
    forall i | r < i < |v| ensures v[i] != '-' {
      assert v[r + 1..][i - r - 1] == v[i];
    }
  }

  /** Parts without a dash are read as they are. */
  lemma ReadJoined(y: string, m: string, d: string)
    requires NoDash(y) && NoDash(m) && NoDash(d)
    ensures ReadDate(Joined(y, m, d)) == Value(y) * 10000 + Value(m) * 100 + Value(d)
  {
    hide Value, FirstDash, LastDash, Joined, NoDash;
    JoinedParts(y, m, d);
    DashesFound(Joined(y, m, d), |y|, |y| + 1 + |m|);
  }

  // ---------------------------------------------------------------- writing

  /** The ten characters that the printer makes. */
  function WriteDate(n: int): (s: string)
    ensures |s| == 10
  {
    Digits(CDiv(n, 10000), 4) + "-" + Digits(CDiv(CMod(n, 10000), 100), 2) + "-" + Digits(CMod(n, 100), 2)
  }

  lemma WriteNat(n: nat)
    ensures WriteDate(n) == Digits(n / 10000, 4) + "-" + Digits(n % 10000 / 100, 2) + "-" + Digits(n % 100, 2)
  {
    hide Digits;
    assert CDiv(n, 10000) == n / 10000 && CMod(n, 100) == n % 100;
    assert CDiv(CMod(n, 10000), 100) == n % 10000 / 100 by {
      assert CMod(n, 10000) == n % 10000;
    }
  }

  /** The digits of a negative number are printed below the zero; a three comes out as a dash. */
  lemma NegativeDash(n: int)
    requires CMod(CMod(n, 100), 10) == -3
    ensures WriteDate(n)[9] == '-'
  {
    hide CDiv;
    var d := Digits(CMod(n, 100), 2);
    assert d[1] == DigitOf(CMod(n, 100));
    assert WriteDate(n)[9] == d[1];
  }

  /** A part written over what is there. */
  function Over(s: string, lo: nat, part: string): string
    requires lo + |part| <= |s|
  {
    s[..lo] + part + s[lo + |part|..]
  }

  lemma DigitsLast(n: int, k: nat)
    ensures Digits(n, k) == if k == 0 then [] else Digits(CDiv(n, 10), k - 1) + [DigitOf(n)]
  {
  }

  lemma OverMore(s: string, i: nat, part: string, c: char)
    requires i + 1 + |part| <= |s|
    ensures |Over(s, i + 1, part)| == |s| && Over(s, i + 1, part)[i := c] == Over(s, i, [c] + part)
  {
  }

  lemma OverNothing(s: string, i: nat)
    requires i <= |s|
    ensures Over(s, i, "") == s
  {
  }

  /** Writes the digits of one part backwards into `re[lo..hi]`. */
  method PutDigits(re: array<char>, lo: nat, hi: nat, number: int)
    requires lo <= hi <= re.Length
    modifies re
    ensures re[..] == Over(old(re[..]), lo, Digits(number, hi - lo))
  {
    hide CDiv, DigitOf, Over, Digits;
    var n, i := number, hi - 1;
    ghost var part, s := "", re[..];
    OverNothing(s, hi);
    while i >= lo
      invariant lo - 1 <= i < hi && |part| == hi - 1 - i
      invariant re[..] == Over(s, i + 1, part)
      invariant Digits(n, hi - lo - |part|) + part == Digits(number, hi - lo)
    {
      DigitsLast(n, hi - lo - |part|);
      OverMore(s, i, part, DigitOf(n));
      re[i] := DigitOf(n);
      part := [DigitOf(n)] + part;
      n := CDiv(n, 10);
      i := i - 1;
    }
    DigitsLast(n, 0);
    assert part == Digits(number, hi - lo);
  }

  lemma OverTwice(s: string, lo: nat, one: string, two: string)
    requires lo + |one| + |two| <= |s|
    ensures Over(Over(s, lo, one), lo + |one|, two) == Over(s, lo, one + two)
  {
  }

  lemma DashOver(s: string, lo: nat)
    requires lo < |s|
    ensures s[lo := '-'] == Over(s, lo, "-")
  {
  }

  method IntToChar(n: int) returns (re: array<char>)
    ensures fresh(re) && re.Length == 11 && re[..10] == WriteDate(n) && re[10] == 0 as char
  {
    hide CDiv, CMod, Digits, Over;
    re := new char[11](_ => 0 as char);
    ghost var y, m, d := Digits(CDiv(n, 10000), 4), Digits(CDiv(CMod(n, 10000), 100), 2), Digits(CMod(n, 100), 2);
    ghost var s := re[..];
    PutDigits(re, 0, 4, CDiv(n, 10000));
    DashOver(re[..], 4);
    re[4] := '-';
    OverTwice(s, 0, y, "-");
    PutDigits(re, 5, 7, CDiv(CMod(n, 10000), 100));
    OverTwice(s, 0, y + "-", m);
    DashOver(re[..], 7);
    re[7] := '-';
    OverTwice(s, 0, y + "-" + m, "-");
    PutDigits(re, 8, 10, CMod(n, 100));
    OverTwice(s, 0, y + "-" + m + "-", d);
    OverAll(s, WriteDate(n));
    assert re[..10] == re[..][..10] && re[10] == re[..][10];
  }

  lemma OverAll(s: string, part: string)
    requires |part| <= |s|
    ensures Over(s, 0, part) == part + s[|part|..]
  {
  }

  // ---------------------------------------------------------------- there and back

  lemma DigitsNoDash(n: nat, k: nat)
    ensures NoDash(Digits(n, k))
  {
    var s := Digits(n, k);
    assert forall i :: 0 <= i < |s| ==> Digit(s[i]);
  }

  /** The printed form of a date is read as the same date iff its year has at most four digits. */
  lemma WriteThenRead(n: nat)
    ensures '-' in WriteDate(n)
    ensures ReadDate(WriteDate(n)) == n % 100000000
    ensures ReadDate(WriteDate(n)) == n <==> n / 10000 <= 9999
  {
    hide Value, Digits, ReadDate, Pow10;
    WriteNat(n);
    hide WriteDate;
    var y, m, d := n / 10000, n % 10000 / 100, n % 100;
    DigitsNoDash(y, 4);
    DigitsNoDash(m, 2);
    DigitsNoDash(d, 2);
    ReadJoined(Digits(y, 4), Digits(m, 2), Digits(d, 2));
    ValueOfDigits(y, 4);
    ValueOfDigits(m, 2);
    ValueOfDigits(d, 2);
    PowersUsed();
    assert Joined(Digits(y, 4), Digits(m, 2), Digits(d, 2)) == WriteDate(n);
    LastEight(n, y, m, d);
  }

  lemma LastFour(n: nat)
    ensures n % 10000 / 100 % 100 * 100 + n % 100 % 100 == n % 10000
  {
    var a, b := n / 10000, n % 10000;
    assert n == (100 * a + b / 100) * 100 + b % 100;
    DivUnique(n, 100, 100 * a + b / 100, b % 100);
  }

  lemma LastEight(n: nat, y: nat, m: nat, d: nat)
    requires y == n / 10000 && m == n % 10000 / 100 && d == n % 100
    ensures y % 10000 * 10000 + m % 100 * 100 + d % 100 == n % 100000000
    ensures n % 100000000 == n <==> y <= 9999
  {
    LastFour(n);
    DivUnique(n, 100000000, y / 10000, y % 10000 * 10000 + n % 10000);
  }

  lemma {:induction false} ValueBound(s: string)
    requires AllDigits(s)
    ensures 0 <= Value(s) < Pow10(|s|)
  {
    if s != [] {
      ValueBound(s[..|s| - 1]);
    }
  }

  lemma {:induction false} Pow10Grows(i: nat, k: nat)
    requires i <= k
    ensures Pow10(i) <= Pow10(k)
  {
    if i < k {
      Pow10Grows(i, k - 1);
    }
  }

  lemma Hundreds(a: int, e: int)
    requires 0 <= e < 100
    ensures (100 * a + e) / 100 == a && (100 * a + e) % 100 == e
  {
  }

  lemma TenThousands(a: int, e: int)
    requires 0 <= e < 10000
    ensures (10000 * a + e) / 10000 == a && (10000 * a + e) % 10000 == e
  {
  }

  lemma PartsOf(y: nat, m: nat, d: nat)
    requires m < 100 && d < 100
    ensures var n := y * 10000 + m * 100 + d; n / 10000 == y && n % 10000 / 100 == m && n % 100 == d
  {
    TenThousands(y, m * 100 + d);
    Hundreds(m, d);
    Hundreds(100 * y + m, d);
  }

  /** A date that was read is printed with zeros in front of the parts that were too short. */
  lemma ReadThenWrite(y: string, m: string, d: string)
    requires AllDigits(y) && AllDigits(m) && AllDigits(d) && |y| <= 4 && |m| <= 2 && |d| <= 2
    ensures ReadDate(Joined(y, m, d)) >= 0
    ensures WriteDate(ReadDate(Joined(y, m, d))) == Joined(Zeros(4 - |y|) + y, Zeros(2 - |m|) + m, Zeros(2 - |d|) + d)
  {
    hide Value, Digits, ReadDate;
    ReadJoined(y, m, d);
    ValueBound(y);
    ValueBound(m);
    ValueBound(d);
    Pow10Grows(|m|, 2);
    Pow10Grows(|d|, 2);
    assert Pow10(2) == 100;
    PartsOf(Value(y), Value(m), Value(d));
    DigitsOfValue(y, 4);
    DigitsOfValue(m, 2);
    DigitsOfValue(d, 2);
    WriteNat(ReadDate(Joined(y, m, d)));
  }

  // ---------------------------------------------------------------- order

  /** A common length in front: the first parts decide, and if they are the same, the rest. */
  lemma {:induction false} TextLessAppend(p: string, q: string, x: string, y: string)
    requires |p| == |q|
    ensures TextLess(p + x, q + y) <==> TextLess(p, q) || (p == q && TextLess(x, y))
  {
    hide TextLess;
    if p == [] {
      assert p + x == x && q + y == y;
      TextNotLess([]);
    } else {
      var s, t := p + x, q + y;
      assert s[0] == p[0] && t[0] == q[0] && s[1..] == p[1..] + x && t[1..] == q[1..] + y;
      if p[0] == q[0] {
        TextLessRest(s, t);
        TextLessRest(p, q);
        TextLessAppend(p[1..], q[1..], x, y);
        assert p == [p[0]] + p[1..] && q == [q[0]] + q[1..];
      } else {
        TextLessFirst(s, t);
        TextLessFirst(p, q);
      }
    }
  }

  lemma TextNotLess(s: string)
    ensures !TextLess(s, s)
  {
  }

  lemma {:induction false} DigitsOrdered(a: nat, b: nat, k: nat)
    requires a < Pow10(k) && b < Pow10(k)
    ensures TextLess(Digits(a, k), Digits(b, k)) <==> a < b
    ensures Digits(a, k) == Digits(b, k) <==> a == b
  {
    hide TextLess;
    if k == 0 {
      TextNotLess([]);
    } else {
      DigitsOrdered(a / 10, b / 10, k - 1);
      var c, d := DigitOf(a), DigitOf(b);
      TextLessAppend(Digits(a / 10, k - 1), Digits(b / 10, k - 1), [c], [d]);
      OneOrdered(c, d);
      var s, t := Digits(a, k), Digits(b, k);
      assert s[..k - 1] == Digits(a / 10, k - 1) && t[..k - 1] == Digits(b / 10, k - 1) && s[k - 1] == c && t[k - 1] == d;
    }
  }

  lemma OneOrdered(c: char, d: char)
    ensures TextLess([c], [d]) <==> c < d
  {
    if c == d {
      TextNotLess([c]);
    } else {
      TextLessFirst([c], [d]);
    }
  }

  /** The month and the day, with their dashes. */
  lemma TailOrdered(m: string, d: string, o: string, e: string)
    requires |m| == |o| && |d| == |e|
    ensures TextLess(("-" + m) + ("-" + d), ("-" + o) + ("-" + e)) <==> TextLess(m, o) || (m == o && TextLess(d, e))
  {
    hide TextLess;
    TextLessAppend("-" + m, "-" + o, "-" + d, "-" + e);
    DashFirst(m, o);
    DashFirst(d, e);
  }

  lemma DashFirst(m: string, o: string)
    requires |m| == |o|
    ensures TextLess("-" + m, "-" + o) <==> TextLess(m, o)
    ensures "-" + m == "-" + o <==> m == o
  {
    hide TextLess;
    TextLessAppend("-", "-", m, o);
    TextNotLess("-");
    assert ("-" + m)[1..] == m && ("-" + o)[1..] == o;
  }

  /** Dates compare as numbers like their printed forms compare as texts. */
  lemma DatesOrdered(n: nat, k: nat)
    requires n < 100000000 && k < 100000000
    ensures TextLess(WriteDate(n), WriteDate(k)) <==> n < k
  {
    hide TextLess, Digits, Pow10;
    var y, m, d := n / 10000, n % 10000 / 100, n % 100;
    var z, o, e := k / 10000, k % 10000 / 100, k % 100;
    PowersUsed();
    DigitsOrdered(y, z, 4);
    DigitsOrdered(m, o, 2);
    DigitsOrdered(d, e, 2);
    var s, t := ("-" + Digits(m, 2)) + ("-" + Digits(d, 2)), ("-" + Digits(o, 2)) + ("-" + Digits(e, 2));
    WriteParts(n);
    WriteParts(k);
    TextLessAppend(Digits(y, 4), Digits(z, 4), s, t);
    TailOrdered(Digits(m, 2), Digits(d, 2), Digits(o, 2), Digits(e, 2));
    NumberParts(n);
    NumberParts(k);
    hide WriteDate;
    PartsOrdered(y, m, d, z, o, e);
  }

  lemma NumberParts(n: nat)
    ensures n == n / 10000 * 10000 + n % 10000 / 100 * 100 + n % 100 && n % 10000 / 100 < 100
  {
    LastFour(n);
  }

  /** Dates compare as numbers like their years, then their months, then their days. */
  lemma PartsOrdered(y: nat, m: nat, d: nat, z: nat, o: nat, e: nat)
    requires m < 100 && d < 100 && o < 100 && e < 100
    ensures y * 10000 + m * 100 + d < z * 10000 + o * 100 + e <==> y < z || (y == z && (m < o || (m == o && d < e)))
  {
  }

  lemma PowersUsed()
    ensures Pow10(4) == 10000 && Pow10(2) == 100
  {
  }

  lemma WriteParts(n: nat)
    ensures WriteDate(n) == Digits(n / 10000, 4) + (("-" + Digits(n % 10000 / 100, 2)) + ("-" + Digits(n % 100, 2)))
  {
    hide Digits;
    WriteNat(n);
  }
}
