/** Calendar dates as plain labels: Gregorian day numbers, `YYYY-MM-DD` keys and their order. */
module Dates {
  import opened Numerals

  datatype Date = Date(year: int, month: int, day: int)

  // ---------- the Gregorian calendar ----------

  predicate IsLeap(year: int) {
    year % 4 == 0 && (year % 100 != 0 || year % 400 == 0)
  }

  function DaysInMonth(year: int, month: int): (n: int)
    ensures 28 <= n <= 31
  {
    if month == 2 then if IsLeap(year) then 29 else 28
    else if month == 4 || month == 6 || month == 9 || month == 11 then 30
    else 31
  }

  predicate IsMonth(month: int) {
    1 <= month <= 12
  }

  predicate IsDate(d: Date) {
    IsMonth(d.month) && 1 <= d.day <= DaysInMonth(d.year, d.month)
  }

  function DaysBeforeYear(year: int): int {
    365 * (year - 1) + (year - 1) / 4 - (year - 1) / 100 + (year - 1) / 400
  }

  function DaysBeforeMonth(year: int, month: int): (n: int)
    requires IsMonth(month)
    ensures n >= 28 * (month - 1)
    decreases month
  {
    if month == 1 then 0 else DaysBeforeMonth(year, month - 1) + DaysInMonth(year, month - 1)
  }

  /** Days since 1970-01-01, the day number behind `Date.UTC`.  The day may be out of range. */
  function DayNumber(year: int, month: int, day: int): int
    requires IsMonth(month)
  {
    DaysBeforeYear(year) - DaysBeforeYear(1970) + DaysBeforeMonth(year, month) + day - 1
  }

  function NumberOf(d: Date): int
    requires IsMonth(d.month)
  {
    DayNumber(d.year, d.month, d.day)
  }

  /** Monday is 0.  The first of January 1970 was a Thursday. */
  function Weekday(n: int): (w: int)
    ensures 0 <= w < 7
  {
    (n + 3) % 7
  }

  /** Counting on from the Monday of a day's week. */
  lemma WeekdayFromMonday(n: int, k: int)
    ensures Weekday(n - Weekday(n) + k) == k % 7
  {
    var q := (n + 3) / 7;
    assert n - Weekday(n) + k + 3 == (q + k / 7) * 7 + k % 7;
    DivideUnique(n - Weekday(n) + k + 3, 7, q + k / 7, k % 7);
  }

  lemma CenturiesAreFourfold(year: int)
    ensures year % 100 == 0 ==> year % 4 == 0
    ensures year % 400 == 0 ==> year % 100 == 0
  {
    if year % 100 == 0 {
      DivideUnique(year, 4, 25 * (year / 100), 0);
    }
    if year % 400 == 0 {
      DivideUnique(year, 100, 4 * (year / 400), 0);
    }
  }

  lemma LeapStep(year: int)
    ensures DaysBeforeYear(year + 1) == DaysBeforeYear(year) + 365 + (if IsLeap(year) then 1 else 0)
  {
    QuarterStep(year, 4);
    QuarterStep(year, 100);
    QuarterStep(year, 400);
    CenturiesAreFourfold(year);
  }

  lemma YearLength(year: int)
    ensures DaysBeforeMonth(year, 12) + DaysInMonth(year, 12) == 365 + (if IsLeap(year) then 1 else 0)
    ensures DaysBeforeYear(year + 1)
            == DaysBeforeYear(year) + DaysBeforeMonth(year, 12) + DaysInMonth(year, 12)
  {
    MonthStarts(year);
    LeapStep(year);
  }

  lemma MonthStarts(year: int)
    ensures DaysBeforeMonth(year, 12) == 334 + (if IsLeap(year) then 1 else 0)
  {
    assert DaysBeforeMonth(year, 2) == 31;
    assert DaysBeforeMonth(year, 4) == DaysBeforeMonth(year, 2) + DaysInMonth(year, 2) + 31;
    assert DaysBeforeMonth(year, 6) == DaysBeforeMonth(year, 4) + 61;
    assert DaysBeforeMonth(year, 8) == DaysBeforeMonth(year, 6) + 61;
    assert DaysBeforeMonth(year, 10) == DaysBeforeMonth(year, 8) + 61;
    assert DaysBeforeMonth(year, 12) == DaysBeforeMonth(year, 10) + 61;
  }

  lemma QuarterStep(y: int, n: int)
    requires n == 4 || n == 100 || n == 400
    ensures y / n == (y - 1) / n + (if y % n == 0 then 1 else 0)
  {
  }

  function NextMonth(year: int, month: int): (int, int) {
    if month == 12 then (year + 1, 1) else (year, month + 1)
  }

  function PreviousMonth(year: int, month: int): (int, int) {
    if month == 1 then (year - 1, 12) else (year, month - 1)
  }

  /** One past a month's last day is the first of the next month. */
  lemma MonthRollsOver(year: int, month: int)
    requires IsMonth(month)
    ensures var (y, m) := NextMonth(year, month);
            IsMonth(m) && DayNumber(y, m, 1) == DayNumber(year, month, 1) + DaysInMonth(year, month)
  {
    if month == 12 {
      YearLength(year);
    }
  }

  /** What `new Date(Date.UTC(year, month - 1, day))` names when `day` is out of range. */
  function Normalise(year: int, month: int, day: int): (d: Date)
    requires IsMonth(month)
    ensures IsDate(d)
    ensures 1 <= day <= DaysInMonth(year, month) ==> d == Date(year, month, day)
    decreases day < 1, if day < 1 then -day else day
  {
    if day < 1 then
      var (y, m) := PreviousMonth(year, month);
      Normalise(y, m, day + DaysInMonth(y, m))
    else if day > DaysInMonth(year, month) then
      var (y, m) := NextMonth(year, month);
      Normalise(y, m, day - DaysInMonth(year, month))
    else Date(year, month, day)
  }

  lemma {:induction false} NormaliseKeepsNumber(year: int, month: int, day: int)
    requires IsMonth(month)
    ensures NumberOf(Normalise(year, month, day)) == DayNumber(year, month, day)
    decreases day < 1, if day < 1 then -day else day
  {
    if day < 1 {
      var (y, m) := PreviousMonth(year, month);
      MonthRollsOver(y, m);
      assert NextMonth(y, m) == (year, month);
      NormaliseKeepsNumber(y, m, day + DaysInMonth(y, m));
    } else if day > DaysInMonth(year, month) {
      var (y, m) := NextMonth(year, month);
      MonthRollsOver(year, month);
      NormaliseKeepsNumber(y, m, day - DaysInMonth(year, month));
    }
  }

  // ---------- calendar order ----------

  predicate Before(a: Date, b: Date) {
    a.year < b.year || (a.year == b.year && (a.month < b.month || (a.month == b.month && a.day < b.day)))
  }

  lemma {:induction false} MonthsInOrder(year: int, m: int, n: int)
    requires 1 <= m < n <= 12
    ensures DaysBeforeMonth(year, m) + DaysInMonth(year, m) <= DaysBeforeMonth(year, n)
    decreases n
  {
    if m < n - 1 {
      MonthsInOrder(year, m, n - 1);
    }
  }

  lemma {:induction false} YearsInOrder(y: int, z: int)
    requires y < z
    ensures DaysBeforeYear(y) + DaysBeforeMonth(y, 12) + DaysInMonth(y, 12) <= DaysBeforeYear(z)
    decreases z - y
  {
    YearLength(y);
    if y + 1 < z {
      YearsInOrder(y + 1, z);
    }
  }

  lemma BeforeHasSmallerNumber(a: Date, b: Date)
    requires IsDate(a) && IsDate(b) && Before(a, b)
    ensures NumberOf(a) < NumberOf(b)
  {
    if a.year < b.year {
      YearsInOrder(a.year, b.year);
      if a.month < 12 {
        MonthsInOrder(a.year, a.month, 12);
      }
    } else if a.month < b.month {
      MonthsInOrder(a.year, a.month, b.month);
    }
  }

  /** Day numbers are the calendar order, and name each date once. */
  lemma NumberOrder(a: Date, b: Date)
    requires IsDate(a) && IsDate(b)
    ensures NumberOf(a) < NumberOf(b) <==> Before(a, b)
    ensures NumberOf(a) == NumberOf(b) <==> a == b
  {
    if Before(a, b) {
      BeforeHasSmallerNumber(a, b);
    } else if Before(b, a) {
      BeforeHasSmallerNumber(b, a);
    }
  }

  // ---------- keys ----------

  const FIRST_YEAR := 1000
  const LAST_YEAR := 9999

  predicate FourDigitYear(year: int) {
    FIRST_YEAR <= year <= LAST_YEAR
  }

  function TwoDigits(n: nat): string {
    PadZeros(NatText(n), 2)
  }

  /** `YYYY-MM`. */
  function MonthKey(year: nat, month: nat): string {
    NatText(year) + "-" + TwoDigits(month)
  }

  /** `YYYY-MM-DD`. */
  function DateKey(d: Date): string
    requires d.year >= 0 && d.month >= 0 && d.day >= 0
  {
    MonthKey(d.year, d.month) + "-" + TwoDigits(d.day)
  }

  lemma TextLength(n: nat, width: nat)
    requires width >= 1 && n < Pow10(width) && (width > 1 ==> Pow10(width - 1) <= n)
    ensures |NatText(n)| == width
  {
    var s := NatText(n);
    NatOfText(n);
    NatOfBound(s);
    if |s| > width {
      Pow10Mono(width, |s| - 1);
    } else if |s| < width {
      Pow10Mono(|s|, width - 1);
    }
  }

  lemma YearText(year: nat)
    requires FourDigitYear(year)
    ensures |NatText(year)| == 4 && NatOf(NatText(year)) == year
  {
    assert Pow10(3) == 1000 && Pow10(4) == 10000 by {
      assert Pow10(1) == 10 && Pow10(2) == 100;
    }
    TextLength(year, 4);
    NatOfText(year);
  }

  lemma TwoDigitsText(n: nat)
    requires n < 100
    ensures |TwoDigits(n)| == 2 && AllDigits(TwoDigits(n)) && NatOf(TwoDigits(n)) == n
  {
    NatOfText(n);
    PadZerosKeeps(NatText(n), 2);
    assert |NatText(n)| <= 2 by {
      if n >= 10 {
        assert NatText(n) == NatText(n / 10) + [DigitChar(n % 10)];
        assert |NatText(n / 10)| == 1;
      }
    }
  }

  // ---------- string order ----------

  /** The order `<` has on strings. */
  predicate StringBefore(s: string, t: string) {
    t != "" && (s == "" || s[0] < t[0] || (s[0] == t[0] && StringBefore(s[1..], t[1..])))
  }

  predicate StringAtMost(s: string, t: string) {
    s == t || StringBefore(s, t)
  }

  lemma {:induction false} BeforeByParts(s: string, s': string, t: string, t': string)
    requires |s| == |t|
    ensures StringBefore(s + s', t + t') <==> StringBefore(s, t) || (s == t && StringBefore(s', t'))
    decreases |s|
  {
    if s == "" {
      assert s + s' == s' && t + t' == t';
    } else {
      assert (s + s')[1..] == s[1..] + s' && (t + t')[1..] == t[1..] + t';
      assert s == [s[0]] + s[1..] && t == [t[0]] + t[1..];
      BeforeByParts(s[1..], s', t[1..], t');
    }
  }

  /** Digit strings of one length compare as numbers. */
  lemma {:induction false} DigitsInOrder(s: string, t: string)
    requires AllDigits(s) && AllDigits(t) && |s| == |t|
    ensures StringBefore(s, t) <==> NatOf(s) < NatOf(t)
    decreases |s|
  {
    if s != "" {
      var k := |s| - 1;
      DigitsInOrder(s[..k], t[..k]);
      assert s == s[..k] + [s[k]] && t == t[..k] + [t[k]];
      BeforeByParts(s[..k], [s[k]], t[..k], [t[k]]);
      assert StringBefore([s[k]], [t[k]]) <==> s[k] < t[k];
      if NatOf(s[..k]) == NatOf(t[..k]) {
        NatOfInjective(s[..k], t[..k]);
      }
    }
  }

  predicate Labelled(d: Date) {
    IsDate(d) && FourDigitYear(d.year)
  }

  /** Keys compare as dates do: string order is calendar order. */
  lemma KeyOrder(a: Date, b: Date)
    requires Labelled(a) && Labelled(b)
    ensures StringBefore(DateKey(a), DateKey(b)) <==> Before(a, b)
    ensures DateKey(a) == DateKey(b) <==> a == b
  {
    YearText(a.year);
    YearText(b.year);
    TwoDigitsText(a.month);
    TwoDigitsText(b.month);
    TwoDigitsText(a.day);
    TwoDigitsText(b.day);
    var y, y', m, m', d, d' :=
      NatText(a.year), NatText(b.year), TwoDigits(a.month), TwoDigits(b.month), TwoDigits(a.day), TwoDigits(b.day);
    KeyParts(y, m, d, y', m', d');
    DigitsInOrder(y, y');
    DigitsInOrder(m, m');
    DigitsInOrder(d, d');
  }

  /** Texts joined by a dash compare by their first parts, then by their second. */
  lemma DashedOrder(s: string, r: string, s': string, r': string)
    requires |s| == |s'|
    ensures StringBefore(s + "-" + r, s' + "-" + r') <==> StringBefore(s, s') || (s == s' && StringBefore(r, r'))
    ensures s + "-" + r == s' + "-" + r' <==> s == s' && r == r'
  {
    BeforeByParts(s + "-", r, s' + "-", r');
    BeforeByParts(s, "-", s', "-");
    assert !StringBefore("-", "-");
    SplitEqual(s + "-", r, s' + "-", r');
    SplitEqual(s, "-", s', "-");
  }

  lemma KeyParts(y: string, m: string, d: string, y': string, m': string, d': string)
    requires |y| == |y'| && |m| == |m'|
    ensures StringBefore(y + "-" + m + "-" + d, y' + "-" + m' + "-" + d')
            <==> StringBefore(y, y') || (y == y' && (StringBefore(m, m') || (m == m' && StringBefore(d, d'))))
    ensures y + "-" + m + "-" + d == y' + "-" + m' + "-" + d' <==> y == y' && m == m' && d == d'
  {
    DashedOrder(y, m, y', m');
    DashedOrder(y + "-" + m, d, y' + "-" + m', d');
  }

  lemma SplitEqual(s: string, s': string, t: string, t': string)
    requires |s| == |t|
    ensures s + s' == t + t' <==> s == t && s' == t'
  {
    if s + s' == t + t' {
      assert s == (s + s')[..|s|] && t == (t + t')[..|t|];
      assert s' == (s + s')[|s|..] && t' == (t + t')[|t|..];
    }
  }

  /** The day part of a key reads back as the day. */
  lemma KeyDay(d: Date)
    requires Labelled(d)
    ensures |DateKey(d)| == 10 && AllDigits(DateKey(d)[8..]) && NatOf(DateKey(d)[8..]) == d.day
  {
    YearText(d.year);
    TwoDigitsText(d.month);
    TwoDigitsText(d.day);
    assert DateKey(d)[8..] == TwoDigits(d.day);
  }

  // ---------- the calendar is the Gregorian one ----------

  /** Weekdays follow one another. */
  lemma WeekdayStep(n: int)
    ensures Weekday(n + 1) == (Weekday(n) + 1) % 7
  {
    var q, r := (n + 3) / 7, (n + 3) % 7;
    assert n + 3 == q * 7 + r;
    if r == 6 {
      DivideUnique(n + 4, 7, q + 1, 0);
    } else {
      DivideUnique(n + 4, 7, q, r + 1);
    }
  }

  /** Day numbers follow one another within a month, and 400 years are 146097 days. */
  lemma DayNumberSteps(year: int, month: int, day: int)
    requires IsMonth(month)
    ensures DayNumber(year, month, day + 1) == DayNumber(year, month, day) + 1
    ensures DayNumber(year + 400, 1, 1) == DayNumber(year, 1, 1) + 146097
  {
    var y := year - 1;
    FourCenturies(y, 4, 100);
    FourCenturies(y, 100, 4);
    FourCenturies(y, 400, 1);
  }

  lemma FourCenturies(y: int, n: int, k: int)
    requires n > 0 && n * k == 400
    ensures (y + 400) / n == y / n + k
  {
    var q, r := y / n, y % n;
    assert y == q * n + r;
    assert (q + k) * n == q * n + n * k;
    DivideUnique(y + 400, n, q + k, r);
  }

  /** The usual lengths; February has 29 days in a year divisible by 4, unless by 100 and not by 400. */
  lemma MonthLengths(year: int)
    ensures DaysInMonth(year, 1) == DaysInMonth(year, 3) == DaysInMonth(year, 5) == DaysInMonth(year, 7)
         == DaysInMonth(year, 8) == DaysInMonth(year, 10) == DaysInMonth(year, 12) == 31
    ensures DaysInMonth(year, 4) == DaysInMonth(year, 6) == DaysInMonth(year, 9) == DaysInMonth(year, 11) == 30
    ensures DaysInMonth(year, 2) == if year % 400 == 0 then 29 else if year % 100 == 0 then 28 else if year % 4 == 0 then 29 else 28
    ensures DaysInMonth(2000, 2) == 29 && DaysInMonth(2024, 2) == 29 && DaysInMonth(2023, 2) == 28 && DaysInMonth(2100, 2) == 28
  {
    CenturiesAreFourfold(year);
  }

  /** Day 0 is the first of January 1970, a Thursday; the first of January 2024 was a Monday. */
  lemma GregorianAnchors()
    ensures NumberOf(Date(1970, 1, 1)) == 0 && Weekday(NumberOf(Date(1970, 1, 1))) == 3
    ensures NumberOf(Date(2024, 1, 1)) == 19723 && Weekday(NumberOf(Date(2024, 1, 1))) == 0
  {
    assert DaysBeforeYear(2024) - DaysBeforeYear(1970) == 19723;
  }

  lemma KeyAnchor()
    ensures DateKey(Date(2024, 1, 1)) == "2024-01-01" && MonthKey(2024, 12) == "2024-12"
  {
    assert NatText(1) == "1" && NatText(12) == "12";
    assert NatText(2) == "2" && NatText(20) == "20" && NatText(202) == "202" && NatText(2024) == "2024";
    assert "0" + "1" == "01";
    assert PadZeros("1", 2) == PadZeros("01", 2) == "01";
    assert TwoDigits(1) == "01" && TwoDigits(12) == "12";
  }
}
