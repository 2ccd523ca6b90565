/** The key that the free-message counter is bucketed by: the UTC year and month as text. */
module UsageMonth {
  import opened Calendar

  function DigitChar(d: int): char
    requires 0 <= d < 10
  {
    "0123456789"[d]
  }

  function DigitValue(c: char): int {
    if c == '1' then 1 else if c == '2' then 2 else if c == '3' then 3
    else if c == '4' then 4 else if c == '5' then 5 else if c == '6' then 6
    else if c == '7' then 7 else if c == '8' then 8 else if c == '9' then 9 else 0
  }

  function Decimal(n: nat): (s: string)
    ensures |s| > 0 && s[0] != '-'
  {
    if n < 10 then [DigitChar(n)] else Decimal(n / 10) + [DigitChar(n % 10)]
  }

  function DecimalValue(s: string): int {
    if s == [] then 0 else 10 * DecimalValue(s[..|s| - 1]) + DigitValue(s[|s| - 1])
  }

  /** Number-to-text as string interpolation does it for integers. */
  function IntText(n: int): string {
    if n < 0 then "-" + Decimal(-n) else Decimal(n)
  }

  /** `padStart(2, "0")` of a month number. */
  function TwoDigits(n: int): (s: string)
    requires 0 <= n < 100
    ensures |s| == 2
  {
    [DigitChar(n / 10), DigitChar(n % 10)]
  }

  function UtcCivil(t: int): Civil { CivilFromDay(t / MS_PER_DAY) }

  function MonthKey(year: int, month: int): string
    requires 0 <= month < 12
  {
    IntText(year) + "-" + TwoDigits(month + 1)
  }

  function CurrentUsageMonth(t: int): string {
    MakeDayOfCivil(t / MS_PER_DAY);
    MonthKey(UtcCivil(t).year, UtcCivil(t).month)
  }

  lemma {:induction false} DecimalReadsBack(n: nat)
    ensures DecimalValue(Decimal(n)) == n
  {
    if n >= 10 {
      DecimalReadsBack(n / 10);
      var s := Decimal(n);
      assert s[..|s| - 1] == Decimal(n / 10);
    } else {
      assert Decimal(n)[..0] == [];
    }
  }

  lemma IntTextIsInjective(a: int, b: int)
    requires IntText(a) == IntText(b)
    ensures a == b
  {
    hide Decimal, DecimalValue;
    var s := IntText(a);
    if s[0] == '-' {
      assert s[1..] == Decimal(-a) && s[1..] == Decimal(-b);
      DecimalReadsBack(-a);
      DecimalReadsBack(-b);
    } else {
      DecimalReadsBack(a);
      DecimalReadsBack(b);
    }
  }

  lemma MonthKeyIsInjective(y1: int, m1: int, y2: int, m2: int)
    requires 0 <= m1 < 12 && 0 <= m2 < 12
    requires MonthKey(y1, m1) == MonthKey(y2, m2)
    ensures y1 == y2 && m1 == m2
  {
    hide IntText;
    var s := MonthKey(y1, m1);
    var n := |s| - 3;
    assert s[..n] == IntText(y1) && s[..n] == IntText(y2);
    IntTextIsInjective(y1, y2);
    assert s[n + 1..] == TwoDigits(m1 + 1) && s[n + 1..] == TwoDigits(m2 + 1);
    assert TwoDigits(m1 + 1)[0] == TwoDigits(m2 + 1)[0] && TwoDigits(m1 + 1)[1] == TwoDigits(m2 + 1)[1];
  }

  /** The number a character stands for as a decimal digit. */
  function Digit(c: char): int { c as int - '0' as int }

  /**
   * The key is YYYY-MM, months counted from 01: read as decimal digits it gives back the
   * UTC year and month of the instant.
   */
  lemma KeyReadsAsYearAndMonth(t: int)
    requires 1000 <= UtcCivil(t).year <= 9999
    ensures var key, c := CurrentUsageMonth(t), UtcCivil(t);
            && c.Valid() && |key| == 7 && key[4] == '-'
            && (forall i :: 0 <= i < 7 && i != 4 ==> '0' <= key[i] <= '9')
            && 1000 * Digit(key[0]) + 100 * Digit(key[1]) + 10 * Digit(key[2]) + Digit(key[3]) == c.year
            && 10 * Digit(key[5]) + Digit(key[6]) == c.month + 1
  {
    hide CivilFromDay, MakeDay, IntText, DigitChar;
    var c := UtcCivil(t);
    MakeDayOfCivil(t / MS_PER_DAY);
    FourDigits(c.year);
    DigitCharIsDigit((c.month + 1) / 10);
    DigitCharIsDigit((c.month + 1) % 10);
    assert CurrentUsageMonth(t) == IntText(c.year) + "-" + TwoDigits(c.month + 1);
  }

  lemma DigitCharIsDigit(d: int)
    requires 0 <= d < 10
    ensures Digit(DigitChar(d)) == d && '0' <= DigitChar(d) <= '9'
  {
  }

  lemma FourDigits(n: int)
    requires 1000 <= n <= 9999
    ensures var s := IntText(n);
            && |s| == 4 && (forall i :: 0 <= i < 4 ==> '0' <= s[i] <= '9')
            && 1000 * Digit(s[0]) + 100 * Digit(s[1]) + 10 * Digit(s[2]) + Digit(s[3]) == n
  {
    hide DigitChar, Digit;
    DigitCharIsDigit(n / 1000);
    DigitCharIsDigit(n / 100 % 10);
    DigitCharIsDigit(n / 10 % 10);
    DigitCharIsDigit(n % 10);
    assert n / 10 / 10 == n / 100 && n / 10 / 10 / 10 == n / 1000;
    assert Decimal(n / 1000) == [DigitChar(n / 1000)];
    assert Decimal(n / 100) == Decimal(n / 1000) + [DigitChar(n / 100 % 10)];
    assert Decimal(n / 10) == Decimal(n / 100) + [DigitChar(n / 10 % 10)];
    assert Decimal(n) == Decimal(n / 10) + [DigitChar(n % 10)];
  }

  /** The counters of December 2024 end, and those of January 2025 begin, at 1735689600000 ms. */
  lemma NewYear2025()
    ensures CurrentUsageMonth(1_735_689_599_999) == "2024-12"
    ensures CurrentUsageMonth(1_735_689_600_000) == "2025-01"
  {
    hide CivilFromDay, MakeDay, MonthKey;
    CivilOfMakeDay(Civil(2025, 0, 1));
    CivilOfMakeDay(Civil(2024, 11, 31));
    NewYearDays();
    NewYearKeys();
  }

  lemma NewYearKeys()
    ensures MonthKey(2024, 11) == "2024-12" && MonthKey(2025, 0) == "2025-01"
  {
    assert Decimal(2) == "2" && Decimal(20) == "20" && Decimal(202) == "202";
    assert Decimal(2024) == "2024" && Decimal(2025) == "2025";
  }

  /**
   * Two instants share a bucket exactly when the second lies between the first's
   * month start and the next month's start, both at midnight UTC.
   */
  lemma SameBucketIsSameUtcMonth(a: int, b: int)
    ensures var c := UtcCivil(a);
            CurrentUsageMonth(a) == CurrentUsageMonth(b)
            <==> MakeDay(c.year, c.month, 1) * MS_PER_DAY <= b < MakeDay(c.year, c.month + 1, 1) * MS_PER_DAY
  {
    hide CivilFromDay, MakeDay, MonthKey;
    var ca, cb := UtcCivil(a), UtcCivil(b);
    MakeDayOfCivil(a / MS_PER_DAY);
    MakeDayOfCivil(b / MS_PER_DAY);
    SameMonthIsAnInterval(a / MS_PER_DAY, b / MS_PER_DAY);
    if CurrentUsageMonth(a) == CurrentUsageMonth(b) {
      MonthKeyIsInjective(ca.year, ca.month, cb.year, cb.month);
    }
  }
}
