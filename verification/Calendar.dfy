/**
 * The proleptic Gregorian calendar that JavaScript's Date uses, on day numbers
 * (day 0 is 1 January 1970).  Years and days are unbounded integers; months are
 * 0..11 and days of the month 1..31, as in Date's own getters.
 */
module Calendar {
  const MS_PER_DAY := 86_400_000

  datatype Civil = Civil(year: int, month: int, date: int) {
    predicate Valid() {
      0 <= month < 12 && 1 <= date <= DaysInMonth(year, month)
    }
  }

  predicate IsLeap(year: int) {
    year % 4 == 0 && (year % 100 != 0 || year % 400 == 0)
  }

  function DaysInYear(year: int): int {
    if IsLeap(year) then 366 else 365
  }

  function DaysInMonth(year: int, month: int): int
    requires 0 <= month < 12
  {
    if month == 1 then (if IsLeap(year) then 29 else 28)
    else if month == 3 || month == 5 || month == 8 || month == 10 then 30
    else 31
  }

  /** Days of the year before the first of `month`; month 12 stands for the whole year. */
  function DaysBeforeMonth(year: int, month: int): int
    requires 0 <= month <= 12
    decreases month
  {
    if month == 0 then 0 else DaysBeforeMonth(year, month - 1) + DaysInMonth(year, month - 1)
  }

  /** The day number of 1 January: the years since 1970 laid end to end. */
  function DayFromYear(year: int): int
    decreases if year < 1970 then 1970 - year else year - 1970
  {
    if year == 1970 then 0
    else if year > 1970 then DayFromYear(year - 1) + DaysInYear(year - 1)
    else DayFromYear(year + 1) - DaysInYear(year)
  }

  /** MakeDay (section 21.4.1.12 of ECMA-262): out-of-range months and dates carry over. */
  function MakeDay(year: int, month: int, date: int): int {
    DayFromYear(year + month / 12) + DaysBeforeMonth(year + month / 12, month % 12) + date - 1
  }

  /** YearFromTime (section 21.4.1.3 of ECMA-262): an estimate that is off by one at most, then corrected. */
  function YearFromDay(day: int): int {
    var estimate := 1970 + (400 * day) / 146097;
    if day < DayFromYear(estimate) then estimate - 1
    else if DayFromYear(estimate + 1) <= day then estimate + 1
    else estimate
  }

  /** The last month of the year that starts on or before the given day of the year. */
  function MonthFromDayInYear(year: int, dayInYear: int, month: int): (m: int)
    requires 0 <= month < 12
    ensures 0 <= m <= month
  {
    if month == 0 || DaysBeforeMonth(year, month) <= dayInYear then month
    else MonthFromDayInYear(year, dayInYear, month - 1)
  }

  /** Year, month and date of a day number: YearFromTime, MonthFromTime and DateFromTime. */
  function CivilFromDay(day: int): Civil {
    var year := YearFromDay(day);
    var dayInYear := day - DayFromYear(year);
    var month := MonthFromDayInYear(year, dayInYear, 11);
    Civil(year, month, dayInYear - DaysBeforeMonth(year, month) + 1)
  }

  /** The days of the year that the months start on, as section 21.4.1.4 of ECMA-262 lists them. */
  const MONTH_STARTS: seq<int> := [0, 31, 59, 90, 120, 151, 181, 212, 243, 273, 304, 334, 365]

  lemma {:induction false} MonthTable(year: int, month: int)
    requires 0 <= month <= 12
    ensures DaysBeforeMonth(year, month) == MONTH_STARTS[month] + if month >= 2 && IsLeap(year) then 1 else 0
    decreases month
  {
    hide IsLeap;
    if month > 0 {
      MonthTable(year, month - 1);
    }
  }

  lemma YearLength(year: int)
    ensures DayFromYear(year + 1) - DayFromYear(year) == DaysInYear(year)
  {
  }

  /** Stepping a floor division by one: it grows exactly at the multiples. */
  lemma FloorStep4(year: int)
    ensures (year - 1968) / 4 - (year - 1969) / 4 == if year % 4 == 0 then 1 else 0
  {
  }

  lemma FloorStep100(year: int)
    ensures (year - 1900) / 100 - (year - 1901) / 100 == if year % 100 == 0 then 1 else 0
  {
  }

  lemma FloorStep400(year: int)
    ensures (year - 1600) / 400 - (year - 1601) / 400 == if year % 400 == 0 then 1 else 0
  {
  }

  lemma LeapDays(year: int)
    ensures DaysInYear(year) == 365 + ((year - 1968) / 4 - (year - 1969) / 4)
                                - ((year - 1900) / 100 - (year - 1901) / 100)
                                + ((year - 1600) / 400 - (year - 1601) / 400)
  {
    hide DaysInYear, IsLeap;
    FloorStep4(year);
    FloorStep100(year);
    FloorStep400(year);
    LeapYearCount(year);
  }

  lemma LeapYearCount(year: int)
    ensures DaysInYear(year) == 365 + (if year % 4 == 0 then 1 else 0)
                                - (if year % 100 == 0 then 1 else 0) + (if year % 400 == 0 then 1 else 0)
  {
  }

  /** The closed form that section 21.4.1.3 of ECMA-262 gives for DayFromYear. */
  lemma {:induction false} DayFromYearClosedForm(year: int)
    ensures DayFromYear(year) == 365 * (year - 1970) + (year - 1969) / 4 - (year - 1901) / 100 + (year - 1601) / 400
    decreases if year < 1970 then 1970 - year else year - 1970
  {
    if year > 1970 {
      DayFromYearClosedForm(year - 1);
      LeapDays(year - 1);
    } else if year < 1970 {
      DayFromYearClosedForm(year + 1);
      LeapDays(year);
    }
  }

  lemma {:induction false} MonthsFillTheYear(year: int)
    ensures DaysBeforeMonth(year, 12) == DaysInYear(year)
  {
  }

  lemma {:induction false} YearsAreOrdered(y1: int, y2: int)
    requires y1 <= y2
    ensures DayFromYear(y1) + 365 * (y2 - y1) <= DayFromYear(y2)
    decreases y2 - y1
  {
    if y1 < y2 {
      YearsAreOrdered(y1, y2 - 1);
      YearLength(y2 - 1);
    }
  }

  /** `YearFromDay` is the year the day lies in: as section 21.4.1.3 of ECMA-262 defines it. */
  lemma YearFromDayBrackets(day: int)
    ensures DayFromYear(YearFromDay(day)) <= day < DayFromYear(YearFromDay(day) + 1)
  {
    var estimate := 1970 + (400 * day) / 146097;
    DayFromYearClosedForm(estimate - 1);
    DayFromYearClosedForm(estimate + 2);
  }

  lemma YearOfDayIsUnique(day: int, year: int)
    requires DayFromYear(year) <= day < DayFromYear(year + 1)
    ensures YearFromDay(day) == year
  {
    var found := YearFromDay(day);
    YearFromDayBrackets(day);
    if found < year {
      YearsAreOrdered(found + 1, year);
    } else if year < found {
      YearsAreOrdered(year + 1, found);
    }
  }

  lemma {:induction false} MonthsAreOrdered(year: int, m1: int, m2: int)
    requires 0 <= m1 <= m2 <= 12
    ensures DaysBeforeMonth(year, m1) + 28 * (m2 - m1) <= DaysBeforeMonth(year, m2)
    decreases m2 - m1
  {
    if m1 < m2 {
      MonthsAreOrdered(year, m1, m2 - 1);
    }
  }

  lemma {:induction false} MonthSearch(year: int, dayInYear: int, start: int)
    requires 0 <= start < 12 && 0 <= dayInYear < DaysBeforeMonth(year, start + 1)
    ensures var m := MonthFromDayInYear(year, dayInYear, start);
            0 <= m <= start && DaysBeforeMonth(year, m) <= dayInYear < DaysBeforeMonth(year, m + 1)
    decreases start
  {
    if start > 0 && dayInYear < DaysBeforeMonth(year, start) {
      MonthSearch(year, dayInYear, start - 1);
    }
  }

  lemma MonthOfDayIsUnique(year: int, dayInYear: int, month: int)
    requires 0 <= month < 12
    requires DaysBeforeMonth(year, month) <= dayInYear < DaysBeforeMonth(year, month + 1)
    ensures MonthFromDayInYear(year, dayInYear, 11) == month
  {
    MonthsAreOrdered(year, 0, month);
    MonthsAreOrdered(year, month + 1, 12);
    MonthSearch(year, dayInYear, 11);
    var found := MonthFromDayInYear(year, dayInYear, 11);
    if found < month {
      MonthsAreOrdered(year, found + 1, month);
    } else if month < found {
      MonthsAreOrdered(year, month + 1, found);
    }
  }

  /** Every day number is a valid calendar date, and MakeDay leads back to it. */
  lemma MakeDayOfCivil(day: int)
    ensures CivilFromDay(day).Valid()
    ensures var c := CivilFromDay(day); MakeDay(c.year, c.month, c.date) == day
  {
    hide DayFromYear, YearFromDay, IsLeap, MonthFromDayInYear;
    var year := YearFromDay(day);
    var dayInYear := day - DayFromYear(year);
    YearFromDayBrackets(day);
    YearLength(year);
    MonthsFillTheYear(year);
    MonthSearch(year, dayInYear, 11);
  }

  /** Every valid calendar date is read back unchanged from the day MakeDay gives it. */
  lemma CivilOfMakeDay(c: Civil)
    requires c.Valid()
    ensures CivilFromDay(MakeDay(c.year, c.month, c.date)) == c
  {
    hide DayFromYear, YearFromDay, IsLeap, MonthFromDayInYear;
    var day := MakeDay(c.year, c.month, c.date);
    assert c.month / 12 == 0 && c.month % 12 == c.month;
    MonthsAreOrdered(c.year, 0, c.month);
    MonthsAreOrdered(c.year, c.month + 1, 12);
    MonthsFillTheYear(c.year);
    YearLength(c.year);
    YearOfDayIsUnique(day, c.year);
    MonthOfDayIsUnique(c.year, day - DayFromYear(c.year), c.month);
  }

  lemma MakeDayShiftsByDate(year: int, month: int, date: int)
    ensures MakeDay(year, month, date) == MakeDay(year, month, 1) + date - 1
  {
  }

  /** Two days are in the same calendar month exactly when they fall between the same two firsts. */
  lemma SameMonthIsAnInterval(a: int, b: int)
    ensures var ca, cb := CivilFromDay(a), CivilFromDay(b);
            (ca.year == cb.year && ca.month == cb.month)
            <==> MakeDay(ca.year, ca.month, 1) <= b < MakeDay(ca.year, ca.month + 1, 1)
  {
    hide CivilFromDay, DayFromYear, DaysBeforeMonth, IsLeap, MakeDay;
    var ca, cb := CivilFromDay(a), CivilFromDay(b);
    MakeDayOfCivil(a);
    MakeDayOfCivil(b);
    NextMonth(ca.year, ca.month);
    NextMonth(cb.year, cb.month);
    var first := MakeDay(ca.year, ca.month, 1);
    MakeDayShiftsByDate(ca.year, ca.month, ca.date);
    MakeDayShiftsByDate(cb.year, cb.month, cb.date);
    if first <= b < MakeDay(ca.year, ca.month + 1, 1) {
      var date := b - first + 1;
      MakeDayShiftsByDate(ca.year, ca.month, date);
      CivilOfMakeDay(Civil(ca.year, ca.month, date));
    }
  }

  /** A month is as long as its DaysInMonth, also from December into the next year. */
  lemma NextMonth(year: int, month: int)
    requires 0 <= month < 12
    ensures MakeDay(year, month + 1, 1) - MakeDay(year, month, 1) == DaysInMonth(year, month)
  {
    if month == 11 {
      YearLength(year);
      MonthsFillTheYear(year);
      assert (month + 1) / 12 == 1 && (month + 1) % 12 == 0;
      assert DaysBeforeMonth(year, 12) == DaysBeforeMonth(year, 11) + DaysInMonth(year, 11);
    } else {
      assert (month + 1) / 12 == 0 && (month + 1) % 12 == month + 1;
    }
  }

  /** The days around the new year of 2025. */
  lemma NewYearDays()
    ensures MakeDay(2025, 0, 1) == 20089 && MakeDay(2024, 11, 31) == 20088
  {
    hide DayFromYear;
    DayFromYearClosedForm(2025);
    NextMonth(2024, 11);
    MakeDayShiftsByDate(2024, 11, 31);
    assert MakeDay(2024, 12, 1) == MakeDay(2025, 0, 1);
  }
}
