/**
 * Tier catalogue, allotments and prices, and the arithmetic of billing periods.
 * Instants are milliseconds since the epoch; `zone` is the server's offset from
 * UTC in milliseconds, constant over time.
 */
module Billing {
  import opened Wrappers
  import opened Calendar

  datatype Tier = Basic | Pro | Enterprise
  datatype Cycle = Monthly | Yearly

  /** Messages granted at the start of each period; None is unlimited. */
  function Allotment(tier: Tier): Option<int> {
    match tier
    case Basic => Some(10)
    case Pro => Some(100)
    case Enterprise => None
  }

  /** A year costs ten months, and no price is free. */
  function PriceCents(tier: Tier, cycle: Cycle): (cents: int)
    ensures cents > 0
    ensures cycle == Yearly ==> cents == 10 * PriceCents(tier, Monthly)
    decreases cycle == Yearly
  {
    match (tier, cycle)
    case (Basic, Monthly) => 500
    case (Basic, Yearly) => 5000
    case (Pro, Monthly) => 2000
    case (Pro, Yearly) => 20000
    case (Enterprise, Monthly) => 10000
    case (Enterprise, Yearly) => 100000
  }

  /** A higher tier grants more and costs more, in either cycle; the highest is unlimited. */
  lemma HigherTiersGrantAndCostMore(cycle: Cycle)
    ensures Allotment(Basic).Some? && Allotment(Pro).Some? && Allotment(Enterprise).None?
    ensures 0 < Allotment(Basic).value < Allotment(Pro).value
    ensures PriceCents(Basic, cycle) < PriceCents(Pro, cycle) < PriceCents(Enterprise, cycle)
  {
  }

  function LocalDay(t: int, zone: int): int { (t + zone) / MS_PER_DAY }

  function LocalCivil(t: int, zone: int): Civil { CivilFromDay(LocalDay(t, zone)) }

  /** East of Greenwich the new year comes first: 23:00 UTC on 31 December 2024 is 1 January 2025 one hour east. */
  lemma LocalNewYear()
    ensures LocalCivil(1_735_686_000_000, 3_600_000) == Civil(2025, 0, 1)
    ensures LocalCivil(1_735_686_000_000, 0) == Civil(2024, 11, 31)
  {
    hide CivilFromDay, MakeDay;
    NewYearDays();
    CivilOfMakeDay(Civil(2025, 0, 1));
    CivilOfMakeDay(Civil(2024, 11, 31));
  }

  /** The instant at the same local time of day on another, possibly overflowing, date. */
  function AtDate(t: int, zone: int, year: int, month: int, date: int): int {
    MakeDay(year, month, date) * MS_PER_DAY + (t + zone) % MS_PER_DAY - zone
  }

  /** Where a period that starts at `from` ends. */
  function CycleEnd(from: int, cycle: Cycle, zone: int): int {
    var c := LocalCivil(from, zone);
    match cycle
    case Monthly => AtDate(from, zone, c.year, c.month + 1, c.date)
    case Yearly => AtDate(from, zone, c.year + 1, c.month, c.date)
  }

  /** A JavaScript Date: one mutable instant. */
  class JsDate {
    var time: int

    constructor (time: int)
      ensures this.time == time
    {
      this.time := time;
    }

    method SetMonth(month: int, zone: int)
      modifies this
      ensures var c := LocalCivil(old(time), zone);
              time == AtDate(old(time), zone, c.year, month, c.date)
    {
      var c := LocalCivil(time, zone);
      time := AtDate(time, zone, c.year, month, c.date);
    }

    method SetFullYear(year: int, zone: int)
      modifies this
      ensures var c := LocalCivil(old(time), zone);
              time == AtDate(old(time), zone, year, c.month, c.date)
    {
      var c := LocalCivil(time, zone);
      time := AtDate(time, zone, year, c.month, c.date);
    }
  }

  /** Copies `from` and moves the copy: the caller's date is left alone. */
  method ComputeCycleEndDate(from: JsDate, cycle: Cycle, zone: int) returns (end: JsDate)
    ensures fresh(end)
    ensures end.time == CycleEnd(from.time, cycle, zone)
  {
    end := new JsDate(from.time);
    var c := LocalCivil(end.time, zone);
    if cycle == Monthly {
      end.SetMonth(c.month + 1, zone);
    } else {
      end.SetFullYear(c.year + 1, zone);
    }
  }

  // ---- how long a period is -------------------------------------------------

  lemma AtDateMovesByDays(t: int, zone: int, year: int, month: int, date: int)
    ensures AtDate(t, zone, year, month, date) - t == (MakeDay(year, month, date) - LocalDay(t, zone)) * MS_PER_DAY
    ensures LocalDay(AtDate(t, zone, year, month, date), zone) == MakeDay(year, month, date)
    ensures (AtDate(t, zone, year, month, date) + zone) % MS_PER_DAY == (t + zone) % MS_PER_DAY
  {
  }

  /** A monthly period lasts exactly as many days as the month it starts in, whatever the date. */
  lemma MonthlyPeriodLength(from: int, zone: int)
    ensures var c := LocalCivil(from, zone);
            c.Valid() && CycleEnd(from, Monthly, zone) == from + DaysInMonth(c.year, c.month) * MS_PER_DAY
  {
    hide CivilFromDay, DayFromYear, DaysBeforeMonth, AtDate, IsLeap, MakeDay;
    var day := LocalDay(from, zone);
    var c := CivilFromDay(day);
    MakeDayOfCivil(day);
    NextMonth(c.year, c.month);
    MakeDayShiftsByDate(c.year, c.month, c.date);
    MakeDayShiftsByDate(c.year, c.month + 1, c.date);
    AtDateMovesByDays(from, zone, c.year, c.month + 1, c.date);
  }

  /** A yearly period holds a 29 February exactly when one lies ahead within the year. */
  predicate CrossesLeapDay(c: Civil) {
    if c.month <= 1 then IsLeap(c.year) else IsLeap(c.year + 1)
  }

  lemma YearlyPeriodLength(from: int, zone: int)
    ensures var c := LocalCivil(from, zone);
            CycleEnd(from, Yearly, zone) == from + (if CrossesLeapDay(c) then 366 else 365) * MS_PER_DAY
  {
    hide CivilFromDay, DayFromYear, DaysBeforeMonth, AtDate, IsLeap;
    var day := LocalDay(from, zone);
    var c := CivilFromDay(day);
    MakeDayOfCivil(day);
    YearLength(c.year);
    YearLength(c.year + 1);
    DaysBeforeMonthInLeapYear(c.year, c.month);
    DaysBeforeMonthInLeapYear(c.year + 1, c.month);
    AtDateMovesByDays(from, zone, c.year + 1, c.month, c.date);
  }

  lemma {:induction false} DaysBeforeMonthInLeapYear(year: int, month: int)
    requires 0 <= month <= 12
    ensures DaysBeforeMonth(year, month)
            == DaysBeforeMonth(1970, month) + if month >= 2 && IsLeap(year) then 1 else 0
    decreases month
  {
    if month > 0 {
      DaysBeforeMonthInLeapYear(year, month - 1);
    }
  }

  /** Every period lasts at least 28 days, so its end is strictly later than its start. */
  lemma PeriodIsAtLeast28Days(from: int, cycle: Cycle, zone: int)
    ensures from + 28 * MS_PER_DAY <= CycleEnd(from, cycle, zone)
  {
    MonthlyPeriodLength(from, zone);
    YearlyPeriodLength(from, zone);
  }

  /** The first midnight of the month `ahead` months after the one `from` lies in. */
  function FirstOfMonth(from: int, zone: int, ahead: int): int {
    var c := LocalCivil(from, zone);
    MakeDay(c.year, c.month + ahead, 1) * MS_PER_DAY - zone
  }

  lemma MonthsInARow(from: int, zone: int)
    ensures var c := LocalCivil(from, zone);
            && c.Valid()
            && MakeDay(c.year, c.month, 1) + c.date - 1 == LocalDay(from, zone) < MakeDay(c.year, c.month + 1, 1)
            && CivilFromDay(MakeDay(c.year, c.month + 1, 1)).Valid()
            && var next := CivilFromDay(MakeDay(c.year, c.month + 1, 1));
            && next.date == 1
            && MakeDay(next.year, next.month, 1) == MakeDay(c.year, c.month + 1, 1)
            && MakeDay(next.year, next.month + 1, 1) == MakeDay(c.year, c.month + 2, 1)
            && MakeDay(c.year, c.month + 2, 1) == MakeDay(c.year, c.month + 1, 1) + DaysInMonth(next.year, next.month)
  {
    hide CivilFromDay, DayFromYear, DaysBeforeMonth, IsLeap;
    var c := LocalCivil(from, zone);
    MakeDayOfCivil(LocalDay(from, zone));
    MakeDayShiftsByDate(c.year, c.month, c.date);
    NextMonth(c.year, c.month);
    var next := if c.month == 11 then Civil(c.year + 1, 0, 1) else Civil(c.year, c.month + 1, 1);
    CivilOfMakeDay(next);
    NextMonth(next.year, next.month);
  }

  /** A period that starts next month ends in the month after next, one that starts later ends later still. */
  lemma LaterMonthsEndLater(a: int, b: int, zone: int)
    requires FirstOfMonth(a, zone, 1) <= b
    ensures FirstOfMonth(a, zone, 2) <= CycleEnd(b, Monthly, zone)
    ensures b == FirstOfMonth(a, zone, 1) ==> CycleEnd(b, Monthly, zone) == FirstOfMonth(a, zone, 2)
  {
    hide CivilFromDay, DayFromYear, DaysBeforeMonth, IsLeap, MakeDay, CycleEnd;
    var c := LocalCivil(a, zone);
    var first := MakeDay(c.year, c.month + 1, 1);
    MonthsInARow(a, zone);
    MonthlyPeriodLength(b, zone);
    PeriodIsAtLeast28Days(b, Monthly, zone);
    SameMonthIsAnInterval(first, LocalDay(b, zone));
  }

  /** Within a month, later starts end later, by as much. */
  lemma SameMonthKeepsOrder(a: int, b: int, zone: int)
    requires a <= b < FirstOfMonth(a, zone, 1)
    ensures CycleEnd(b, Monthly, zone) - CycleEnd(a, Monthly, zone) == b - a
  {
    hide CivilFromDay, DayFromYear, DaysBeforeMonth, IsLeap, MakeDay, CycleEnd;
    MonthsInARow(a, zone);
    MonthlyPeriodLength(a, zone);
    MonthlyPeriodLength(b, zone);
    SameMonthIsAnInterval(LocalDay(a, zone), LocalDay(b, zone));
  }

  /**
   * No later start has an earlier end than `a`, exactly when the end of `a` does not spill
   * past the month after its own: when that month has the day, or `a` is a midnight one day over.
   */
  lemma MonthlyEndIsMonotoneExactlyWhen(a: int, zone: int)
    ensures var c := LocalCivil(a, zone);
            var next := LocalCivil(FirstOfMonth(a, zone, 1), zone);
            && c.Valid() && next.Valid()
            && ((forall b :: a <= b ==> CycleEnd(a, Monthly, zone) <= CycleEnd(b, Monthly, zone))
                <==> CycleEnd(a, Monthly, zone) <= FirstOfMonth(a, zone, 2))
            && (CycleEnd(a, Monthly, zone) <= FirstOfMonth(a, zone, 2)
                <==> c.date <= DaysInMonth(next.year, next.month)
                     || (c.date == DaysInMonth(next.year, next.month) + 1 && (a + zone) % MS_PER_DAY == 0))
  {
    hide CivilFromDay, DayFromYear, DaysBeforeMonth, IsLeap, MakeDay, CycleEnd;
    MonthsInARow(a, zone);
    EndInDays(a, zone);
    var first := FirstOfMonth(a, zone, 1);
    LaterMonthsEndLater(a, first, zone);
    assert CycleEnd(first, Monthly, zone) == FirstOfMonth(a, zone, 2);
    assert a <= first;
    if CycleEnd(a, Monthly, zone) <= FirstOfMonth(a, zone, 2) {
      forall b | a <= b ensures CycleEnd(a, Monthly, zone) <= CycleEnd(b, Monthly, zone) {
        if b < first {
          SameMonthKeepsOrder(a, b, zone);
        } else {
          LaterMonthsEndLater(a, b, zone);
        }
      }
    }
  }

  /** The end of a monthly period, from the first of the month after. */
  lemma EndInDays(a: int, zone: int)
    ensures CycleEnd(a, Monthly, zone)
            == FirstOfMonth(a, zone, 1) + (LocalCivil(a, zone).date - 1) * MS_PER_DAY + (a + zone) % MS_PER_DAY
  {
    hide CivilFromDay, MakeDay;
    var c := LocalCivil(a, zone);
    MakeDayShiftsByDate(c.year, c.month + 1, c.date);
  }

  /** A later start can have an earlier end: 31 January against 1 February of any year. */
  lemma MonthlyEndIsNotMonotone(from: int, zone: int)
    requires LocalCivil(from, zone).month == 0 && LocalCivil(from, zone).date == 31
    ensures CycleEnd(from + MS_PER_DAY, Monthly, zone) < CycleEnd(from, Monthly, zone)
  {
    hide CivilFromDay, DayFromYear, IsLeap, CycleEnd;
    var day := LocalDay(from, zone);
    var c := CivilFromDay(day);
    MakeDayOfCivil(day);
    assert (from + MS_PER_DAY + zone) / MS_PER_DAY == day + 1;
    CivilOfMakeDay(Civil(c.year, 1, 1));
    assert MakeDay(c.year, 1, 1) == day + 1;
    MonthlyPeriodLength(from, zone);
    MonthlyPeriodLength(from + MS_PER_DAY, zone);
  }

  // ---- repeated renewals ----------------------------------------------------

  /** The end of the n-th successive period, as renewal extends from the previous end. */
  function Boundary(start: int, cycle: Cycle, zone: int, n: nat): int {
    if n == 0 then start else CycleEnd(Boundary(start, cycle, zone, n - 1), cycle, zone)
  }

  lemma {:induction false} BoundariesGrow(start: int, cycle: Cycle, zone: int, i: nat, j: nat)
    requires i <= j
    ensures Boundary(start, cycle, zone, i) + 28 * MS_PER_DAY * (j - i) <= Boundary(start, cycle, zone, j)
    decreases j
  {
    hide CycleEnd;
    if i < j {
      BoundariesGrow(start, cycle, zone, i, j - 1);
      PeriodIsAtLeast28Days(Boundary(start, cycle, zone, j - 1), cycle, zone);
    }
  }

  ghost predicate InPeriod(start: int, cycle: Cycle, zone: int, k: nat, t: int) {
    Boundary(start, cycle, zone, k) <= t < Boundary(start, cycle, zone, k + 1)
  }

  /** Successive periods tile time: each later instant lies in one period, and in no other. */
  lemma PeriodsTileTime(start: int, cycle: Cycle, zone: int, t: int) returns (k: nat)
    requires start <= t
    ensures InPeriod(start, cycle, zone, k, t)
    ensures forall other: nat :: InPeriod(start, cycle, zone, other, t) ==> other == k
  {
    hide CycleEnd;
    BoundariesGrow(start, cycle, zone, 0, t - start + 1);
    k := PeriodSearch(start, cycle, zone, t, t - start);
    forall other: nat | InPeriod(start, cycle, zone, other, t)
      ensures other == k
    {
      if other < k {
        BoundariesGrow(start, cycle, zone, other + 1, k);
      } else if k < other {
        BoundariesGrow(start, cycle, zone, k + 1, other);
      }
    }
  }

  lemma {:induction false} PeriodSearch(start: int, cycle: Cycle, zone: int, t: int, n: nat) returns (k: nat)
    requires start <= t < Boundary(start, cycle, zone, n + 1)
    ensures InPeriod(start, cycle, zone, k, t)
    decreases n
  {
    hide CycleEnd;
    if Boundary(start, cycle, zone, n) <= t {
      k := n;
    } else {
      k := PeriodSearch(start, cycle, zone, t, n - 1);
    }
  }

  /** One monthly step, seen on the calendar: a date the next month lacks spills into the month after. */
  function MonthLater(c: Civil): Civil
    requires c.Valid()
  {
    var year, month := if c.month == 11 then c.year + 1 else c.year, (c.month + 1) % 12;
    if c.date <= DaysInMonth(year, month) then Civil(year, month, c.date)
    else Civil(year, month + 1, c.date - DaysInMonth(year, month))
  }

  lemma MonthLaterValid(c: Civil)
    requires c.Valid()
    ensures MonthLater(c).Valid()
  {
  }

  lemma MonthlyStepOnTheCalendar(from: int, zone: int)
    ensures LocalCivil(from, zone).Valid()
    ensures LocalCivil(CycleEnd(from, Monthly, zone), zone) == MonthLater(LocalCivil(from, zone))
  {
    hide CivilFromDay, DayFromYear, DaysBeforeMonth, AtDate, IsLeap;
    var day := LocalDay(from, zone);
    var c := CivilFromDay(day);
    MakeDayOfCivil(day);
    AtDateMovesByDays(from, zone, c.year, c.month + 1, c.date);
    var n := MonthLater(c);
    MonthLaterValid(c);
    CivilOfMakeDay(n);
    var year, month := if c.month == 11 then c.year + 1 else c.year, (c.month + 1) % 12;
    assert MakeDay(c.year, c.month + 1, c.date) == MakeDay(year, month, c.date);
    MakeDayShiftsByDate(year, month, c.date);
    if c.date > DaysInMonth(year, month) {
      NextMonth(year, month);
      MakeDayShiftsByDate(year, month + 1, n.date);
    }
  }

  function MonthsLater(c: Civil, n: nat): (r: Civil)
    requires c.Valid()
    ensures r.Valid()
  {
    if n == 0 then c else MonthLaterValid(MonthsLater(c, n - 1)); MonthLater(MonthsLater(c, n - 1))
  }

  /** The date of the n-th monthly boundary, without going through milliseconds. */
  lemma {:induction false} BoundaryOnTheCalendar(start: int, zone: int, n: nat)
    ensures LocalCivil(start, zone).Valid()
    ensures LocalCivil(Boundary(start, Monthly, zone, n), zone) == MonthsLater(LocalCivil(start, zone), n)
  {
    hide CycleEnd, MonthLater, LocalCivil;
    if n == 0 {
      MonthlyStepOnTheCalendar(start, zone);
    } else {
      BoundaryOnTheCalendar(start, zone, n - 1);
      MonthlyStepOnTheCalendar(Boundary(start, Monthly, zone, n - 1), zone);
    }
  }

  lemma EarlyDateStep(year: int, t: nat, date: int)
    requires 1 <= date <= 28
    ensures MonthLater(Civil(year + t / 12, t % 12, date)) == Civil(year + (t + 1) / 12, (t + 1) % 12, date)
  {
  }

  /** A billing day up to the 28th never moves. */
  lemma {:induction false} EarlyDateNeverMoves(c: Civil, n: nat)
    requires c.Valid() && c.date <= 28
    ensures MonthsLater(c, n) == Civil(c.year + (c.month + n) / 12, (c.month + n) % 12, c.date)
  {
    hide MonthLater;
    if n > 0 {
      EarlyDateNeverMoves(c, n - 1);
      EarlyDateStep(c.year, c.month + n - 1, c.date);
    }
  }

  lemma {:induction false} BoundaryKeepsTimeOfDay(start: int, cycle: Cycle, zone: int, n: nat)
    ensures (Boundary(start, cycle, zone, n) + zone) % MS_PER_DAY == (start + zone) % MS_PER_DAY
  {
    hide AtDate, LocalCivil;
    if n > 0 {
      BoundaryKeepsTimeOfDay(start, cycle, zone, n - 1);
      var from := Boundary(start, cycle, zone, n - 1);
      var c := LocalCivil(from, zone);
      AtDateMovesByDays(from, zone, c.year, c.month + 1, c.date);
      AtDateMovesByDays(from, zone, c.year + 1, c.month, c.date);
    }
  }

  lemma {:induction false} MonthsLaterAdd(c: Civil, m: nat, n: nat)
    requires c.Valid()
    ensures MonthsLater(c, m + n) == MonthsLater(MonthsLater(c, m), n)
  {
    hide MonthLater;
    if n > 0 {
      MonthsLaterAdd(c, m, n - 1);
    }
  }

  /** The number of monthly renewals until a late billing day has come down to the 28th or less. */
  function RenewalsToSettle(c: Civil): nat
    requires c.Valid()
  {
    if c.date <= 28 then 0
    else if c.date == 31 then (if c.month == 6 || c.month == 11 then 2 else 1)
    else
      var nextFebruary := if c.month == 0 then c.year else c.year + 1;
      (if c.month == 0 then 1 else 13 - c.month) + (if c.date == 29 && IsLeap(nextFebruary) then 12 else 0)
  }

  /** Always at most 23, which 29 March of a year before a leap year needs. */
  lemma SettlingTakesAtMost23(c: Civil, year: int)
    requires c.Valid()
    ensures RenewalsToSettle(c) <= 23
    ensures RenewalsToSettle(Civil(year, 2, 29)) == 23 <==> IsLeap(year + 1)
  {
  }

  /** A day from the 29th on comes down, and stays down, after exactly that many renewals. */
  lemma {:induction false} LateDateSettles(c: Civil, n: nat)
    requires c.Valid()
    ensures MonthsLater(c, n).date <= 28 <==> RenewalsToSettle(c) <= n
    decreases n
  {
    hide IsLeap, DaysInMonth, MonthLater;
    if c.date <= 28 {
      EarlyDateNeverMoves(c, n);
    } else if n > 0 {
      SettlingCountsDown(c);
      LateDateSettles(MonthLater(c), n - 1);
      MonthsLaterAdd(c, 1, n - 1);
      assert MonthsLater(c, 1) == MonthLater(MonthsLater(c, 0));
    }
  }

  /** The same for the instants that the renewals actually produce. */
  lemma LateBillingDaySettles(start: int, zone: int, n: nat)
    ensures LocalCivil(start, zone).Valid()
    ensures LocalCivil(Boundary(start, Monthly, zone, n), zone).date <= 28
            <==> RenewalsToSettle(LocalCivil(start, zone)) <= n
  {
    hide Boundary, MonthsLater, LocalCivil, RenewalsToSettle;
    BoundaryOnTheCalendar(start, zone, n);
    LateDateSettles(LocalCivil(start, zone), n);
  }

  lemma SettlingCountsDown(c: Civil)
    requires c.Valid() && c.date > 28
    ensures MonthLater(c).Valid() && RenewalsToSettle(MonthLater(c)) == RenewalsToSettle(c) - 1
  {
  }

  // ---- twelve months and a year ---------------------------------------------

  /** `n` months on, on the same date. */
  function SameDate(c: Civil, n: nat): Civil { Civil(c.year + (c.month + n) / 12, (c.month + n) % 12, c.date) }

  lemma SameDateStep(c: Civil, n: nat)
    requires c.Valid() && SameDate(c, n).Valid()
    ensures var next := SameDate(c, n + 1);
            && 0 <= next.month < 12
            && MonthLater(SameDate(c, n))
               == if c.date <= DaysInMonth(next.year, next.month) then next
                  else Civil(next.year, next.month + 1, c.date - DaysInMonth(next.year, next.month))
    ensures MonthLater(SameDate(c, n)) != SameDate(c, n + 1) ==> SameDate(c, n + 1).month < 11
  {
  }

  /** Until it settles, a late date is kept; */
  lemma {:induction false} KeptUntilItSettles(c: Civil, n: nat)
    requires c.Valid() && n < RenewalsToSettle(c)
    ensures MonthsLater(c, n) == SameDate(c, n)
    decreases n
  {
    hide MonthLater, RenewalsToSettle;
    if n > 0 {
      KeptUntilItSettles(c, n - 1);
      SameDateStep(c, n - 1);
      LateDateSettles(c, n);
    }
  }

  lemma MonthsCarry(x: nat, more: nat)
    ensures x / 12 + (x % 12 + more) / 12 == (x + more) / 12 && (x % 12 + more) % 12 == (x + more) % 12
  {
  }

  /** from then on it is one of the first days of a month, one month later than the dates would say. */
  lemma AMonthAheadOnceSettled(c: Civil, n: nat)
    requires c.Valid() && 0 < RenewalsToSettle(c) <= n
    ensures var r := MonthsLater(c, n);
            r.year == c.year + (c.month + n + 1) / 12 && r.month == (c.month + n + 1) % 12
            && r.date == c.date - DaysInMonth(SameDate(c, RenewalsToSettle(c)).year, SameDate(c, RenewalsToSettle(c)).month)
  {
    hide MonthLater, RenewalsToSettle;
    var k := RenewalsToSettle(c);
    KeptUntilItSettles(c, k - 1);
    SameDateStep(c, k - 1);
    LateDateSettles(c, 0);
    LateDateSettles(c, k);
    var spilled := MonthsLater(c, k);
    EarlyDateNeverMoves(spilled, n - k);
    MonthsCarry(c.month + k, n - k + 1);
    MonthsLaterAdd(c, k, n - k);
  }

  /** Dates up to the 28th, a 29 February, and any other 29th when the February ahead is in a leap year. */
  predicate KeepsAnniversary(c: Civil) {
    c.date <= 28 || (c.date == 29 && (c.month == 1 || IsLeap(if c.month == 0 then c.year else c.year + 1)))
  }

  /** Late dates that keep their day for a year, in terms of when they settle. */
  lemma AnniversaryAndSettling(c: Civil)
    requires c.Valid()
    ensures KeepsAnniversary(c) <==> RenewalsToSettle(c) == 0 || RenewalsToSettle(c) > 12 || (c.month == 1 && c.date == 29)
    ensures c.month == 1 && c.date == 29 ==> RenewalsToSettle(c) == 12 && !IsLeap(c.year + 1)
  {
  }

  /** Twelve monthly steps lead to the same date a year on, */
  lemma TwelveStepsToTheDay(c: Civil)
    requires c.Valid() && (RenewalsToSettle(c) == 0 || RenewalsToSettle(c) > 12)
    ensures MonthsLater(c, 12) == Civil(c.year + 1, c.month, c.date)
  {
    hide MonthLater, MonthsLater, RenewalsToSettle, DaysInMonth;
    TwelveOn(c.month);
    if RenewalsToSettle(c) == 0 {
      LateDateSettles(c, 0);
      NoSteps(c);
      EarlyDateNeverMoves(c, 12);
    } else {
      KeptUntilItSettles(c, 12);
    }
  }

  /** or one month further. */
  lemma TwelveStepsTooFar(c: Civil)
    requires c.Valid() && 0 < RenewalsToSettle(c) <= 12
    ensures var r := MonthsLater(c, 12);
            r.year == c.year + 1 + (c.month + 1) / 12 && r.month == (c.month + 1) % 12
  {
    hide MonthLater, MonthsLater, RenewalsToSettle, DaysInMonth;
    TwelveOn(c.month);
    AMonthAheadOnceSettled(c, 12);
  }

  lemma TwelveOn(month: int)
    requires 0 <= month < 12
    ensures (month + 12) / 12 == 1 && (month + 12) % 12 == month
    ensures (month + 13) / 12 == 1 + (month + 1) / 12 && (month + 13) % 12 == (month + 1) % 12
  {
  }

  lemma NoSteps(c: Civil)
    requires c.Valid()
    ensures MonthsLater(c, 0) == c
  {
  }

  lemma TwelveStepsFrom29February(c: Civil)
    requires c.Valid() && c.month == 1 && c.date == 29
    ensures MonthsLater(c, 12) == Civil(c.year + 1, 2, 1)
    ensures MakeDay(c.year + 1, 1, 29) == MakeDay(c.year + 1, 2, 1)
  {
    hide MonthLater, MonthsLater, DayFromYear, DaysBeforeMonth;
    AnniversaryAndSettling(c);
    AMonthAheadOnceSettled(c, 12);
    NextMonth(c.year + 1, 1);
    MakeDayShiftsByDate(c.year + 1, 1, 29);
  }

  /** Twelve monthly steps and one yearly step, on the calendar. */
  lemma TwelveStepsOnTheCalendar(c: Civil)
    requires c.Valid()
    ensures var r := MonthsLater(c, 12);
            MakeDay(r.year, r.month, r.date) == MakeDay(c.year + 1, c.month, c.date) <==> KeepsAnniversary(c)
  {
    hide MonthsLater, CivilFromDay, MakeDay, RenewalsToSettle, KeepsAnniversary;
    AnniversaryAndSettling(c);
    if c.month == 1 && c.date == 29 {
      TwelveStepsFrom29February(c);
    } else {
      if RenewalsToSettle(c) == 0 || RenewalsToSettle(c) > 12 {
        TwelveStepsToTheDay(c);
      } else {
        TwelveStepsTooFar(c);
      }
      CivilOfMakeDay(MonthsLater(c, 12));
      CivilOfMakeDay(Civil(c.year + 1, c.month, c.date));
    }
  }

  /** Twelve monthly renewals end where one yearly renewal does, exactly from those dates. */
  lemma TwelveMonthsAreAYearExactlyWhen(start: int, zone: int)
    ensures LocalCivil(start, zone).Valid()
    ensures Boundary(start, Monthly, zone, 12) == CycleEnd(start, Yearly, zone)
            <==> KeepsAnniversary(LocalCivil(start, zone))
  {
    hide Boundary, MonthsLater, CivilFromDay, DayFromYear, DaysBeforeMonth, KeepsAnniversary, MakeDay;
    var c := LocalCivil(start, zone);
    MakeDayOfCivil(LocalDay(start, zone));
    BoundaryOnTheCalendar(start, zone, 12);
    TwelveStepsOnTheCalendar(c);
    var end := Boundary(start, Monthly, zone, 12);
    BoundaryKeepsTimeOfDay(start, Monthly, zone, 12);
    MakeDayOfCivil(LocalDay(end, zone));
    AtDateMovesByDays(start, zone, c.year + 1, c.month, c.date);
  }
}
