/**
 Recurring tasks (backend/app/recurrence.py): one step of a rule, and the due date of the
 instance that a completion creates. All moments lie on one UTC line.
 */
module Recurrence {
  import opened Calendar
  import opened Options

  /** A day and the microseconds since its midnight. */
  datatype Moment = Moment(date: Date, time: nat)

  const DAY_LENGTH: nat := 86_400_000_000

  datatype Rule = Daily | Weekly | Monthly | Yearly

  datatype Error = BadInterval | OutOfRange

  datatype Advanced = To(moment: Moment) | Raised(error: Error)

  datatype Next = Due(moment: Moment) | SeriesOver | Failed(error: Error)

  /** A day of the calendar without an end. */
  predicate IsDay(d: Date) { 1 <= d.year && 1 <= d.month <= 12 && 1 <= d.day <= DaysInMonth(d.year, d.month) }

  predicate IsMoment(m: Moment) { IsDate(m.date) && m.time < DAY_LENGTH }

  /** The order of dates, field by field. */
  predicate Earlier(a: Date, b: Date) {
    a.year < b.year || (a.year == b.year && (a.month < b.month || (a.month == b.month && a.day < b.day)))
  }

  predicate Before(a: Moment, b: Moment) { Earlier(a.date, b.date) || (a.date == b.date && a.time < b.time) }

  function NextDay(d: Date): (next: Date)
    ensures IsDay(d) ==> IsDay(next)
  {
    if d.day < DaysInMonth(d.year, d.month) then Date(d.year, d.month, d.day + 1)
    else if d.month < 12 then Date(d.year, d.month + 1, 1)
    else Date(d.year + 1, 1, 1)
  }

  function AddDays(d: Date, days: nat): (later: Date)
    ensures IsDay(d) ==> IsDay(later)
  {
    if days == 0 then d else NextDay(AddDays(d, days - 1))
  }

  /** `_add_months`, as far as the month's own length goes. */
  function AddMonths(d: Date, months: nat): (later: Date)
    ensures IsDay(d) ==> IsDay(later)
  {
    var total := d.month - 1 + months;
    var year := d.year + total / 12;
    var month := total % 12 + 1;
    Date(year, month, if d.day <= DaysInMonth(year, month) then d.day else DaysInMonth(year, month))
  }

  /** `advance`; a year past the last one is an error of `datetime` itself. */
  function Advance(moment: Moment, rule: Rule, interval: int): (step: Advanced)
    ensures IsMoment(moment) && step.To? ==> IsMoment(step.moment)
  {
    if interval < 1 then Raised(BadInterval)
    else
      var date :=
        match rule
        case Daily => AddDays(moment.date, interval)
        case Weekly => AddDays(moment.date, 7 * interval)
        case Monthly => AddMonths(moment.date, interval)
        case Yearly => AddMonths(moment.date, 12 * interval);
      if date.year > MAX_YEAR then Raised(OutOfRange) else To(Moment(date, moment.time))
  }

  function Limited(scheduled: Moment, until: Option<Moment>): Next {
    if until.Some? && Before(until.value, scheduled) then SeriesOver else Due(scheduled)
  }

  /** `next_due_date` */
  function NextDueDate(due: Moment, rule: Rule, interval: int, completed: Moment, until: Option<Moment>): (next: Next)
    ensures IsMoment(due) && IsMoment(completed) && next.Due? ==> IsMoment(next.moment)
  {
    match Advance(due, rule, interval)
    case Raised(error) => Failed(error)
    case To(scheduled) =>
      if Before(completed, scheduled) then Limited(scheduled, until)
      else
        match Advance(Moment(completed.date, due.time), rule, interval)
        case Raised(error) => Failed(error)
        case To(moved) => Limited(moved, until)
  }

  // ---- Days on a line ----

  function YearLength(year: int): int { if IsLeap(year) then 366 else 365 }

  function DaysBeforeYear(year: int): int
    decreases year
  {
    if year <= 1 then 0 else DaysBeforeYear(year - 1) + YearLength(year - 1)
  }

  function DaysBeforeMonth(year: int, month: int): int
    decreases month
  {
    if month <= 1 then 0 else DaysBeforeMonth(year, month - 1) + DaysInMonth(year, month - 1)
  }

  /** `date.toordinal()` */
  function Ordinal(d: Date): int { DaysBeforeYear(d.year) + DaysBeforeMonth(d.year, d.month) + d.day }

  lemma MonthsFillTheYear(year: int)
    ensures DaysBeforeMonth(year, 12) + 31 == YearLength(year)
  {
    assert DaysBeforeMonth(year, 3) == 31 + DaysInMonth(year, 2);
    assert DaysBeforeMonth(year, 6) == DaysBeforeMonth(year, 3) + 92;
    assert DaysBeforeMonth(year, 9) == DaysBeforeMonth(year, 6) + 92;
    assert DaysBeforeMonth(year, 12) == DaysBeforeMonth(year, 9) + 91;
  }

  lemma NextDayIsNext(d: Date)
    requires IsDay(d)
    ensures IsDay(NextDay(d)) && Earlier(d, NextDay(d)) && Ordinal(NextDay(d)) == Ordinal(d) + 1
  {
    if d.month == 12 {
      MonthsFillTheYear(d.year);
    }
  }

  /** Adding days moves exactly that many places along the line. */
  lemma {:induction false} AddDaysIsAddition(d: Date, days: nat)
    requires IsDay(d)
    ensures IsDay(AddDays(d, days)) && Ordinal(AddDays(d, days)) == Ordinal(d) + days
  {
    if days > 0 {
      AddDaysIsAddition(d, days - 1);
      NextDayIsNext(AddDays(d, days - 1));
    }
  }

  lemma {:induction false} MonthsAreOrdered(year: int, a: int, b: int)
    requires 1 <= a < b <= 12
    ensures DaysBeforeMonth(year, a) + DaysInMonth(year, a) <= DaysBeforeMonth(year, b)
  {
    if a < b - 1 {
      MonthsAreOrdered(year, a, b - 1);
    }
  }

  lemma DayFitsTheYear(d: Date)
    requires IsDay(d)
    ensures 1 <= DaysBeforeMonth(d.year, d.month) + d.day <= YearLength(d.year)
  {
    MonthsFillTheYear(d.year);
    if d.month < 12 { MonthsAreOrdered(d.year, d.month, 12); }
    if d.month > 1 { MonthsAreOrdered(d.year, 1, d.month); }
  }

  lemma {:induction false} YearsAreOrdered(a: int, b: int)
    requires 1 <= a < b
    ensures DaysBeforeYear(a) + YearLength(a) <= DaysBeforeYear(b)
    decreases b
  {
    if a < b - 1 {
      YearsAreOrdered(a, b - 1);
    }
  }

  lemma EarlierIsLess(a: Date, b: Date)
    requires IsDay(a) && IsDay(b) && Earlier(a, b)
    ensures Ordinal(a) < Ordinal(b)
  {
    if a.year < b.year {
      YearsAreOrdered(a.year, b.year);
      DayFitsTheYear(a);
      DayFitsTheYear(b);
    } else if a.month < b.month {
      MonthsAreOrdered(a.year, a.month, b.month);
    }
  }

  /** The order of the fields is the order on the line. */
  lemma EarlierExactly(a: Date, b: Date)
    requires IsDay(a) && IsDay(b)
    ensures Earlier(a, b) <==> Ordinal(a) < Ordinal(b)
    ensures a == b <==> Ordinal(a) == Ordinal(b)
  {
    if Earlier(a, b) {
      EarlierIsLess(a, b);
    } else if Earlier(b, a) {
      EarlierIsLess(b, a);
    }
  }

  lemma FoursGrow(n: nat)
    requires n >= 1
    ensures n / 4 == (n - 1) / 4 + if n % 4 == 0 then 1 else 0
  {
  }

  lemma HundredsGrow(n: nat)
    requires n >= 1
    ensures n / 100 == (n - 1) / 100 + if n % 100 == 0 then 1 else 0
  {
  }

  lemma FourHundredsGrow(n: nat)
    requires n >= 1
    ensures n / 400 == (n - 1) / 400 + if n % 400 == 0 then 1 else 0
  {
  }

  lemma CenturiesAreFours(n: nat)
    ensures n % 100 == 0 ==> n % 4 == 0
    ensures n % 400 == 0 ==> n % 100 == 0
  {
    if n % 100 == 0 {
      assert n == 4 * (25 * (n / 100));
    }
    if n % 400 == 0 {
      assert n == 100 * (4 * (n / 400));
    }
  }

  lemma {:induction false} DaysBeforeYearExactly(year: int)
    requires year >= 1
    ensures DaysBeforeYear(year) == 365 * (year - 1) + (year - 1) / 4 - (year - 1) / 100 + (year - 1) / 400
    decreases year
  {
    if year > 1 {
      var n := year - 1;
      DaysBeforeYearExactly(n);
      assert DaysBeforeYear(year) == DaysBeforeYear(n) + YearLength(n);
      FoursGrow(n);
      HundredsGrow(n);
      FourHundredsGrow(n);
      CenturiesAreFours(n);
    }
  }

  lemma DaysBeforeMonthExactly(year: int, month: int)
    requires 1 <= month <= 12
    ensures DaysBeforeMonth(year, month)
         == [0, 31, 59, 90, 120, 151, 181, 212, 243, 273, 304, 334][month - 1]
            + if month > 2 && year % 4 == 0 && (year % 100 != 0 || year % 400 == 0) then 1 else 0
  {
    assert DaysBeforeMonth(year, 3) == 31 + DaysInMonth(year, 2);
    assert DaysBeforeMonth(year, 5) == DaysBeforeMonth(year, 3) + 61;
    assert DaysBeforeMonth(year, 7) == DaysBeforeMonth(year, 5) + 61;
    assert DaysBeforeMonth(year, 9) == DaysBeforeMonth(year, 7) + 62;
    assert DaysBeforeMonth(year, 11) == DaysBeforeMonth(year, 9) + 61;
  }

  /** The place of a day is the one that the Gregorian calendar gives it. */
  lemma OrdinalExactly(d: Date)
    requires IsDay(d)
    ensures var y := d.year - 1;
            Ordinal(d) == 365 * y + y / 4 - y / 100 + y / 400
                          + [0, 31, 59, 90, 120, 151, 181, 212, 243, 273, 304, 334][d.month - 1]
                          + (if d.month > 2 && d.year % 4 == 0 && (d.year % 100 != 0 || d.year % 400 == 0) then 1 else 0)
                          + d.day
  {
    DaysBeforeYearExactly(d.year);
    DaysBeforeMonthExactly(d.year, d.month);
  }

  /** Moments are before each other as the microseconds are that they lie behind the first day. */
  lemma BeforeExactly(a: Moment, b: Moment)
    requires IsMoment(a) && IsMoment(b)
    ensures Before(a, b) <==> Ordinal(a.date) * 86_400_000_000 + a.time < Ordinal(b.date) * 86_400_000_000 + b.time
  {
    EarlierExactly(a.date, b.date);
    if Earlier(b.date, a.date) {
      EarlierIsLess(b.date, a.date);
    }
  }

  // ---- One step ----

  /** Months since the calendar began. */
  function MonthIndex(d: Date): int { 12 * d.year + d.month - 1 }

  function MonthLength(index: int): int { DaysInMonth(index / 12, index % 12 + 1) }

  /** A month later is in the month it should be, on the same day or on the month's last. */
  lemma AddMonthsExactly(d: Date, months: nat)
    requires IsDay(d)
    ensures var later := AddMonths(d, months);
            && IsDay(later) && MonthIndex(later) == MonthIndex(d) + months
            && MonthLength(MonthIndex(later)) == DaysInMonth(later.year, later.month)
            && (later.day == d.day || later.day == DaysInMonth(later.year, later.month) < d.day)
  {
    var total := d.month - 1 + months;
    assert total == 12 * (total / 12) + total % 12;
  }

  const LAST_DAY := Date(9999, 12, 31)

  /**
   What a step of each rule is: a number of days along the line, or of months along the
   calendar, and out of range exactly if that leads past the last day there is.
   */
  lemma AdvanceExactly(m: Moment, rule: Rule, interval: int)
    requires IsMoment(m) && interval >= 1
    ensures var days := if rule == Daily then interval else 7 * interval;
            rule.Daily? || rule.Weekly? ==>
              match Advance(m, rule, interval)
              case To(r) => Ordinal(r.date) == Ordinal(m.date) + days
              case Raised(error) => error == OutOfRange && Ordinal(m.date) + days > Ordinal(LAST_DAY)
    ensures var months := if rule == Monthly then interval else 12 * interval;
            rule.Monthly? || rule.Yearly? ==>
              match Advance(m, rule, interval)
              case To(r) =>
                && MonthIndex(r.date) == MonthIndex(m.date) + months
                && r.date.day == (if m.date.day <= MonthLength(MonthIndex(r.date)) then m.date.day else MonthLength(MonthIndex(r.date)))
              case Raised(error) => error == OutOfRange && MonthIndex(m.date) + months > MonthIndex(LAST_DAY)
    ensures Advance(m, rule, interval).To? ==>
              var r := Advance(m, rule, interval).moment;
              IsMoment(r) && r.time == m.time && Earlier(m.date, r.date)
  {
    match rule {
      case Daily => DaysAhead(m.date, interval);
      case Weekly => DaysAhead(m.date, 7 * interval);
      case Monthly => MonthsAhead(m.date, interval);
      case Yearly => MonthsAhead(m.date, 12 * interval);
    }
  }

  lemma DaysAhead(d: Date, days: nat)
    requires IsDate(d) && days > 0
    ensures var later := AddDays(d, days);
            && IsDay(later) && Earlier(d, later) && Ordinal(later) == Ordinal(d) + days
            && (later.year > MAX_YEAR <==> Ordinal(later) > Ordinal(LAST_DAY))
  {
    var later := AddDays(d, days);
    AddDaysIsAddition(d, days);
    EarlierExactly(d, later);
    EarlierExactly(LAST_DAY, later);
  }

  lemma MonthsAhead(d: Date, months: nat)
    requires IsDate(d) && months > 0
    ensures var later := AddMonths(d, months);
            && IsDay(later) && Earlier(d, later) && MonthIndex(later) == MonthIndex(d) + months
            && MonthLength(MonthIndex(later)) == DaysInMonth(later.year, later.month)
            && (later.year > MAX_YEAR <==> MonthIndex(later) > MonthIndex(LAST_DAY))
  {
    AddMonthsExactly(d, months);
  }

  // ---- The next instance ----

  /**
   The next instance is due strictly after this one was and strictly after the completion, at the
   same time of day and never past the end of the series; it is one step from the due date if
   that is still ahead, and one step from the day of the completion otherwise.
   */
  lemma NextInstance(due: Moment, rule: Rule, interval: int, completed: Moment, until: Option<Moment>)
    requires IsMoment(due) && IsMoment(completed)
    requires NextDueDate(due, rule, interval, completed, until).Due?
    ensures var next := NextDueDate(due, rule, interval, completed, until).moment;
            && IsMoment(next) && Earlier(due.date, next.date) && Before(completed, next)
            && next.time == due.time && (until.Some? ==> !Before(until.value, next))
            && (Advance(due, rule, interval) == To(next)
                || (Advance(Moment(completed.date, due.time), rule, interval) == To(next)
                    && !Before(completed, Advance(due, rule, interval).moment)))
  {
    AdvanceExactly(due, rule, interval);
    AdvanceExactly(Moment(completed.date, due.time), rule, interval);
  }

  /** There is no next instance exactly if the interval is no interval or the step leads out of the series or the calendar. */
  lemma NoNextInstanceExactly(due: Moment, rule: Rule, interval: int, completed: Moment, until: Option<Moment>)
    requires IsMoment(due) && IsMoment(completed)
    ensures NextDueDate(due, rule, interval, completed, until) == Failed(BadInterval) <==> interval < 1
    ensures interval >= 1 ==>
              var onTime := Advance(due, rule, interval);
              var step := if onTime.To? && !Before(completed, onTime.moment)
                          then Advance(Moment(completed.date, due.time), rule, interval) else onTime;
              && (NextDueDate(due, rule, interval, completed, until) == Failed(OutOfRange) <==> step.Raised?)
              && (NextDueDate(due, rule, interval, completed, until).SeriesOver? <==>
                  step.To? && until.Some? && Before(until.value, step.moment))
  {
    if interval >= 1 {
      AdvanceExactly(due, rule, interval);
      AdvanceExactly(Moment(completed.date, due.time), rule, interval);
    }
  }

  /** The instance a series has come to after these completions. */
  function Series(due: Moment, rule: Rule, interval: int, until: Option<Moment>, completions: seq<Moment>): Next
    decreases |completions|
  {
    if completions == [] then Due(due)
    else
      match NextDueDate(due, rule, interval, completions[0], until)
      case Due(next) => Series(next, rule, interval, until, completions[1..])
      case other => other
  }

  ghost predicate AreMoments(completions: seq<Moment>) {
    forall i | 0 <= i < |completions| :: IsMoment(completions[i])
  }

  /** However late the completions, every instance is at least a day after the one before. */
  lemma {:induction false} EveryInstanceIsADayLater(due: Moment, rule: Rule, interval: int, until: Option<Moment>, completions: seq<Moment>)
    requires IsMoment(due) && AreMoments(completions)
    requires Series(due, rule, interval, until, completions).Due?
    ensures var last := Series(due, rule, interval, until, completions).moment;
            && IsMoment(last) && last.time == due.time
            && Ordinal(last.date) >= Ordinal(due.date) + |completions|
            && (completions != [] && until.Some? ==> !Before(until.value, last))
    decreases |completions|
  {
    if completions != [] {
      NextInstance(due, rule, interval, completions[0], until);
      var next := NextDueDate(due, rule, interval, completions[0], until).moment;
      EarlierExactly(due.date, next.date);
      EveryInstanceIsADayLater(next, rule, interval, until, completions[1..]);
    }
  }

  /** So a series with an end has no more instances than there are days up to it. */
  lemma SeriesEnds(due: Moment, rule: Rule, interval: int, until: Moment, completions: seq<Moment>)
    requires IsMoment(due) && IsMoment(until) && AreMoments(completions)
    requires |completions| > 0 && |completions| > Ordinal(until.date) - Ordinal(due.date)
    ensures !Series(due, rule, interval, Some(until), completions).Due?
  {
    if Series(due, rule, interval, Some(until), completions).Due? {
      EveryInstanceIsADayLater(due, rule, interval, Some(until), completions);
      var last := Series(due, rule, interval, Some(until), completions).moment;
      EarlierExactly(until.date, last.date);
    }
  }

  // ---- A series that is kept up with ----

  /** Every completion comes before the next instance falls due. */
  ghost predicate OnTime(due: Moment, rule: Rule, interval: int, completions: seq<Moment>)
    decreases |completions|
  {
    completions != [] && Advance(due, rule, interval).To? ==>
      && Before(completions[0], Advance(due, rule, interval).moment)
      && OnTime(Advance(due, rule, interval).moment, rule, interval, completions[1..])
  }

  /** The least of a day and the lengths of the next `n` months that are visited. */
  function LeastDay(day: int, index: int, months: int, n: nat): int {
    if n == 0 then day
    else
      var least := LeastDay(day, index, months, n - 1);
      var length := MonthLength(index + n * months);
      if least <= length then least else length
  }

  lemma {:induction false} LeastDayShifts(day: int, index: int, months: int, n: nat)
    requires n > 0
    ensures var first := MonthLength(index + months);
            LeastDay(day, index, months, n) == LeastDay(if day <= first then day else first, index + months, months, n - 1)
  {
    if n == 1 {
      assert LeastDay(day, index, months, 0) == day;
      assert index + 1 * months == index + months;
    } else {
      LeastDayShifts(day, index, months, n - 1);
      assert index + months + (n - 1) * months == index + n * months;
    }
  }

  /** The first completion in time moves the series one step on from its due date. */
  lemma FirstOnTime(due: Moment, rule: Rule, interval: int, until: Option<Moment>, completions: seq<Moment>)
    returns (next: Moment)
    requires IsMoment(due) && AreMoments(completions) && completions != []
    requires OnTime(due, rule, interval, completions) && Series(due, rule, interval, until, completions).Due?
    ensures IsMoment(next) && next.time == due.time && OnTime(next, rule, interval, completions[1..])
    ensures Series(due, rule, interval, until, completions) == Series(next, rule, interval, until, completions[1..])
    ensures rule.Daily? ==> Ordinal(next.date) == Ordinal(due.date) + interval
    ensures rule.Weekly? ==> Ordinal(next.date) == Ordinal(due.date) + 7 * interval
    ensures var months := if rule == Monthly then interval else 12 * interval;
            rule.Monthly? || rule.Yearly? ==>
              && MonthIndex(next.date) == MonthIndex(due.date) + months
              && next.date.day == LeastDay(due.date.day, MonthIndex(due.date), months, 1)
  {
    next := Advance(due, rule, interval).moment;
    AdvanceExactly(due, rule, interval);
    var months := if rule == Monthly then interval else 12 * interval;
    assert LeastDay(due.date.day, MonthIndex(due.date), months, 0) == due.date.day;
    assert MonthIndex(due.date) + 1 * months == MonthIndex(due.date) + months;
  }

  lemma OneMore(n: nat, step: int)
    requires n > 0
    ensures step + (n - 1) * step == n * step
  {
  }

  lemma LeastDayOnce(day: int, index: int, months: int)
    ensures var first := MonthLength(index + months);
            LeastDay(day, index, months, 1) == if day <= first then day else first
  {
    assert LeastDay(day, index, months, 0) == day;
    assert index + 1 * months == index + months;
  }

  /** `n` steps of so many months ahead, on the day it started on or on the shortest of the months visited. */
  ghost predicate IsMonthsAhead(from: Moment, to: Moment, months: int, n: nat) {
    && MonthIndex(to.date) == MonthIndex(from.date) + n * months
    && to.date.day == LeastDay(from.date.day, MonthIndex(from.date), months, n)
    && to.time == from.time
  }

  lemma MonthsCompose(from: Moment, next: Moment, to: Moment, months: int, n: nat)
    requires n > 0 && IsMonthsAhead(from, next, months, 1) && IsMonthsAhead(next, to, months, n - 1)
    ensures IsMonthsAhead(from, to, months, n)
  {
    LeastDayShifts(from.date.day, MonthIndex(from.date), months, n);
    LeastDayOnce(from.date.day, MonthIndex(from.date), months);
    OneMore(n, months);
  }

  lemma FirstIsMonthsAhead(due: Moment, rule: Rule, interval: int, until: Option<Moment>, completions: seq<Moment>, months: int)
    returns (next: Moment)
    requires (rule.Monthly? && months == interval) || (rule.Yearly? && months == 12 * interval)
    requires IsMoment(due) && AreMoments(completions) && completions != []
    requires OnTime(due, rule, interval, completions) && Series(due, rule, interval, until, completions).Due?
    ensures IsMoment(next) && OnTime(next, rule, interval, completions[1..]) && AreMoments(completions[1..])
    ensures Series(due, rule, interval, until, completions) == Series(next, rule, interval, until, completions[1..])
    ensures IsMonthsAhead(due, next, months, 1)
  {
    next := FirstOnTime(due, rule, interval, until, completions);
  }

  /** After `n` completions in time, a series by months has come to the month `n` intervals ahead. */
  lemma {:induction false} MonthlySeriesOnTime(due: Moment, rule: Rule, interval: int, until: Option<Moment>,
        completions: seq<Moment>, months: int)
    requires (rule.Monthly? && months == interval) || (rule.Yearly? && months == 12 * interval)
    requires IsMoment(due) && AreMoments(completions) && OnTime(due, rule, interval, completions)
    requires Series(due, rule, interval, until, completions).Due?
    ensures IsMonthsAhead(due, Series(due, rule, interval, until, completions).moment, months, |completions|)
    decreases |completions|
  {
    if completions == [] {
      assert LeastDay(due.date.day, MonthIndex(due.date), months, 0) == due.date.day;
    } else {
      var next := FirstIsMonthsAhead(due, rule, interval, until, completions, months);
      MonthlySeriesOnTime(next, rule, interval, until, completions[1..], months);
      MonthsCompose(due, next, Series(due, rule, interval, until, completions).moment, months, |completions|);
    }
  }

  /** The least day is what it says: no more than the start and any month on the way, and one of them. */
  lemma {:induction false} LeastDayIsLeast(day: int, index: int, months: int, n: nat)
    ensures LeastDay(day, index, months, n) <= day
    ensures forall k | 1 <= k <= n :: LeastDay(day, index, months, n) <= MonthLength(index + k * months)
    ensures LeastDay(day, index, months, n) == day
            || exists k | 1 <= k <= n :: LeastDay(day, index, months, n) == MonthLength(index + k * months)
  {
    if n > 0 {
      LeastDayIsLeast(day, index, months, n - 1);
    }
  }

  /** A daily or weekly series that is kept up with never leaves its rhythm. */
  lemma {:induction false} DailySeriesOnTime(due: Moment, rule: Rule, interval: int, until: Option<Moment>, completions: seq<Moment>)
    requires rule.Daily? || rule.Weekly?
    requires IsMoment(due) && AreMoments(completions) && OnTime(due, rule, interval, completions)
    requires Series(due, rule, interval, until, completions).Due?
    ensures var last := Series(due, rule, interval, until, completions).moment;
            var days := if rule == Daily then interval else 7 * interval;
            Ordinal(last.date) == Ordinal(due.date) + |completions| * days && last.time == due.time
    decreases |completions|
  {
    var days := if rule == Daily then interval else 7 * interval;
    if completions != [] {
      var next := FirstOnTime(due, rule, interval, until, completions);
      DailySeriesOnTime(next, rule, interval, until, completions[1..]);
      OneMore(|completions|, days);
    }
  }
}
