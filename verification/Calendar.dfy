/** The civil calendar, as far as picking last month's settlement days needs it. */
module Calendar {
  import opened Prelude
  import opened TimeAxis

  datatype Date = Date(year: int, month: int, day: int)

  predicate IsLeap(y: int) { y % 4 == 0 && (y % 100 != 0 || y % 400 == 0) }

  function DaysInMonth(y: int, m: int): int
    requires 1 <= m <= 12
  {
    if m == 2 && IsLeap(y) then 29 else [31, 28, 31, 30, 31, 30, 31, 31, 30, 31, 30, 31][m - 1]
  }

  predicate IsDate(d: Date) { 1 <= d.month <= 12 && 1 <= d.day <= DaysInMonth(d.year, d.month) }

  function DaysBeforeYear(y: int): int { 365 * (y - 1) + (y - 1) / 4 - (y - 1) / 100 + (y - 1) / 400 }

  function DaysBeforeMonth(y: int, m: int): int
    requires 1 <= m <= 12
  {
    [0, 31, 59, 90, 120, 151, 181, 212, 243, 273, 304, 334][m - 1] + if m > 2 && IsLeap(y) then 1 else 0
  }

  /** The proleptic Gregorian ordinal, 1 for 0001-01-01. */
  function Ordinal(d: Date): int
    requires 1 <= d.month <= 12
  {
    DaysBeforeYear(d.year) + DaysBeforeMonth(d.year, d.month) + d.day
  }

  /** date - timedelta(days=1). */
  function DayBefore(d: Date): (r: Date)
    requires IsDate(d)
    ensures IsDate(r) && Ordinal(r) == Ordinal(d) - 1
  {
    if d.day > 1 then Date(d.year, d.month, d.day - 1)
    else if d.month > 1 then
      MonthLength(d.year, d.month - 1);
      Date(d.year, d.month - 1, DaysInMonth(d.year, d.month - 1))
    else
      YearLength(d.year - 1);
      Date(d.year - 1, 12, 31)
  }

  lemma MonthLength(y: int, m: int)
    requires 1 <= m < 12
    ensures DaysBeforeMonth(y, m + 1) == DaysBeforeMonth(y, m) + DaysInMonth(y, m)
    ensures DaysInMonth(y, m) >= 28
  {
  }

  /** Months alternate between 31 and 30 days, starting over in August; February is short. */
  lemma MonthLengths(y: int, m: int)
    requires 1 <= m <= 12
    ensures m != 2 ==> DaysInMonth(y, m) == 30 + (m + m / 8) % 2
    ensures DaysInMonth(y, 2) == DaysBeforeYear(y + 1) - DaysBeforeYear(y) - 337
    ensures 28 <= DaysInMonth(y, m) <= 31
  {
    LeapCount(y);
  }

  /** Dates repeat after 400 years of 146 097 days. */
  lemma OrdinalCycle(d: Date, later: Date)
    requires 1 <= d.month <= 12 && later == Date(d.year + 400, d.month, d.day)
    ensures Ordinal(later) == Ordinal(d) + 146_097
  {
    YearCycle(d.year, later.year);
    MonthCycle(d.year, later.year, d.month);
  }

  lemma YearCycle(y: int, later: int)
    requires later == y + 400
    ensures DaysBeforeYear(later) == DaysBeforeYear(y) + 146_097
  {
    assert (later - 1) / 4 == (y - 1) / 4 + 100;
    assert (later - 1) / 100 == (y - 1) / 100 + 4;
    assert (later - 1) / 400 == (y - 1) / 400 + 1;
  }

  lemma MonthCycle(y: int, later: int, m: int)
    requires 1 <= m <= 12 && later == y + 400
    ensures DaysBeforeMonth(later, m) == DaysBeforeMonth(y, m)
  {
    LeapCycle(y, later);
  }

  lemma LeapCycle(y: int, later: int)
    requires later == y + 400
    ensures IsLeap(later) <==> IsLeap(y)
  {
    SameRemainder(y, later, 100, 4);
    SameRemainder(y, later, 4, 100);
    SameRemainder(y, later, 1, 400);
  }

  lemma SameRemainder(y: int, later: int, times: int, d: int)
    requires d > 0 && later == y + times * d
    ensures later % d == y % d
  {
    RemainderUnique(later, y / d + times, y % d, d);
  }

  lemma RemainderUnique(x: int, q: int, r: int, d: int)
    requires d > 0 && x == q * d + r && 0 <= r < d
    ensures x % d == r
  {
    var n := x / d - q;
    assert n * d == r - x % d;
    MultiplesInOrder(n, 1, d);
    MultiplesInOrder(-1, n, d);
  }

  /** Two dates whose ordinals are well known, one of them in a leap century. */
  lemma KnownOrdinals()
    ensures Ordinal(Date(1970, 1, 1)) == 719_163 && Ordinal(Date(2000, 2, 29)) == 730_179
  {
  }

  lemma YearLength(y: int)
    ensures DaysBeforeMonth(y, 12) + 31 == DaysBeforeYear(y + 1) - DaysBeforeYear(y)
  {
    LeapCount(y);
  }

  lemma LeapCount(y: int)
    ensures DaysBeforeYear(y + 1) - DaysBeforeYear(y) == 365 + if IsLeap(y) then 1 else 0
  {
    Multiples4(y);
    Multiples100(y);
    Multiples400(y);
    Centuries(y);
  }

  lemma Centuries(y: int)
    ensures y % 400 == 0 ==> y % 100 == 0
    ensures y % 100 == 0 ==> y % 4 == 0
  {
  }

  lemma Multiples4(y: int)
    ensures y / 4 - (y - 1) / 4 == if y % 4 == 0 then 1 else 0
  {
  }

  lemma Multiples100(y: int)
    ensures y / 100 - (y - 1) / 100 == if y % 100 == 0 then 1 else 0
  {
  }

  lemma Multiples400(y: int)
    ensures y / 400 - (y - 1) / 400 == if y % 400 == 0 then 1 else 0
  {
  }

  /** Months counted from year zero. */
  function MonthIndex(d: Date): int { 12 * d.year + d.month - 1 }

  function FirstOfMonth(index: int): int { Ordinal(Date(index / 12, index % 12 + 1, 1)) }

  lemma MonthStep(y: int, m: int)
    requires 1 <= m <= 12
    ensures Ordinal(if m < 12 then Date(y, m + 1, 1) else Date(y + 1, 1, 1))
            == Ordinal(Date(y, m, 1)) + DaysInMonth(y, m)
  {
    if m == 12 {
      YearLength(y);
    } else {
      MonthLength(y, m);
    }
  }

  lemma MonthFollows(index: int)
    ensures FirstOfMonth(index + 1) == FirstOfMonth(index) + DaysInMonth(index / 12, index % 12 + 1)
  {
    MonthStep(index / 12, index % 12 + 1);
    if index % 12 == 11 {
      assert (index + 1) / 12 == index / 12 + 1 && (index + 1) % 12 == 0;
    } else {
      assert (index + 1) / 12 == index / 12 && (index + 1) % 12 == index % 12 + 1;
    }
  }

  lemma MonthStart(d: Date)
    requires IsDate(d)
    ensures FirstOfMonth(MonthIndex(d)) == Ordinal(d.(day := 1))
  {
    MonthOfIndex(d);
  }

  lemma MonthOfIndex(d: Date)
    requires IsDate(d)
    ensures MonthIndex(d) / 12 == d.year && MonthIndex(d) % 12 + 1 == d.month
  {
  }

  lemma InOwnMonth(d: Date)
    requires IsDate(d)
    ensures FirstOfMonth(MonthIndex(d)) <= Ordinal(d) < FirstOfMonth(MonthIndex(d) + 1)
  {
    MonthStart(d);
    MonthOfIndex(d);
    MonthFollows(MonthIndex(d));
    assert Ordinal(d) == Ordinal(d.(day := 1)) + d.day - 1;
  }

  lemma {:induction false} NonDecreasing(boundary: int -> int, i: int, j: int)
    requires i <= j && forall k :: boundary(k) <= boundary(k + 1)
    ensures boundary(i) <= boundary(j)
    decreases j - i
  {
    if i == j {
    } else {
      NonDecreasing(boundary, i, j - 1);
      assert boundary(j - 1) <= boundary((j - 1) + 1);
    }
  }

  /** In a non-decreasing sequence of boundaries, a point lies between one consecutive pair only. */
  lemma BetweenBoundaries(boundary: int -> int, own: int, index: int, x: int)
    requires forall k :: boundary(k) <= boundary(k + 1)
    requires boundary(own) <= x < boundary(own + 1)
    ensures own == index <==> boundary(index) <= x < boundary(index + 1)
  {
    if own < index {
      NonDecreasing(boundary, own + 1, index);
    } else if index < own {
      NonDecreasing(boundary, index + 1, own);
    }
  }

  lemma MonthOfPoint(own: int, index: int, x: int)
    requires FirstOfMonth(own) <= x < FirstOfMonth(own + 1)
    ensures own == index <==> FirstOfMonth(index) <= x < FirstOfMonth(index + 1)
  {
    forall k ensures FirstOfMonth(k) <= FirstOfMonth(k + 1) {
      MonthFollows(k);
    }
    BetweenBoundaries(FirstOfMonth, own, index, x);
  }

  /** A date's ordinal says which month it is in. */
  lemma OrdinalInMonth(d: Date, index: int)
    requires IsDate(d)
    ensures MonthIndex(d) == index <==> FirstOfMonth(index) <= Ordinal(d) < FirstOfMonth(index + 1)
  {
    InOwnMonth(d);
    MonthOfPoint(MonthIndex(d), index, Ordinal(d));
  }

  /** Settlement days first..last, and the instants between their local midnights. */
  datatype DayRange = DayRange(first: int, last: int, interval: Interval)

  /** The two ways of naming the range agree. */
  predicate IsRange(z: Zone, w: DayRange) {
    w.first <= w.last && w.interval == Interval(DayStart(z, w.first), DayStart(z, w.last + 1))
  }

  function LastDayOfPreviousMonth(today: Date): (r: Date)
    requires IsDate(today)
    ensures IsDate(r) && Ordinal(r) == Ordinal(today.(day := 1)) - 1
  {
    DayBefore(today.(day := 1))
  }

  /** Every settlement day of the calendar month before today's. */
  function LastMonth(z: Zone, today: Date): Result<DayRange, TimeError>
    requires IsDate(today)
  {
    var lastDay := LastDayOfPreviousMonth(today);
    DaysToRange(z, Ordinal(lastDay.(day := 1)), Ordinal(lastDay))
  }

  function DaysToRange(z: Zone, first: int, last: int): Result<DayRange, TimeError> {
    match SettlementDay(z, first) {
      case Err(e) => Err(e)
      case Ok(from) =>
        match SettlementDay(z, last) {
          case Err(e) => Err(e)
          case Ok(to) => Ok(DayRange(first, last, Interval(from.start, to.end)))
        }
    }
  }

  lemma DaysToRangeExact(z: Zone, first: int, last: int)
    requires MidnightSafe(z) && first <= last
    ensures DaysToRange(z, first, last)
            == Ok(DayRange(first, last, Interval(DayStart(z, first), DayStart(z, last + 1))))
  {
    SettlementDaysTile(z, first, 0);
    SettlementDaysTile(z, last, 0);
  }

  /** The audit's window is last month's: an instant lies in it exactly when its local date does. */
  lemma LastMonthExact(z: Zone, today: Date, t: int, d: Date)
    requires MidnightSafe(z) && IsDate(today) && IsDate(d) && Ordinal(d) == LocalDate(z, t)
    ensures LastMonth(z, today).Ok? && IsRange(z, LastMonth(z, today).value)
    ensures LastMonth(z, today).value.interval.Holds(t) <==> MonthIndex(d) == MonthIndex(today) - 1
  {
    var lastDay := LastDayOfPreviousMonth(today);
    var first, last := Ordinal(lastDay.(day := 1)), Ordinal(lastDay);
    DaysToRangeExact(z, first, last);
    SettlementRange(z, first, last, t);
    PreviousMonth(today, d);
  }

  lemma PreviousMonth(today: Date, d: Date)
    requires IsDate(today) && IsDate(d)
    ensures var last := LastDayOfPreviousMonth(today);
            Ordinal(last.(day := 1)) <= Ordinal(d) <= Ordinal(last) <==> MonthIndex(d) == MonthIndex(today) - 1
  {
    var last := LastDayOfPreviousMonth(today);
    MonthStart(today);
    MonthStart(last);
    OrdinalInMonth(last, MonthIndex(today) - 1);
    OrdinalInMonth(d, MonthIndex(today) - 1);
    MonthFollows(MonthIndex(today) - 1);
  }
}
