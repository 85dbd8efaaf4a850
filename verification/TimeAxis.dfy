/** Settlement days, wall-clock readings and position arithmetic. Instants are microseconds. */
module TimeAxis {
  import opened Prelude

  const SECOND: int := 1_000_000
  const MINUTE: int := 60 * SECOND
  const HOUR: int := 60 * MINUTE
  const DAY: int := 24 * HOUR

  /** Half-open, in UTC. */
  datatype Interval = Interval(start: int, end: int) {
    predicate Holds(t: int) { start <= t < end }
  }

  /**
   * A zone that switches only at 01:00 UTC: `summer(n)` says whether the clock is one hour
   * ahead of `standard` from 01:00 UTC of day n to 01:00 UTC of day n + 1.
   */
  datatype Zone = Zone(standard: int, summer: int -> bool)

  datatype TimeError = DoesNotExist | HappensTwice | EmptySpan | UnevenSpan | NotOneBased

  function SwitchDay(t: int): int { (t - HOUR) / DAY }

  function Offset(z: Zone, t: int): int {
    z.standard + if z.summer(SwitchDay(t)) then HOUR else 0
  }

  function ToWall(z: Zone, t: int): int { t + Offset(z, t) }

  function LocalDate(z: Zone, t: int): int { ToWall(z, t) / DAY }

  /** PEP 495: without fold a doubled reading is its first occurrence, with fold its second. */
  function UtcOffset(z: Zone, reading: int, fold: bool): int {
    Offset(z, reading - z.standard - if fold then 0 else HOUR)
  }

  function ToUtc(z: Zone, reading: int, fold: bool): int { reading - UtcOffset(z, reading, fold) }

  function AssertUnambiguous(z: Zone, reading: int, fold: bool): Result<(), TimeError> {
    if ToWall(z, ToUtc(z, reading, fold)) != reading then Err(DoesNotExist)
    else if UtcOffset(z, reading, fold) != UtcOffset(z, reading, true) then Err(HappensTwice)
    else Ok(())
  }

  function SettlementDay(z: Zone, day: int): Result<Interval, TimeError> {
    var first, last := day * DAY, (day + 1) * DAY;
    if AssertUnambiguous(z, first, false).Err? then Err(AssertUnambiguous(z, first, false).error)
    else if AssertUnambiguous(z, last, false).Err? then Err(AssertUnambiguous(z, last, false).error)
    else Ok(Interval(ToUtc(z, first, false), ToUtc(z, last, false)))
  }

  function PeriodCount(start: int, end: int, resolution: int): (r: Result<int, TimeError>)
    requires resolution > 0
    ensures r.Ok? ==> r.value > 0 && start + r.value * resolution == end
    ensures r.Err? ==> forall n: int :: n > 0 ==> start + n * resolution != end
  {
    if end - start <= 0 then Err(EmptySpan)
    else if (end - start) % resolution != 0 then
      NoWholeCount(end - start, resolution);
      Err(UnevenSpan)
    else Ok((end - start) / resolution)
  }

  function PositionTime(start: int, resolution: int, position: int): Result<int, TimeError> {
    if position < 1 then Err(NotOneBased) else Ok(start + (position - 1) * resolution)
  }

  lemma NoWholeCount(span: int, resolution: int)
    requires resolution > 0
    ensures span % resolution != 0 ==> forall n: int :: n * resolution != span
  {
    var q, r := span / resolution, span % resolution;
    forall n: int | r != 0 ensures n * resolution != span {
      if n <= q {
        assert (q - n) * resolution >= 0;
      } else {
        assert (n - q - 1) * resolution >= 0;
      }
    }
  }

  lemma WholeExact(x: int, d: int)
    requires d > 0
    ensures x % d == 0 <==> exists n: int :: n * d == x
  {
    NoWholeCount(x, d);
    assert x % d == 0 ==> (x / d) * d == x;
  }

  lemma MultiplesInOrder(a: int, b: int, d: int)
    requires d > 0
    ensures a < b <==> a * d < b * d
  {
    if a < b {
      assert (b - a) * d > 0;
    } else {
      assert (a - b) * d >= 0;
    }
  }

  /** Exactly which readings the guard accepts, and which error each other one gets. */
  lemma AmbiguityExact(z: Zone, reading: int)
    ensures AssertUnambiguous(z, reading, false).Ok?
            <==> exists t :: ToWall(z, t) == reading && forall u :: ToWall(z, u) == reading ==> u == t
    ensures AssertUnambiguous(z, reading, false) == Err(DoesNotExist) <==> forall t :: ToWall(z, t) != reading
    ensures AssertUnambiguous(z, reading, false) == Err(HappensTwice)
            <==> exists t, u :: t < u && ToWall(z, t) == reading && ToWall(z, u) == reading
  {
    var early, late := reading - z.standard - HOUR, reading - z.standard;
    assert forall t :: ToWall(z, t) == reading ==> t == early || t == late;
    assert ToWall(z, early) == reading <==> z.summer(SwitchDay(early));
    assert ToWall(z, late) == reading <==> !z.summer(SwitchDay(late));
  }

  /** With fold set the guard only refuses skipped readings: a doubled one passes. */
  lemma FoldedReadingPasses(z: Zone, reading: int)
    ensures AssertUnambiguous(z, reading, true).Ok? <==> exists t :: ToWall(z, t) == reading
  {
    var early, late := reading - z.standard - HOUR, reading - z.standard;
    assert forall t :: ToWall(z, t) == reading ==> t == early || t == late;
    assert ToWall(z, early) == reading <==> z.summer(SwitchDay(early));
    assert ToWall(z, late) == reading <==> !z.summer(SwitchDay(late));
  }

  /** A doubled reading that passes with fold set: half past two on the night Paris goes back, on day 100. */
  lemma DoubledReadingPasses() returns (z: Zone, reading: int)
    ensures reading == 100 * DAY + 5 * HOUR / 2
    ensures ToWall(z, reading - 2 * HOUR) == ToWall(z, reading - HOUR) == reading
    ensures AssertUnambiguous(z, reading, true).Ok? && AssertUnambiguous(z, reading, false) == Err(HappensTwice)
  {
    z, reading := Zone(HOUR, day => day < 100), 100 * DAY + 5 * HOUR / 2;
  }

  /** No switch falls on local midnight: true of every European bidding zone, false of the Azores. */
  predicate MidnightSafe(z: Zone) {
    -14 * HOUR <= z.standard <= 14 * HOUR && !(-2 * HOUR < z.standard <= -HOUR)
  }

  lemma MidnightSwitchDays(z: Zone, day: int)
    requires -14 * HOUR <= z.standard <= 14 * HOUR
    ensures var early, late := SwitchDay(day * DAY - z.standard - HOUR), SwitchDay(day * DAY - z.standard);
            if MidnightSafe(z) then early == late && (z.standard > -HOUR ==> late == day - 1)
            else early == day - 1 && late == day
  {
  }

  /** The guard fires on a day exactly when the zone switches at midnight and a switch touches the day. */
  lemma MidnightGuardExact(z: Zone, day: int)
    requires -14 * HOUR <= z.standard <= 14 * HOUR
    ensures SettlementDay(z, day).Err?
            <==> !MidnightSafe(z) && !(z.summer(day - 1) == z.summer(day) == z.summer(day + 1))
  {
    MidnightSwitchDays(z, day);
    MidnightSwitchDays(z, day + 1);
  }

  /** The guard does fire: where midnight is 01:00 UTC, the night the clock goes forward skips it. */
  lemma MidnightSkipped() returns (z: Zone)
    ensures z.standard == -HOUR && SettlementDay(z, 100) == Err(DoesNotExist)
  {
    z := Zone(-HOUR, day => day >= 100);
  }

  /** The UTC instant at which a local day begins. */
  function DayStart(z: Zone, day: int): int { ToUtc(z, day * DAY, false) }

  lemma DayStartSeparates(z: Zone, day: int, t: int)
    requires MidnightSafe(z)
    ensures t >= DayStart(z, day) <==> ToWall(z, t) >= day * DAY
  {
    MidnightSwitchDays(z, day);
    var early, late := day * DAY - z.standard - HOUR, day * DAY - z.standard;
    if early <= t < late {
      assert SwitchDay(t) == SwitchDay(early);
    }
  }

  lemma DateBounds(reading: int, first: int, last: int)
    ensures first <= reading / DAY <= last <==> first * DAY <= reading && !((last + 1) * DAY <= reading)
  {
  }

  /** Settlement days tile UTC: an instant lies in a day exactly when its local date is that day. */
  lemma SettlementDaysTile(z: Zone, day: int, t: int)
    requires MidnightSafe(z)
    ensures SettlementDay(z, day) == Ok(Interval(DayStart(z, day), DayStart(z, day + 1)))
    ensures SettlementDay(z, day).value.Holds(t) <==> LocalDate(z, t) == day
  {
    assert SettlementDay(z, day) == Ok(Interval(DayStart(z, day), DayStart(z, day + 1))) by {
      MidnightGuardExact(z, day);
    }
    DayStartSeparates(z, day, t);
    DayStartSeparates(z, day + 1, t);
    DateBounds(ToWall(z, t), day, day);
  }

  lemma DayStartNear(z: Zone, day: int)
    ensures -HOUR <= DayStart(z, day) - (day * DAY - z.standard) <= 0
  {
  }

  /** A range of settlement days is one interval, with no gap between the days and none outside. */
  lemma SettlementRange(z: Zone, first: int, last: int, t: int)
    requires MidnightSafe(z) && first <= last
    ensures Interval(DayStart(z, first), DayStart(z, last + 1)).Holds(t) <==> first <= LocalDate(z, t) <= last
    ensures DayStart(z, first) < DayStart(z, last + 1)
  {
    DayStartSeparates(z, first, t);
    DayStartSeparates(z, last + 1, t);
    DateBounds(ToWall(z, t), first, last);
    DayStartNear(z, first);
    DayStartNear(z, last + 1);
  }

  /** 23, 24 or 25 hours, decided by the switch at 01:00 UTC of the day itself. */
  lemma DayLength(z: Zone, day: int)
    requires -HOUR < z.standard <= 14 * HOUR
    ensures var i := Interval(DayStart(z, day), DayStart(z, day + 1));
            var hours := if z.summer(day - 1) == z.summer(day) then 24 else if z.summer(day) then 23 else 25;
            i.end - i.start == hours * HOUR && PeriodCount(i.start, i.end, 15 * MINUTE) == Ok(4 * hours)
  {
    MidnightSwitchDays(z, day);
    MidnightSwitchDays(z, day + 1);
  }
}
