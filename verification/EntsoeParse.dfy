/** From the elements of a generation document to series with a real instant on every point. */
module EntsoeParse {
  import opened Prelude
  import opened TimeAxis
  import opened Records

  /** A timestamp as written: its instant, and its offset if it has one. */
  datatype Stamp = Stamp(instant: int, offset: Option<int>)

  datatype Bound = Start(at: Stamp) | End(at: Stamp) | OtherBound

  datatype PeriodChild =
    | Resolution(days: nat, hours: nat, minutes: nat)
    | TimeInterval(bounds: seq<Bound>)
    | Point(position: Option<int>, quantity: Option<Decimal>)
    | OtherChild

  datatype PeriodError =
    | UnsupportedResolution | NotUtcStamp | IncompletePoint | PositionTwice(position: int) | IncompletePeriod
    | BadInterval(cause: TimeError) | BeyondInterval | PositionBelowOne

  datatype SeriesError = NoPeriod | BothDirections | NoZone | BadPeriod(cause: PeriodError)

  datatype DocumentError = WrongRoot | BadSeries(cause: SeriesError) | BadRevision | NoCreationTime | CreationNotUtc

  datatype Observation = Observation(validTime: int, position: int, quantity: Decimal)

  datatype Series = Series(
    zone: string, productionType: string, direction: Direction, unit: string, resolution: int,
    start: int, end: int, observations: seq<Observation>, missing: seq<int>)

  /** What the pass over a Period's children has collected. */
  datatype Scan = Scan(resolution: Option<int>, start: Option<int>, end: Option<int>, quantities: map<int, Decimal>)

  function Duration(c: PeriodChild): int
    requires c.Resolution?
  {
    c.days * DAY + c.hours * HOUR + c.minutes * MINUTE
  }

  /** Sixty minutes are an hour and 24 hours a day, and the parts of a duration add up. */
  lemma DurationExact(days: nat, hours: nat, minutes: nat)
    ensures Duration(Resolution(0, 0, 1)) == 60_000_000
    ensures Duration(Resolution(0, 0, 60)) == Duration(Resolution(0, 1, 0))
    ensures Duration(Resolution(0, 24, 0)) == Duration(Resolution(1, 0, 0))
    ensures Duration(Resolution(days, hours, minutes))
            == Duration(Resolution(days, 0, 0)) + Duration(Resolution(0, hours, 0))
               + Duration(Resolution(0, 0, minutes))
    ensures Duration(Resolution(days + 1, hours + 1, minutes + 1))
            == Duration(Resolution(days, hours, minutes)) + Duration(Resolution(1, 1, 1))
  {
  }

  predicate UtcBound(b: Bound) { b.OtherBound? || b.at.offset == Some(0) }

  predicate ReadableChild(c: PeriodChild) {
    match c
    case Resolution(_, _, _) => Duration(c) > 0
    case TimeInterval(bounds) => forall b :: b in bounds ==> UtcBound(b)
    case Point(position, quantity) => position.Some? && quantity.Some?
    case OtherChild => true
  }

  /** Every child reads, and no position is given twice. */
  predicate Readable(children: seq<PeriodChild>) {
    && (forall c :: c in children ==> ReadableChild(c))
    && forall i, j :: 0 <= i < j < |children| && children[i].Point? && children[j].Point?
                      ==> children[i].position != children[j].position
  }

  function ScanBounds(s: Scan, bounds: seq<Bound>): Scan {
    if bounds == [] then s
    else
      var before := ScanBounds(s, bounds[..|bounds| - 1]);
      match bounds[|bounds| - 1]
      case Start(at) => before.(start := Some(at.instant))
      case End(at) => before.(end := Some(at.instant))
      case OtherBound => before
  }

  function ScanChild(s: Scan, c: PeriodChild): Scan
    requires ReadableChild(c)
  {
    match c
    case Resolution(_, _, _) => s.(resolution := Some(Duration(c)))
    case TimeInterval(bounds) => ScanBounds(s, bounds)
    case Point(position, quantity) => s.(quantities := s.quantities[position.value := quantity.value])
    case OtherChild => s
  }

  /** Later resolutions and bounds replace earlier ones. */
  function ScanOf(children: seq<PeriodChild>): Scan
    requires forall c :: c in children ==> ReadableChild(c)
  {
    if children == [] then Scan(None, None, None, map[])
    else ScanChild(ScanOf(children[..|children| - 1]), children[|children| - 1])
  }

  /** A dictionary that holds the points' positions, each with its own quantity, and no others. */
  ghost predicate Collects(children: seq<PeriodChild>, q: map<int, Decimal>) {
    && (forall p :: p in q ==> Point(Some(p), Some(q[p])) in children)
    && forall p, v :: Point(Some(p), Some(v)) in children ==> p in q && q[p] == v
  }

  lemma Collected(children: seq<PeriodChild>, q: map<int, Decimal>, p: int, v: Decimal)
    requires Collects(children, q) && Point(Some(p), Some(v)) in children
    ensures p in q && q[p] == v
  {
  }

  lemma CollectedFrom(children: seq<PeriodChild>, q: map<int, Decimal>, p: int)
    requires Collects(children, q) && p in q
    ensures Point(Some(p), Some(q[p])) in children
  {
  }

  lemma CollectPoint(children: seq<PeriodChild>, q: map<int, Decimal>, p: int, v: Decimal)
    requires Collects(children, q) && p !in q
    ensures Collects(children + [Point(Some(p), Some(v))], q[p := v])
  {
  }

  lemma CollectOther(children: seq<PeriodChild>, q: map<int, Decimal>, c: PeriodChild)
    requires Collects(children, q) && !c.Point?
    ensures Collects(children + [c], q)
  {
  }

  /** One more child either takes a position not yet given, or keeps the dictionary. */
  lemma ScannedSnoc(init: seq<PeriodChild>, last: PeriodChild)
    requires Readable(init) && Readable(init + [last]) && ReadableChild(last) && Collects(init, ScanOf(init).quantities)
    ensures Collects(init + [last], ScanChild(ScanOf(init), last).quantities)
  {
    var q := ScanOf(init).quantities;
    if last.Point? {
      var p := last.position.value;
      forall i | 0 <= i < |init| && init[i].Point? ensures init[i].position != last.position {
        assert (init + [last])[i] == init[i] && (init + [last])[|init|] == last;
      }
      assert last == Point(Some(p), Some(last.quantity.value));
      CollectPoint(init, q, p, last.quantity.value);
    } else {
      if last.TimeInterval? {
        BoundsKeepQuantities(ScanOf(init), last.bounds);
      }
      CollectOther(init, q, last);
    }
  }

  /** The scanned positions are those of the points, each with its own quantity. */
  lemma {:induction false} ScannedQuantities(children: seq<PeriodChild>)
    requires Readable(children)
    ensures Collects(children, ScanOf(children).quantities)
  {
    if children == [] {
    } else {
      var init, last := children[..|children| - 1], children[|children| - 1];
      assert children == init + [last];
      ReadablePrefix(children, |children| - 1);
      assert ReadableChild(last);
      ScannedQuantities(init);
      ScannedSnoc(init, last);
    }
  }

  lemma ReadablePrefix(children: seq<PeriodChild>, n: nat)
    requires Readable(children) && n <= |children|
    ensures Readable(children[..n])
  {
    assert forall c :: c in children[..n] ==> c in children;
  }

  /** One more child keeps a Period readable unless it repeats a scanned position. */
  lemma ReadableSnoc(children: seq<PeriodChild>, c: PeriodChild)
    requires Readable(children) && ReadableChild(c)
    ensures Readable(children + [c]) <==> !(c.Point? && c.position.value in ScanOf(children).quantities)
  {
    ScannedQuantities(children);
    var q, more := ScanOf(children).quantities, children + [c];
    if c.Point? && c.position.value in q {
      var p := c.position.value;
      assert c.position == Some(p);
      var j :| 0 <= j < |children| && children[j] == Point(Some(p), Some(q[p]));
      assert more[j].position == more[|children|].position;
    } else {
      forall i, j | 0 <= i < j < |more| && more[i].Point? && more[j].Point?
        ensures more[i].position != more[j].position
      {
        if j == |children| {
          assert more[i] == children[i] && children[i] in children;
          assert more[i] == Point(Some(more[i].position.value), Some(more[i].quantity.value));
        }
      }
    }
  }

  lemma {:induction false} BoundsKeepQuantities(s: Scan, bounds: seq<Bound>)
    ensures ScanBounds(s, bounds).quantities == s.quantities && ScanBounds(s, bounds).resolution == s.resolution
  {
    if bounds == [] {
    } else {
      BoundsKeepQuantities(s, bounds[..|bounds| - 1]);
    }
  }

  method ScanInterval(s: Scan, bounds: seq<Bound>) returns (r: Result<Scan, PeriodError>)
    ensures r.Ok? <==> forall b :: b in bounds ==> UtcBound(b)
    ensures r.Ok? ==> r.value == ScanBounds(s, bounds)
    ensures r.Err? ==> r.error == NotUtcStamp
  {
    var scan := s;
    for i := 0 to |bounds|
      invariant forall b :: b in bounds[..i] ==> UtcBound(b)
      invariant scan == ScanBounds(s, bounds[..i])
    {
      if !UtcBound(bounds[i]) { return Err(NotUtcStamp); }
      assert bounds[..i + 1] == bounds[..i] + [bounds[i]];
      match bounds[i] {
        case Start(at) => scan := scan.(start := Some(at.instant));
        case End(at) => scan := scan.(end := Some(at.instant));
        case OtherBound =>
      }
    }
    assert bounds[..|bounds|] == bounds;
    return Ok(scan);
  }

  /** What is wrong with a child after children that read. */
  predicate ChildFault(e: PeriodError, before: seq<PeriodChild>, c: PeriodChild) {
    match e
    case UnsupportedResolution => c.Resolution? && Duration(c) <= 0
    case NotUtcStamp => c.TimeInterval? && exists b :: b in c.bounds && !UtcBound(b)
    case IncompletePoint => c.Point? && (c.position.None? || c.quantity.None?)
    case PositionTwice(p) =>
      && c.Point? && c.position == Some(p) && c.quantity.Some?
      && exists x :: x in before && x.Point? && x.position == Some(p)
    case _ => false
  }

  /** The first child that does not read, after those that do, is at fault. */
  ghost predicate UnreadableBecause(e: PeriodError, children: seq<PeriodChild>) {
    exists i :: 0 <= i < |children| && Readable(children[..i]) && ChildFault(e, children[..i], children[i])
  }

  /** A scanned position was given by an earlier point. */
  lemma TakenPosition(before: seq<PeriodChild>, p: int)
    requires Readable(before) && p in ScanOf(before).quantities
    ensures exists x :: x in before && x.Point? && x.position == Some(p)
  {
    ScannedQuantities(before);
    CollectedFrom(before, ScanOf(before).quantities, p);
    var x := Point(Some(p), Some(ScanOf(before).quantities[p]));
    assert x in before && x.position == Some(p);
  }

  method ScanPeriod(children: seq<PeriodChild>) returns (r: Result<Scan, PeriodError>)
    ensures r.Ok? <==> Readable(children)
    ensures r.Ok? ==> r.value == ScanOf(children)
    ensures r.Err? ==> UnreadableBecause(r.error, children)
  {
    var scan := Scan(None, None, None, map[]);
    for i := 0 to |children|
      invariant Readable(children[..i]) && scan == ScanOf(children[..i])
    {
      var c := children[i];
      assert c in children && children[..i + 1] == children[..i] + [c];
      if ReadableChild(c) {
        ReadableSnoc(children[..i], c);
      }
      if Readable(children) {
        ReadablePrefix(children, i + 1);
      }
      match c {
        case Resolution(_, _, _) =>
          if Duration(c) <= 0 {
            assert ChildFault(UnsupportedResolution, children[..i], c);
            return Err(UnsupportedResolution);
          }
          scan := scan.(resolution := Some(Duration(c)));
        case TimeInterval(bounds) =>
          var interval := ScanInterval(scan, bounds);
          if interval.Err? {
            assert ChildFault(NotUtcStamp, children[..i], c);
            return Err(interval.error);
          }
          scan := interval.value;
        case Point(position, quantity) =>
          if position.None? || quantity.None? {
            assert ChildFault(IncompletePoint, children[..i], c);
            return Err(IncompletePoint);
          }
          if position.value in scan.quantities {
            TakenPosition(children[..i], position.value);
            assert ChildFault(PositionTwice(position.value), children[..i], c);
            return Err(PositionTwice(position.value));
          }
          scan := scan.(quantities := scan.quantities[position.value := quantity.value]);
        case OtherChild =>
      }
    }
    assert children[..|children|] == children;
    return Ok(scan);
  }

  predicate SetsStart(c: PeriodChild) { c.TimeInterval? && exists b :: b in c.bounds && b.Start? }

  predicate SetsEnd(c: PeriodChild) { c.TimeInterval? && exists b :: b in c.bounds && b.End? }

  lemma {:induction false} BoundsKept(s: Scan, before: seq<Bound>, after: seq<Bound>)
    ensures (forall b :: b in after ==> !b.Start?)
            ==> ScanBounds(s, before + after).start == ScanBounds(s, before).start
    ensures (forall b :: b in after ==> !b.End?) ==> ScanBounds(s, before + after).end == ScanBounds(s, before).end
  {
    if after == [] {
      assert before + after == before;
    } else {
      var init, last := after[..|after| - 1], after[|after| - 1];
      assert last in after && (before + after)[..|before + after| - 1] == before + init;
      BoundsKept(s, before, init);
    }
  }

  lemma ChildKept(s: Scan, c: PeriodChild)
    requires ReadableChild(c)
    ensures !SetsStart(c) ==> ScanChild(s, c).start == s.start
    ensures !SetsEnd(c) ==> ScanChild(s, c).end == s.end
    ensures !c.Resolution? ==> ScanChild(s, c).resolution == s.resolution
  {
    if c.TimeInterval? {
      BoundsKept(s, [], c.bounds);
      assert [] + c.bounds == c.bounds;
      BoundsKeepQuantities(s, c.bounds);
    }
  }

  /** Children that give no start, end or resolution leave the one before. */
  lemma {:induction false} ScanKept(before: seq<PeriodChild>, after: seq<PeriodChild>)
    requires forall c :: c in before + after ==> ReadableChild(c)
    ensures (forall c :: c in after ==> !SetsStart(c)) ==> ScanOf(before + after).start == ScanOf(before).start
    ensures (forall c :: c in after ==> !SetsEnd(c)) ==> ScanOf(before + after).end == ScanOf(before).end
    ensures (forall c :: c in after ==> !c.Resolution?)
            ==> ScanOf(before + after).resolution == ScanOf(before).resolution
  {
    if after == [] {
      assert before + after == before;
    } else {
      var init, last := after[..|after| - 1], after[|after| - 1];
      assert last in after && (before + after)[..|before + after| - 1] == before + init;
      assert last in before + after && forall c :: c in before + init ==> c in before + after;
      ScanKept(before, init);
      ChildKept(ScanOf(before + init), last);
    }
  }

  /** The last resolution given is the Period's. */
  lemma LastResolutionWins(before: seq<PeriodChild>, c: PeriodChild, after: seq<PeriodChild>)
    requires forall x :: x in before + [c] + after ==> ReadableChild(x)
    requires c.Resolution? && forall x :: x in after ==> !x.Resolution?
    ensures ScanOf(before + [c] + after).resolution == Some(c.days * DAY + c.hours * HOUR + c.minutes * MINUTE)
  {
    assert c in before + [c] + after && forall x :: x in before + [c] ==> x in before + [c] + after;
    ScanKept(before + [c], after);
    assert (before + [c])[..|before|] == before;
  }

  /** The last start and the last end given are the Period's. */
  lemma LastBoundWins(
      before: seq<PeriodChild>, earlier: seq<Bound>, b: Bound, later: seq<Bound>, after: seq<PeriodChild>)
    requires forall x :: x in before + [TimeInterval(earlier + [b] + later)] + after ==> ReadableChild(x)
    ensures var s := ScanOf(before + [TimeInterval(earlier + [b] + later)] + after);
            && (b.Start? && (forall x :: x in later ==> !x.Start?) && (forall x :: x in after ==> !SetsStart(x))
                ==> s.start == Some(b.at.instant))
            && (b.End? && (forall x :: x in later ==> !x.End?) && (forall x :: x in after ==> !SetsEnd(x))
                ==> s.end == Some(b.at.instant))
  {
    var c := TimeInterval(earlier + [b] + later);
    assert c in before + [c] + after && forall x :: x in before + [c] ==> x in before + [c] + after;
    ScanKept(before + [c], after);
    assert (before + [c])[..|before|] == before;
    BoundsKept(ScanOf(before), earlier + [b], later);
    assert (earlier + [b])[..|earlier|] == earlier;
  }

  function Slot(start: int, resolution: int, position: int): int { start + (position - 1) * resolution }

  /** The observed positions among 1..n, in order. */
  function Observed(q: map<int, Decimal>, start: int, resolution: int, n: nat): seq<Observation> {
    if n == 0 then []
    else
      Observed(q, start, resolution, n - 1)
      + if n in q then [Observation(Slot(start, resolution, n), n, q[n])] else []
  }

  function Missing(q: map<int, Decimal>, n: nat): seq<int> {
    if n == 0 then [] else Missing(q, n - 1) + if n in q then [] else [n]
  }

  /** The instants of positions 1..n. */
  function Grid(start: int, resolution: int, n: nat): seq<int> {
    seq(n, i => Slot(start, resolution, i + 1))
  }

  function Times(observations: seq<Observation>): seq<int> { Map(observations, (o: Observation) => o.validTime) }

  function Slots(start: int, resolution: int, positions: seq<int>): seq<int> {
    Map(positions, p => Slot(start, resolution, p))
  }

  lemma GridInside(start: int, resolution: int, n: nat)
    requires resolution > 0
    ensures forall i, j :: 0 <= i < j < n ==> Grid(start, resolution, n)[i] < Grid(start, resolution, n)[j]
    ensures forall t :: t in Grid(start, resolution, n) ==> start <= t < start + n * resolution
    ensures |Grid(start, resolution, n)| == n
    ensures forall i :: 0 <= i < n ==> Grid(start, resolution, n)[i] == start + i * resolution
  {
    forall i, j | 0 <= i < j < n ensures Grid(start, resolution, n)[i] < Grid(start, resolution, n)[j] {
      assert (j - i) * resolution > 0;
    }
    forall i | 0 <= i < n ensures start <= Grid(start, resolution, n)[i] < start + n * resolution {
      assert i * resolution >= 0 && (n - i) * resolution > 0;
    }
  }

  function ObservationAt(q: map<int, Decimal>, start: int, resolution: int, position: int): Observation
    requires position in q
  {
    Observation(Slot(start, resolution, position), position, q[position])
  }

  predicate Increasing(s: seq<int>) { forall i, j :: 0 <= i < j < |s| ==> s[i] < s[j] }

  lemma IncreasingSnoc(s: seq<int>, last: int)
    requires Increasing(s) && forall x :: x in s ==> x < last
    ensures Increasing(s + [last])
  {
    assert forall i :: 0 <= i < |s| ==> s[i] in s;
  }

  lemma {:induction false} MissingMember(q: map<int, Decimal>, n: nat, p: int)
    ensures p in Missing(q, n) <==> 1 <= p <= n && p !in q
  {
    if n == 0 {
    } else {
      MissingMember(q, n - 1, p);
    }
  }

  /** The missing positions are those of 1..n that no point gave, in increasing order. */
  lemma {:induction false} MissingExact(q: map<int, Decimal>, n: nat)
    ensures forall p :: p in Missing(q, n) <==> 1 <= p <= n && p !in q
    ensures Increasing(Missing(q, n))
  {
    forall p ensures p in Missing(q, n) <==> 1 <= p <= n && p !in q {
      MissingMember(q, n, p);
    }
    if n == 0 {
    } else {
      MissingExact(q, n - 1);
      if n !in q {
        IncreasingSnoc(Missing(q, n - 1), n);
      }
    }
  }

  /** The observations are those of 1..n that a point gave, each at its own instant with its own quantity. */
  lemma {:induction false} ObservedExact(q: map<int, Decimal>, start: int, resolution: int, n: nat)
    ensures var o := Observed(q, start, resolution, n);
            && |o| + |Missing(q, n)| == n
            && (forall p :: 1 <= p <= n && p in q ==> ObservationAt(q, start, resolution, p) in o)
            && forall x :: x in o ==>
                 && 1 <= x.position <= n && x.position in q && x.quantity == q[x.position]
                 && x.validTime == start + (x.position - 1) * resolution
                 && x == ObservationAt(q, start, resolution, x.position)
  {
    if n == 0 {
    } else {
      ObservedExact(q, start, resolution, n - 1);
    }
  }

  lemma {:induction false} ObservedAscends(q: map<int, Decimal>, start: int, resolution: int, n: nat)
    requires resolution > 0
    ensures var o := Observed(q, start, resolution, n);
            forall i, j :: 0 <= i < j < |o| ==> o[i].position < o[j].position && o[i].validTime < o[j].validTime
  {
    if n == 0 {
    } else {
      var o := Observed(q, start, resolution, n - 1);
      ObservedAscends(q, start, resolution, n - 1);
      ObservedExact(q, start, resolution, n - 1);
      forall i | 0 <= i < |o| ensures o[i].position < n && o[i].validTime < Slot(start, resolution, n) {
        assert o[i] in o;
        EarlierSlot(start, resolution, o[i].position, n);
      }
    }
  }

  lemma EarlierSlot(start: int, resolution: int, p: int, q: int)
    requires resolution > 0 && p < q
    ensures Slot(start, resolution, p) < Slot(start, resolution, q)
  {
    assert (q - p) * resolution > 0;
  }

  lemma TimesSnoc(o: seq<Observation>, x: Observation)
    ensures multiset(Times(o + [x])) == multiset(Times(o)) + multiset{x.validTime}
  {
    MapSnoc(o, x, (x: Observation) => x.validTime);
  }

  lemma SlotsSnoc(start: int, resolution: int, m: seq<int>, p: int)
    ensures multiset(Slots(start, resolution, m + [p]))
            == multiset(Slots(start, resolution, m)) + multiset{Slot(start, resolution, p)}
  {
    MapSnoc(m, p, p => Slot(start, resolution, p));
  }

  lemma GridSnoc(start: int, resolution: int, n: nat)
    ensures multiset(Grid(start, resolution, n + 1))
            == multiset(Grid(start, resolution, n)) + multiset{Slot(start, resolution, n + 1)}
  {
    assert Grid(start, resolution, n + 1) == Grid(start, resolution, n) + [Slot(start, resolution, n + 1)];
  }

  /** Their instants together are the grid, each once. */
  lemma {:induction false} SlotsSplit(q: map<int, Decimal>, start: int, resolution: int, n: nat)
    ensures multiset(Times(Observed(q, start, resolution, n)))
            + multiset(Slots(start, resolution, Missing(q, n)))
            == multiset(Grid(start, resolution, n))
  {
    if n == 0 {
    } else {
      SlotsSplit(q, start, resolution, n - 1);
      GridSnoc(start, resolution, n - 1);
      var o := multiset(Times(Observed(q, start, resolution, n - 1)));
      var m := multiset(Slots(start, resolution, Missing(q, n - 1)));
      AddOne(o, m, multiset(Grid(start, resolution, n - 1)), Slot(start, resolution, n));
      if n in q {
        SlotObserved(q, start, resolution, n);
      } else {
        SlotMissing(q, start, resolution, n);
      }
    }
  }

  lemma AddOne(a: multiset<int>, b: multiset<int>, c: multiset<int>, x: int)
    requires a + b == c
    ensures (a + multiset{x}) + b == c + multiset{x} && a + (b + multiset{x}) == c + multiset{x}
  {
  }

  lemma SlotObserved(q: map<int, Decimal>, start: int, resolution: int, n: nat)
    requires n > 0 && n in q
    ensures Missing(q, n) == Missing(q, n - 1)
    ensures multiset(Times(Observed(q, start, resolution, n)))
            == multiset(Times(Observed(q, start, resolution, n - 1))) + multiset{Slot(start, resolution, n)}
  {
    TimesSnoc(Observed(q, start, resolution, n - 1), Observation(Slot(start, resolution, n), n, q[n]));
  }

  lemma SlotMissing(q: map<int, Decimal>, start: int, resolution: int, n: nat)
    requires n > 0 && n !in q
    ensures Observed(q, start, resolution, n) == Observed(q, start, resolution, n - 1)
    ensures multiset(Slots(start, resolution, Missing(q, n)))
            == multiset(Slots(start, resolution, Missing(q, n - 1))) + multiset{Slot(start, resolution, n)}
  {
    SlotsSnoc(start, resolution, Missing(q, n - 1), n);
  }

  lemma MapConcat<T, U>(a: seq<T>, b: seq<T>, f: T -> U)
    ensures Map(a + b, f) == Map(a, f) + Map(b, f)
  {
  }

  /** A Period has to give a resolution and both ends of its interval. */
  predicate Complete(s: Scan) { s.resolution.Some? && s.start.Some? && s.end.Some? }

  /** Exactly the Periods the parser accepts. */
  predicate Acceptable(children: seq<PeriodChild>) {
    && Readable(children)
    && var s := ScanOf(children);
       && Complete(s) && s.resolution.value > 0
       && var count := PeriodCount(s.start.value, s.end.value, s.resolution.value);
          && count.Ok?
          && forall c :: c in children && c.Point? ==> 1 <= c.position.value <= count.value
  }

  /** Observations and missing positions together are the instants of positions 1..n, each once. */
  predicate CoversGrid(s: Series, n: nat) {
    multiset(Times(s.observations)) + multiset(Slots(s.start, s.resolution, s.missing))
    == multiset(Grid(s.start, s.resolution, n))
  }

  predicate Ascending(s: Series) {
    forall i, j :: 0 <= i < j < |s.observations| ==> s.observations[i].validTime < s.observations[j].validTime
  }

  /** A series whose observed and missing positions are exactly the grid of its interval. */
  predicate WellParsed(s: Series) {
    && s.resolution > 0 && s.resolution % MINUTE == 0
    && var n := |s.observations| + |s.missing|;
       s.start + n * s.resolution == s.end && CoversGrid(s, n) && Ascending(s)
  }

  lemma DurationInMinutes(c: PeriodChild)
    requires c.Resolution?
    ensures Duration(c) % MINUTE == 0
  {
    WholeMinutes(1440 * c.days + 60 * c.hours + c.minutes);
    assert Duration(c) == (1440 * c.days + 60 * c.hours + c.minutes) * MINUTE;
  }

  lemma WholeMinutes(n: int)
    ensures (n * MINUTE) % MINUTE == 0
  {
  }

  lemma {:induction false} ScannedResolution(children: seq<PeriodChild>)
    requires forall c :: c in children ==> ReadableChild(c)
    ensures ScanOf(children).resolution.Some?
            ==> ScanOf(children).resolution.value > 0 && ScanOf(children).resolution.value % MINUTE == 0
  {
    if children == [] {
    } else {
      var last := children[|children| - 1];
      assert ReadableChild(last) by { assert last in children; }
      ScannedResolution(children[..|children| - 1]);
      if last.Resolution? {
        DurationInMinutes(last);
      } else if last.TimeInterval? {
        BoundsKeepQuantities(ScanOf(children[..|children| - 1]), last.bounds);
      }
    }
  }

  /** What an acceptable Period says. */
  function PeriodSeries(
      children: seq<PeriodChild>, zone: string, productionType: string, direction: Direction, unit: string): Series
    requires Acceptable(children)
  {
    var scan := ScanOf(children);
    var resolution, start, end := scan.resolution.value, scan.start.value, scan.end.value;
    var n := PeriodCount(start, end, resolution).value;
    Series(zone, productionType, direction, unit, resolution, start, end,
           Observed(scan.quantities, start, resolution, n), Missing(scan.quantities, n))
  }

  /** What is wrong with a Period whose children read and which is complete: the first of these. */
  predicate IntervalFault(e: PeriodError, s: Scan)
    requires Complete(s)
  {
    && s.resolution.value > 0
    && var count := PeriodCount(s.start.value, s.end.value, s.resolution.value);
       match e
       case BadInterval(cause) => count == Err(cause)
       case BeyondInterval => count.Ok? && exists p :: p in s.quantities && p > count.value
       case PositionBelowOne =>
         && count.Ok? && (forall p :: p in s.quantities ==> p <= count.value)
         && exists p :: p in s.quantities && p < 1
       case _ => false
  }

  /** What is wrong with a Period: a child that does not read, else what it lacks, else its interval. */
  ghost predicate PeriodFault(e: PeriodError, children: seq<PeriodChild>) {
    if !Readable(children) then UnreadableBecause(e, children)
    else if !Complete(ScanOf(children)) then e == IncompletePeriod
    else IntervalFault(e, ScanOf(children))
  }

  /** One Period. It is rejected, or every position of its interval is accounted for. */
  method ParsePeriod(
      children: seq<PeriodChild>, zone: string, productionType: string, direction: Direction, unit: string)
    returns (r: Result<Series, PeriodError>)
    ensures r.Ok? <==> Acceptable(children)
    ensures r.Ok? ==> WellParsed(r.value)
    ensures r.Ok? ==> r.value == PeriodSeries(children, zone, productionType, direction, unit)
    ensures r.Ok? ==> forall c, b :: c in children && c.TimeInterval? && b in c.bounds && !b.OtherBound?
                                     ==> b.at.offset == Some(0)
    ensures r.Err? ==> PeriodFault(r.error, children)
  {
    var scanned := ScanPeriod(children);
    if scanned.Err? { return Err(scanned.error); }
    ScannedResolution(children);
    var scan := scanned.value;
    if scan.resolution.None? || scan.start.None? || scan.end.None? { return Err(IncompletePeriod); }
    var resolution, start, end := scan.resolution.value, scan.start.value, scan.end.value;
    var count := PeriodCount(start, end, resolution);
    if count.Err? { return Err(BadInterval(count.error)); }
    var n := count.value;
    ScannedQuantities(children);
    PositionsInside(children, scan.quantities, n);
    if exists p :: p in scan.quantities && p > n { return Err(BeyondInterval); }
    if exists p :: p in scan.quantities && p < 1 { return Err(PositionBelowOne); }
    var observations, missing := Split(scan.quantities, start, resolution, n);
    var s := Series(zone, productionType, direction, unit, resolution, start, end, observations, missing);
    SplitWellParsed(scan.quantities, s, n);
    return Ok(s);
  }

  lemma PositionsInside(children: seq<PeriodChild>, q: map<int, Decimal>, n: int)
    requires Readable(children) && Collects(children, q)
    ensures (forall c :: c in children && c.Point? ==> 1 <= c.position.value <= n)
            <==> forall p :: p in q ==> 1 <= p <= n
  {
    if forall p :: p in q ==> 1 <= p <= n {
      forall c | c in children && c.Point? ensures 1 <= c.position.value <= n {
        assert ReadableChild(c);
        assert c == Point(Some(c.position.value), Some(c.quantity.value));
        Collected(children, q, c.position.value, c.quantity.value);
      }
    }
    if forall c :: c in children && c.Point? ==> 1 <= c.position.value <= n {
      forall p | p in q ensures 1 <= p <= n {
        CollectedFrom(children, q, p);
        assert Point(Some(p), Some(q[p])).position.value == p;
      }
    }
  }

  lemma SplitWellParsed(q: map<int, Decimal>, s: Series, n: nat)
    requires s.resolution > 0 && s.resolution % MINUTE == 0 && s.start + n * s.resolution == s.end
    requires s.observations == Observed(q, s.start, s.resolution, n) && s.missing == Missing(q, n)
    ensures WellParsed(s) && |s.observations| + |s.missing| == n
  {
    assert |s.observations| + |s.missing| == n by { ObservedExact(q, s.start, s.resolution, n); }
    assert CoversGrid(s, n) by { SlotsSplit(q, s.start, s.resolution, n); }
    assert Ascending(s) by { ObservedAscends(q, s.start, s.resolution, n); }
  }

  method Split(q: map<int, Decimal>, start: int, resolution: int, n: nat)
    returns (observations: seq<Observation>, missing: seq<int>)
    ensures observations == Observed(q, start, resolution, n)
    ensures missing == Missing(q, n)
  {
    observations, missing := [], [];
    for position := 1 to n + 1
      invariant observations == Observed(q, start, resolution, position - 1)
    {
      if position in q {
        var at := PositionTime(start, resolution, position).value;
        observations := observations + [Observation(at, position, q[position])];
      }
    }
    for position := 1 to n + 1
      invariant missing == Missing(q, position - 1)
    {
      if position !in q {
        missing := missing + [position];
      }
    }
  }

  lemma QuotientExact(x: int, d: int, q: int)
    requires d > 0
    ensures x / d == q <==> q * d <= x < q * d + d
  {
    var k, r := x / d, x % d;
    assert x == k * d + r && 0 <= r < d;
    OneQuotient(x, d, k, r, q);
  }

  lemma OneQuotient(x: int, d: int, k: int, r: int, q: int)
    requires 0 <= r < d && x == k * d + r
    ensures k == q <==> q * d <= x < q * d + d
  {
    MultiplesInOrder(k, q + 1, d);
    MultiplesInOrder(q, k + 1, d);
    assert (q + 1) * d == q * d + d && (k + 1) * d == k * d + d;
  }

  /** The observation's period, from its instant on, holds the instant. */
  predicate Covers(o: Observation, resolution: int, u: int) { o.validTime <= u < o.validTime + resolution }

  /** The position whose period holds an instant: whole periods since the start, counted from one. */
  function PositionOf(s: Series, u: int): int
    requires s.resolution > 0
  {
    (u - s.start) / s.resolution + 1
  }

  /** Of the observations of a Period one has the position, if it was given, and none otherwise. */
  lemma ObservedPosition(q: map<int, Decimal>, start: int, resolution: int, n: nat, p: int)
    requires resolution > 0 && 1 <= p <= n
    ensures var mine := (o: Observation) => o.position == p;
            Filter(Observed(q, start, resolution, n), mine)
            == if p in q then [ObservationAt(q, start, resolution, p)] else []
  {
    var o, mine := Observed(q, start, resolution, n), (o: Observation) => o.position == p;
    ObservedExact(q, start, resolution, n);
    if p in q {
      ObservedDistinct(q, start, resolution, n);
      FilterSingle(o, mine, ObservationAt(q, start, resolution, p));
    } else {
      FilterNone(o, mine);
    }
  }

  lemma ObservedDistinct(q: map<int, Decimal>, start: int, resolution: int, n: nat)
    requires resolution > 0
    ensures Distinct(Observed(q, start, resolution, n))
  {
    ObservedAscends(q, start, resolution, n);
  }

  /**
   * The periods of an accepted Period's observed and missing positions tile its interval. Every instant of
   * it falls in exactly one position, the one as many whole resolutions after the start as its number less
   * one: either that position is missing and no observation covers the instant, or one observation does.
   */
  lemma PositionsTile(children: seq<PeriodChild>, zone: string, productionType: string, direction: Direction,
                      unit: string, u: int)
    requires Acceptable(children)
    requires var s := PeriodSeries(children, zone, productionType, direction, unit); s.start <= u < s.end
    ensures var s := PeriodSeries(children, zone, productionType, direction, unit);
            var p := PositionOf(s, u);
            && (forall o :: o in s.observations ==>
                  && (Covers(o, s.resolution, u) <==> o.position == p)
                  && Point(Some(o.position), Some(o.quantity)) in children)
            && |Filter(s.observations, (o: Observation) => Covers(o, s.resolution, u))|
               == (if p in s.missing then 0 else 1)
            && (p !in s.missing ==> exists v :: Point(Some(p), Some(v)) in children)
  {
    var s, q := PeriodSeries(children, zone, productionType, direction, unit), ScanOf(children).quantities;
    var n := PeriodCount(s.start, s.end, s.resolution).value;
    var p := PositionOf(s, u);
    InstantInside(s, n, u);
    ObservedExact(q, s.start, s.resolution, n);
    ScannedQuantities(children);
    forall o | o in s.observations
      ensures (Covers(o, s.resolution, u) <==> o.position == p) && Point(Some(o.position), Some(o.quantity)) in children
    {
      QuotientExact(u - s.start, s.resolution, o.position - 1);
      CollectedFrom(children, q, o.position);
    }
    FilterCongruence(
      s.observations, (o: Observation) => Covers(o, s.resolution, u), (o: Observation) => o.position == p);
    ObservedPosition(q, s.start, s.resolution, n, p);
    MissingExact(q, n);
    if p in q {
      CollectedFrom(children, q, p);
    }
  }

  /** No point is lost and none is made up: each is the observation of its position, with its own quantity. */
  lemma PointsObserved(
      children: seq<PeriodChild>, zone: string, productionType: string, direction: Direction, unit: string)
    requires Acceptable(children)
    ensures var s := PeriodSeries(children, zone, productionType, direction, unit);
            && (forall c :: c in children && c.Point? ==>
                  exists o :: o in s.observations && c == Point(Some(o.position), Some(o.quantity)))
            && (forall o :: o in s.observations ==> Point(Some(o.position), Some(o.quantity)) in children)
            && forall i, j :: 0 <= i < j < |s.observations| ==> s.observations[i].position < s.observations[j].position
  {
    var s, q := PeriodSeries(children, zone, productionType, direction, unit), ScanOf(children).quantities;
    var n := PeriodCount(s.start, s.end, s.resolution).value;
    ObservedExact(q, s.start, s.resolution, n);
    ObservedAscends(q, s.start, s.resolution, n);
    ScannedQuantities(children);
    forall c | c in children && c.Point?
      ensures exists o :: o in s.observations && c == Point(Some(o.position), Some(o.quantity))
    {
      assert ReadableChild(c);
      var p, v := c.position.value, c.quantity.value;
      assert c == Point(Some(p), Some(v));
      Collected(children, q, p, v);
      assert ObservationAt(q, s.start, s.resolution, p) in s.observations;
    }
    forall o | o in s.observations ensures Point(Some(o.position), Some(o.quantity)) in children {
      CollectedFrom(children, q, o.position);
    }
  }

  lemma InstantInside(s: Series, n: int, u: int)
    requires s.resolution > 0 && s.start <= u < s.end == s.start + n * s.resolution
    ensures 1 <= PositionOf(s, u) <= n
  {
    var q := (u - s.start) / s.resolution;
    QuotientExact(u - s.start, s.resolution, q);
    MultiplesInOrder(q, n, s.resolution);
    MultiplesInOrder(-1, q, s.resolution);
  }

  lemma PeriodWellParsed(
      children: seq<PeriodChild>, zone: string, productionType: string, direction: Direction, unit: string)
    requires Acceptable(children)
    ensures WellParsed(PeriodSeries(children, zone, productionType, direction, unit))
  {
    var scan := ScanOf(children);
    ScannedResolution(children);
    SplitWellParsed(scan.quantities, PeriodSeries(children, zone, productionType, direction, unit),
                    PeriodCount(scan.start.value, scan.end.value, scan.resolution.value).value);
  }

  /** A TimeSeries: the zone it flows into or out of, and one or more Periods. */
  datatype TimeSeries = TimeSeries(
    productionType: string, unit: string, inZone: string, outZone: string, periods: seq<seq<PeriodChild>>)

  predicate AcceptableSeries(node: TimeSeries) {
    && node.periods != [] && (node.inZone == "") != (node.outZone == "")
    && forall p :: p in node.periods ==> Acceptable(p)
  }

  /** The direction in which the one named zone gives the series. */
  function Flow(node: TimeSeries): Direction { if node.inZone != "" then Generation else Consumption }

  /** One series per Period, in order, all of the one named zone in that direction. */
  function NodeSeries(node: TimeSeries): (r: seq<Series>)
    requires AcceptableSeries(node)
    ensures |r| == |node.periods|
  {
    seq(|node.periods|, i requires 0 <= i < |node.periods| =>
      PeriodSeries(node.periods[i], node.inZone + node.outZone, node.productionType, Flow(node), node.unit))
  }

  /** The i-th series is that of the i-th Period, with the node's own type, unit and zone. */
  lemma NodeExact(node: TimeSeries, i: nat)
    requires AcceptableSeries(node) && i < |node.periods|
    ensures Acceptable(node.periods[i])
    ensures var s, scan := NodeSeries(node)[i], ScanOf(node.periods[i]);
            && scan == Scan(Some(s.resolution), Some(s.start), Some(s.end), scan.quantities)
            && s.productionType == node.productionType && s.unit == node.unit
            && s.zone == (if node.inZone != "" then node.inZone else node.outZone)
            && (s.direction == Generation <==> node.inZone != "")
            && forall o :: o in s.observations ==> Point(Some(o.position), Some(o.quantity)) in node.periods[i]
  {
    assert node.periods[i] in node.periods;
    PointsObserved(
      node.periods[i], node.inZone + node.outZone, node.productionType, Flow(node), node.unit);
  }

  lemma NodeWellParsed(node: TimeSeries)
    requires AcceptableSeries(node)
    ensures forall s :: s in NodeSeries(node) ==> WellParsed(s)
  {
    forall s | s in NodeSeries(node) ensures WellParsed(s) {
      var i :| 0 <= i < |node.periods| && NodeSeries(node)[i] == s;
      PeriodWellParsed(node.periods[i], node.inZone + node.outZone, node.productionType, Flow(node), node.unit);
    }
  }

  /** The first Period that is not acceptable is at fault. */
  ghost predicate PeriodsFault(e: PeriodError, periods: seq<seq<PeriodChild>>) {
    exists i :: 0 <= i < |periods| && (forall p :: p in periods[..i] ==> Acceptable(p)) && !Acceptable(periods[i])
                && PeriodFault(e, periods[i])
  }

  /** What is wrong with a TimeSeries: it has no Period, else its zones, else its first bad Period. */
  ghost predicate SeriesFault(e: SeriesError, node: TimeSeries) {
    if node.periods == [] then e == NoPeriod
    else if node.inZone != "" && node.outZone != "" then e == BothDirections
    else if node.inZone == "" && node.outZone == "" then e == NoZone
    else e.BadPeriod? && PeriodsFault(e.cause, node.periods)
  }

  method ParseSeries(node: TimeSeries) returns (r: Result<seq<Series>, SeriesError>)
    ensures r.Ok? <==> AcceptableSeries(node)
    ensures r.Ok? ==> r.value == NodeSeries(node) && forall s :: s in r.value ==> WellParsed(s)
    ensures r.Ok? && node.outZone == "" ==>
              forall s :: s in r.value ==> s.direction == Generation && s.zone == node.inZone
    ensures r.Ok? && node.inZone == "" ==>
              forall s :: s in r.value ==> s.direction == Consumption && s.zone == node.outZone
    ensures r == Err(NoPeriod) <==> node.periods == []
    ensures r == Err(BothDirections) <==> node.periods != [] && node.inZone != "" && node.outZone != ""
    ensures r == Err(NoZone) <==> node.periods != [] && node.inZone == "" && node.outZone == ""
    ensures r.Err? ==> SeriesFault(r.error, node)
  {
    if node.periods == [] { return Err(NoPeriod); }
    if node.inZone != "" && node.outZone != "" { return Err(BothDirections); }
    if node.inZone == "" && node.outZone == "" { return Err(NoZone); }
    var direction := if node.inZone != "" then Generation else Consumption;
    var zone := if node.inZone != "" then node.inZone else node.outZone;
    assert zone == node.inZone + node.outZone;
    var all: seq<Series> := [];
    for i := 0 to |node.periods|
      invariant forall p :: p in node.periods[..i] ==> Acceptable(p)
      invariant |all| == i && forall j :: 0 <= j < i ==>
                  Acceptable(node.periods[j])
                  && all[j] == PeriodSeries(node.periods[j], zone, node.productionType, direction, node.unit)
      invariant forall s :: s in all ==> WellParsed(s)
    {
      var parsed := ParsePeriod(node.periods[i], zone, node.productionType, direction, node.unit);
      if parsed.Err? {
        assert PeriodsFault(parsed.error, node.periods);
        return Err(BadPeriod(parsed.error));
      }
      all := all + [parsed.value];
    }
    return Ok(all);
  }

  /** The text of a header element, with how it reads as a timestamp or an integer if it does. */
  datatype HeaderText = HeaderText(text: string, stamp: Option<Stamp>, number: Option<int>)

  /** A child of the document's root: a TimeSeries, a leaf, or some other element with children. */
  datatype Element = SeriesElement(node: TimeSeries) | Header(name: string, value: HeaderText) | OtherElement

  datatype Document = Document(mrid: string, revisionNumber: int, createdAt: int, series: seq<Series>)

  /** The header dictionary: a later leaf of the same name replaces an earlier one. */
  function Headers(elements: seq<Element>): map<string, HeaderText> {
    if elements == [] then map[]
    else
      var before, last := Headers(elements[..|elements| - 1]), elements[|elements| - 1];
      if last.Header? then before[last.name := last.value] else before
  }

  predicate Names(e: Element, name: string) { e.Header? && e.name == name }

  /** A header reads as the last leaf of its name. */
  lemma {:induction false} LastHeaderWins(before: seq<Element>, name: string, value: HeaderText, after: seq<Element>)
    requires forall e :: e in after ==> !Names(e, name)
    ensures var h := Headers(before + [Header(name, value)] + after); name in h && h[name] == value
  {
    var elements := before + [Header(name, value)] + after;
    if after == [] {
      assert elements[..|elements| - 1] == before;
    } else {
      assert elements[..|elements| - 1] == before + [Header(name, value)] + after[..|after| - 1];
      assert elements[|elements| - 1] == after[|after| - 1] && after[|after| - 1] in after;
      LastHeaderWins(before, name, value, after[..|after| - 1]);
    }
  }

  lemma {:induction false} NoHeader(elements: seq<Element>, name: string)
    requires forall e :: e in elements ==> !Names(e, name)
    ensures name !in Headers(elements)
  {
    if elements == [] {
    } else {
      assert elements[|elements| - 1] in elements;
      NoHeader(elements[..|elements| - 1], name);
    }
  }

  predicate AllSeriesAcceptable(elements: seq<Element>) {
    forall e :: e in elements && e.SeriesElement? ==> AcceptableSeries(e.node)
  }

  /** The series of every TimeSeries, in document order. */
  function AllSeries(elements: seq<Element>): seq<Series>
    requires AllSeriesAcceptable(elements)
  {
    if elements == [] then []
    else
      var before, last := AllSeries(elements[..|elements| - 1]), elements[|elements| - 1];
      if last.SeriesElement? then before + NodeSeries(last.node) else before
  }

  /** Series come in document order. */
  lemma {:induction false} AllSeriesConcat(a: seq<Element>, b: seq<Element>)
    requires AllSeriesAcceptable(a) && AllSeriesAcceptable(b)
    ensures AllSeriesAcceptable(a + b) && AllSeries(a + b) == AllSeries(a) + AllSeries(b)
  {
    if b == [] {
      assert a + b == a;
    } else {
      assert (a + b)[..|a + b| - 1] == a + b[..|b| - 1];
      AllSeriesConcat(a, b[..|b| - 1]);
    }
  }

  lemma AllSeriesOfOne(e: Element)
    requires AllSeriesAcceptable([e])
    ensures AllSeries([e]) == if e.SeriesElement? then NodeSeries(e.node) else []
  {
    assert [e][..0] == [];
  }

  /** The revision number reads if given, and the creation time is given, in UTC. */
  predicate HeadersAcceptable(headers: map<string, HeaderText>) {
    && ("revisionNumber" in headers ==> headers["revisionNumber"].number.Some?)
    && "createdDateTime" in headers
    && headers["createdDateTime"].stamp.Some? && headers["createdDateTime"].stamp.value.offset == Some(0)
  }

  function DocumentOf(elements: seq<Element>): Document
    requires AllSeriesAcceptable(elements) && HeadersAcceptable(Headers(elements))
  {
    var h := Headers(elements);
    Document(
      if "mRID" in h then h["mRID"].text else "",
      if "revisionNumber" in h then h["revisionNumber"].number.value else 0,
      h["createdDateTime"].stamp.value.instant,
      AllSeries(elements))
  }

  /** The leaf at `i` is the last of its name. */
  predicate LastNamed(elements: seq<Element>, i: nat, name: string)
    requires i < |elements|
  {
    Names(elements[i], name) && forall j :: i < j < |elements| ==> !Names(elements[j], name)
  }

  lemma LastNamedWins(elements: seq<Element>, i: nat, name: string)
    requires i < |elements| && LastNamed(elements, i, name)
    ensures name in Headers(elements) && Headers(elements)[name] == elements[i].value
  {
    assert elements == elements[..i] + [Header(name, elements[i].value)] + elements[i + 1..];
    LastHeaderWins(elements[..i], name, elements[i].value, elements[i + 1..]);
  }

  /** A document says what the last leaf of each name says, and has defaults for what no leaf names. */
  lemma DocumentExact(elements: seq<Element>, i: nat)
    requires AllSeriesAcceptable(elements) && HeadersAcceptable(Headers(elements)) && i < |elements|
    ensures var d := DocumentOf(elements);
            && (LastNamed(elements, i, "mRID") ==> d.mrid == elements[i].value.text)
            && (LastNamed(elements, i, "revisionNumber") ==> elements[i].value.number == Some(d.revisionNumber))
            && (LastNamed(elements, i, "createdDateTime") ==>
                  elements[i].value.stamp == Some(Stamp(d.createdAt, Some(0))))
            && ((forall e :: e in elements ==> !Names(e, "mRID")) ==> d.mrid == "")
            && ((forall e :: e in elements ==> !Names(e, "revisionNumber")) ==> d.revisionNumber == 0)
  {
    forall name | LastNamed(elements, i, name)
      ensures name in Headers(elements) && Headers(elements)[name] == elements[i].value
    {
      LastNamedWins(elements, i, name);
    }
    if forall e :: e in elements ==> !Names(e, "mRID") {
      NoHeader(elements, "mRID");
    }
    if forall e :: e in elements ==> !Names(e, "revisionNumber") {
      NoHeader(elements, "revisionNumber");
    }
  }

  /** The first TimeSeries that is not acceptable is at fault. */
  ghost predicate ElementsFault(e: SeriesError, elements: seq<Element>) {
    exists i :: 0 <= i < |elements| && AllSeriesAcceptable(elements[..i])
                && elements[i].SeriesElement? && !AcceptableSeries(elements[i].node) && SeriesFault(e, elements[i].node)
  }

  /** What is wrong with a document: the root, else a TimeSeries, else its headers in the order they are read. */
  ghost predicate DocumentFault(e: DocumentError, root: string, elements: seq<Element>) {
    if root != "GL_MarketDocument" then e == WrongRoot
    else if !AllSeriesAcceptable(elements) then e.BadSeries? && ElementsFault(e.cause, elements)
    else
      var h := Headers(elements);
      if "revisionNumber" in h && h["revisionNumber"].number.None? then e == BadRevision
      else if "createdDateTime" !in h || h["createdDateTime"].stamp.None? then e == NoCreationTime
      else e == CreationNotUtc && h["createdDateTime"].stamp.value.offset != Some(0)
  }

  lemma ElementsSnoc(elements: seq<Element>, e: Element)
    requires AllSeriesAcceptable(elements) && (e.SeriesElement? ==> AcceptableSeries(e.node))
    ensures AllSeriesAcceptable(elements + [e])
    ensures Headers(elements + [e]) == if e.Header? then Headers(elements)[e.name := e.value] else Headers(elements)
    ensures AllSeries(elements + [e])
            == if e.SeriesElement? then AllSeries(elements) + NodeSeries(e.node) else AllSeries(elements)
  {
    assert (elements + [e])[..|elements|] == elements;
  }

  /** The root's children in order: leaves into the header dictionary, every TimeSeries into series. */
  method ParseElements(elements: seq<Element>)
    returns (r: Result<(map<string, HeaderText>, seq<Series>), SeriesError>)
    ensures r.Ok? <==> AllSeriesAcceptable(elements)
    ensures r.Ok? ==> r.value == (Headers(elements), AllSeries(elements))
    ensures r.Ok? ==> forall s :: s in r.value.1 ==> WellParsed(s)
    ensures r.Err? ==> ElementsFault(r.error, elements)
  {
    var headers: map<string, HeaderText> := map[];
    var series: seq<Series> := [];
    ghost var seen: seq<Element> := [];
    for i := 0 to |elements|
      invariant seen == elements[..i]
      invariant AllSeriesAcceptable(seen)
      invariant headers == Headers(seen) && series == AllSeries(seen)
      invariant forall s :: s in series ==> WellParsed(s)
    {
      assert elements[..i + 1] == seen + [elements[i]];
      match elements[i] {
        case SeriesElement(node) =>
          var parsed := ParseSeries(node);
          if parsed.Err? {
            assert ElementsFault(parsed.error, elements);
            return Err(parsed.error);
          }
          series := series + parsed.value;
        case Header(name, value) => headers := headers[name := value];
        case OtherElement =>
      }
      ElementsSnoc(seen, elements[i]);
      seen := seen + [elements[i]];
    }
    assert elements[..|elements|] == elements;
    return Ok((headers, series));
  }

  /** A document with the right root is read whole or refused: no TimeSeries is skipped or reordered. */
  method ParseGeneration(root: string, elements: seq<Element>) returns (r: Result<Document, DocumentError>)
    ensures r.Ok?
            <==> root == "GL_MarketDocument" && AllSeriesAcceptable(elements) && HeadersAcceptable(Headers(elements))
    ensures r.Ok? ==> r.value == DocumentOf(elements) && forall s :: s in r.value.series ==> WellParsed(s)
    ensures r.Err? ==> DocumentFault(r.error, root, elements)
  {
    if root != "GL_MarketDocument" { return Err(WrongRoot); }
    var parsed := ParseElements(elements);
    if parsed.Err? { return Err(BadSeries(parsed.error)); }
    var (headers, series) := parsed.value;
    if "revisionNumber" in headers && headers["revisionNumber"].number.None? { return Err(BadRevision); }
    if "createdDateTime" !in headers || headers["createdDateTime"].stamp.None? { return Err(NoCreationTime); }
    if headers["createdDateTime"].stamp.value.offset != Some(0) { return Err(CreationNotUtc); }
    return Ok(Document(
      if "mRID" in headers then headers["mRID"].text else "",
      if "revisionNumber" in headers then headers["revisionNumber"].number.value else 0,
      headers["createdDateTime"].stamp.value.instant,
      series));
  }
}
