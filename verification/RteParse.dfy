/** RTE values have no positions: absence shows only against the grid the window implies. */
module RteParse {
  import opened Prelude
  import opened TimeAxis
  import opened Records
  import opened EntsoeParse
  import opened Gate
  import opened Silver
  import opened Gold

  datatype RteValue = RteValue(start: int, end: Option<int>, quantity: Decimal, updated: Option<int>)

  datatype Entry = Entry(name: string, start: int, end: int, values: seq<RteValue>)

  const PRODUCTION_NAMES: map<string, string> := map[
    "BIOMASS" := "B01", "FOSSIL_GAS" := "B04", "FOSSIL_HARD_COAL" := "B05", "FOSSIL_OIL" := "B06",
    "FOSSIL_BROWN_COAL" := "B02", "HYDRO_PUMPED_STORAGE" := "B10", "HYDRO_RUN_OF_RIVER_AND_POUNDAGE" := "B11",
    "HYDRO_WATER_RESERVOIR" := "B12", "NUCLEAR" := "B14", "SOLAR" := "B16", "WASTE" := "B17",
    "WIND_OFFSHORE" := "B18", "WIND_ONSHORE" := "B19", "EXCHANGE" := "B20"]

  /** The distinct lengths of the values that carry an end. */
  function Spans(values: seq<RteValue>): set<int> {
    set v | v in values && v.end.Some? :: v.end.value - v.start
  }

  function Span(values: seq<RteValue>): (d: int)
    requires |Spans(values)| == 1
    ensures Spans(values) == {d}
  {
    SingletonSpan(Spans(values));
    var d :| d in Spans(values);
    d
  }

  lemma SingletonSpan(s: set<int>)
    requires |s| == 1
    ensures exists d :: d in s && s == {d}
    ensures forall a, b :: a in s && b in s ==> a == b
  {
    var d := Pick(s);
    assert |s - {d}| == 0;
    assert s == {d};
  }

  /** dict keyed by start: a later value replaces an earlier one. */
  function Present(values: seq<RteValue>): (m: map<int, RteValue>)
    ensures forall t :: t in m <==> exists v :: v in values && v.start == t
    ensures forall t :: t in m ==> m[t] in values && m[t].start == t
  {
    if values == [] then map[]
    else
      var init, v := values[..|values| - 1], values[|values| - 1];
      assert values == init + [v];
      Present(init)[v.start := v]
  }

  /** The instants of [start, end) a whole number of periods from the start. Only a nonempty window needs a period. */
  function Moments(start: int, end: int, resolution: int): seq<int>
    requires start < end ==> resolution > 0
    decreases end - start
  {
    if start >= end then [] else [start] + Moments(start + resolution, end, resolution)
  }

  /** Every instant of [start, end) that is a whole number of periods from the start, once each, in order. */
  method Expected(start: int, end: int, resolution: int) returns (moments: seq<int>)
    requires start < end ==> resolution > 0
    ensures moments == Moments(start, end, resolution)
    ensures forall t :: t in moments <==> start <= t < end && WholeFrom(start, t, resolution)
    ensures Increasing(moments)
  {
    moments := [];
    var moment := start;
    while moment < end
      invariant start <= moment
      invariant moments + Moments(moment, end, resolution) == Moments(start, end, resolution)
      decreases end - moment
    {
      moments := moments + [moment];
      moment := moment + resolution;
    }
    MomentsAscend(start, end, resolution);
    forall t ensures t in moments <==> start <= t < end && WholeFrom(start, t, resolution) {
      MomentExact(start, end, resolution, t);
    }
  }

  lemma {:induction false} MomentsAscend(start: int, end: int, resolution: int)
    requires start < end ==> resolution > 0
    ensures Increasing(Moments(start, end, resolution))
    ensures forall t :: t in Moments(start, end, resolution) ==> start <= t < end
    decreases end - start
  {
    if start >= end {
    } else {
      var rest := Moments(start + resolution, end, resolution);
      MomentsAscend(start + resolution, end, resolution);
      IncreasingCons(start, rest);
    }
  }

  lemma IncreasingCons(first: int, rest: seq<int>)
    requires Increasing(rest) && forall x :: x in rest ==> first < x
    ensures Increasing([first] + rest)
  {
    assert forall j :: 0 <= j < |rest| ==> rest[j] in rest;
  }

  predicate WholeFrom(start: int, t: int, resolution: int)
    requires resolution > 0
  {
    (t - start) % resolution == 0
  }

  lemma {:induction false} MomentExact(start: int, end: int, resolution: int, t: int)
    requires start < end ==> resolution > 0
    ensures t in Moments(start, end, resolution) <==> start <= t < end && WholeFrom(start, t, resolution)
    decreases end - start
  {
    MomentsAscend(start, end, resolution);
    if start <= t < end {
      MomentExact(start + resolution, end, resolution, t);
      NextWhole(t - start, resolution);
      assert t - (start + resolution) == t - start - resolution;
    }
  }

  /** A whole number of periods is none, or at least one and then a whole number again. */
  lemma NextWhole(x: int, d: int)
    requires d > 0 && x >= 0
    ensures x % d == 0 <==> x == 0 || (d <= x && (x - d) % d == 0)
  {
    WholeExact(x, d);
    WholeExact(x - d, d);
    if n: int :| n * d == x {
      assert (n - 1) * d == x - d;
      PositiveFactor(n, d);
    }
    if n: int :| n * d == x - d {
      assert (n + 1) * d == x;
    }
    assert 0 * d == 0;
  }

  lemma PositiveFactor(n: int, d: int)
    requires d > 0 && n * d >= 0
    ensures n * d == 0 || n * d >= d
  {
    if n >= 1 {
      assert (n - 1) * d >= 0;
    }
  }

  function Magnitude(q: Decimal): Decimal {
    if q.coefficient < 0 then q.(coefficient := -q.coefficient) else q
  }

  /** Pumping arrives as a negative number: the sign becomes a direction. */
  function CandidateAt(
      v: RteValue, zone: string, productionType: string, moment: int, resolution: int, knownAt: int): Candidate
  {
    Candidate(
      Key(Rte, zone, productionType, if v.quantity.coefficient < 0 then Consumption else Generation, moment),
      knownAt, Magnitude(v.quantity), v.updated, None, "MW", resolution / SECOND / 60)
  }

  function NormaliseMoment(
      present: map<int, RteValue>, zone: string, productionType: string, moment: int, resolution: int, knownAt: int)
    : GateResult
  {
    if moment in present then Built(CandidateAt(present[moment], zone, productionType, moment, resolution, knownAt))
    else GateResult([], [], [Gap(zone, productionType, Generation, moment, 0)])
  }

  function NormaliseGrid(
      present: map<int, RteValue>, zone: string, productionType: string, moments: seq<int>,
      resolution: int, knownAt: int)
    : GateResult
  {
    Fold(moments, m => NormaliseMoment(present, zone, productionType, m, resolution, knownAt))
  }

  /** An entry that reaches the grid: a known type, and values of one span. */
  predicate Regular(entry: Entry) {
    entry.name in PRODUCTION_NAMES && entry.values != [] && |Spans(entry.values)| == 1
  }

  /** The one precondition: over a nonempty window, a span of zero or less would make the grid endless. */
  predicate Ends(entry: Entry)
    requires Regular(entry)
  {
    entry.start < entry.end ==> Span(entry.values) > 0
  }

  method NormaliseMoments(
      present: map<int, RteValue>, zone: string, productionType: string, moments: seq<int>,
      resolution: int, knownAt: int, before: GateResult)
    returns (r: GateResult)
    ensures r == Join(before, NormaliseGrid(present, zone, productionType, moments, resolution, knownAt))
  {
    r := before;
    for i := 0 to |moments|
      invariant r == Join(before, NormaliseGrid(present, zone, productionType, moments[..i], resolution, knownAt))
    {
      assert moments[..i + 1][..i] == moments[..i];
      if moments[i] !in present {
        r := r.(gaps := r.gaps + [Gap(zone, productionType, Generation, moments[i], 0)]);
      } else {
        match BuildRecord(CandidateAt(present[moments[i]], zone, productionType, moments[i], resolution, knownAt)) {
          case Ok(row) => r := r.(records := r.records + [row]);
          case Err(v) => r := r.(violations := r.violations + [v]);
        }
      }
    }
    assert moments[..|moments|] == moments;
  }

  /** One entry's contribution, appended to what came before. */
  method NormaliseEntry(entry: Entry, zone: string, knownAt: int, before: GateResult) returns (r: GateResult)
    requires Regular(entry) ==> Ends(entry)
    ensures entry.name !in PRODUCTION_NAMES
            ==> r == Join(before, GateResult([], [UnknownProductionType(entry.name)], []))
    ensures entry.name in PRODUCTION_NAMES && entry.values == [] ==> r == before
    ensures entry.name in PRODUCTION_NAMES && entry.values != [] && |Spans(entry.values)| != 1
            ==> r == Join(before, GateResult([], [MixedResolution(entry.name)], []))
    ensures Regular(entry) ==> r == Join(before, Normalised(entry, zone, knownAt))
  {
    if entry.name !in PRODUCTION_NAMES {
      return before.(violations := before.violations + [UnknownProductionType(entry.name)]);
    }
    if entry.values == [] { return before; }
    if |Spans(entry.values)| != 1 {
      return before.(violations := before.violations + [MixedResolution(entry.name)]);
    }
    var moments := Expected(entry.start, entry.end, Span(entry.values));
    r := NormaliseMoments(
      Present(entry.values), zone, PRODUCTION_NAMES[entry.name], moments, Span(entry.values), knownAt, before);
  }

  function GridOf(entry: Entry): seq<int>
    requires Regular(entry) && Ends(entry)
  {
    Moments(entry.start, entry.end, Span(entry.values))
  }

  function Normalised(entry: Entry, zone: string, knownAt: int): GateResult
    requires Regular(entry) && Ends(entry)
  {
    NormaliseGrid(Present(entry.values), zone, PRODUCTION_NAMES[entry.name], GridOf(entry), Span(entry.values), knownAt)
  }

  lemma GridAccounted(
      present: map<int, RteValue>, zone: string, productionType: string, moments: seq<int>,
      resolution: int, knownAt: int, t: int)
    ensures Accounted(NormaliseGrid(present, zone, productionType, moments, resolution, knownAt), t)
            == Occurs(moments, t)
  {
    var outcome := m => NormaliseMoment(present, zone, productionType, m, resolution, knownAt);
    forall m ensures Accounted(outcome(m), t) == if t == m then 1 else 0 {
      if m in present {
        AccountedBuilt(CandidateAt(present[m], zone, productionType, m, resolution, knownAt), t);
      } else {
        AccountedGap(Gap(zone, productionType, Generation, m, 0), t);
      }
    }
    FoldAccounted(moments, outcome, m => m, t);
    assert Map(moments, m => m) == moments;
  }

  lemma {:induction false} GridGaps(
      present: map<int, RteValue>, zone: string, productionType: string, moments: seq<int>,
      resolution: int, knownAt: int)
    ensures var r := NormaliseGrid(present, zone, productionType, moments, resolution, knownAt);
            && GapTimes(r.gaps) == Filter(moments, t => t !in present)
            && |r.records| + |r.violations| == |Filter(moments, t => t in present)|
  {
    if moments == [] {
    } else {
      GridGaps(present, zone, productionType, moments[..|moments| - 1], resolution, knownAt);
    }
  }

  lemma GridDistinct(entry: Entry)
    requires Regular(entry) && Ends(entry)
    ensures Distinct(GridOf(entry))
  {
    MomentsAscend(entry.start, entry.end, Span(entry.values));
  }

  /**
   * Each instant of the window's grid yields exactly one record, violation or gap, no other instant
   * yields any, and it is a gap exactly when no value starts there.
   */
  lemma EntryAccounted(entry: Entry, zone: string, knownAt: int, t: int)
    requires Regular(entry) && Ends(entry)
    ensures var r := Normalised(entry, zone, knownAt);
            && Accounted(r, t) == (if t in GridOf(entry) then 1 else 0)
            && (t in GapTimes(r.gaps) <==> t in GridOf(entry) && forall v :: v in entry.values ==> v.start != t)
  {
    var present, name, span := Present(entry.values), PRODUCTION_NAMES[entry.name], Span(entry.values);
    GridAccounted(present, zone, name, GridOf(entry), span, knownAt, t);
    GridGaps(present, zone, name, GridOf(entry), span, knownAt);
    GridDistinct(entry);
    OccursOnce(GridOf(entry), t);
  }

  predicate OnGrid(entry: Entry)
    requires Regular(entry) && Ends(entry)
  {
    forall v :: v in entry.values ==> v.start in GridOf(entry)
  }

  predicate DistinctStarts(values: seq<RteValue>) {
    forall i, j :: 0 <= i < j < |values| ==> values[i].start != values[j].start
  }

  /**
   * Values off the grid, or sharing a start, vanish without a record or a violation: every value is
   * answered for exactly when there is none of either kind.
   */
  lemma NothingLostExact(entry: Entry, zone: string, knownAt: int)
    requires Regular(entry) && Ends(entry)
    ensures var r := Normalised(entry, zone, knownAt);
            && |r.records| + |r.violations| <= |entry.values|
            && (|r.records| + |r.violations| == |entry.values| <==> OnGrid(entry) && DistinctStarts(entry.values))
  {
    var grid, present := GridOf(entry), Present(entry.values);
    var hits, starts := Filter(grid, t => t in present), Map(entry.values, (v: RteValue) => v.start);
    GridGaps(present, zone, PRODUCTION_NAMES[entry.name], grid, Span(entry.values), knownAt);
    GridDistinct(entry);
    FilterDistinct(grid, t => t in present);
    StartsPresent(entry.values, starts);
    SelectionCount(hits, starts);
    assert OnGrid(entry) <==> forall t :: t in starts ==> t in grid;
  }

  /** An hourly NUCLEAR entry for a window of two hours, with values starting at the given instants. */
  function HourlyEntry(first: int, second: int, quantity: Decimal): (e: Entry)
    ensures Regular(e) && Ends(e) && Span(e.values) == HOUR
    ensures e.start == 0 && e.end == 2 * HOUR
    ensures |e.values| == 2 && e.values[0].start == first && e.values[1].start == second
  {
    var values := [RteValue(first, Some(first + HOUR), quantity, None),
                   RteValue(second, Some(second + HOUR), quantity, None)];
    assert Spans(values) == {HOUR} by {
      assert values[0] in values && values[0].end.value - values[0].start == HOUR;
    }
    Entry("NUCLEAR", 0, 2 * HOUR, values)
  }

  lemma LosesOne(entry: Entry, v: RteValue, zone: string, knownAt: int)
    requires Regular(entry) && Ends(entry) && v in entry.values
    requires v.start !in GridOf(entry) || !DistinctStarts(entry.values)
    ensures var r := Normalised(entry, zone, knownAt); |r.records| + |r.violations| < |entry.values|
  {
    NothingLostExact(entry, zone, knownAt);
  }

  /** Values do get lost: one that starts at half past the hour, and one of two that start together. */
  lemma StrayValuesLost(quantity: Decimal, zone: string, knownAt: int)
    ensures var r := Normalised(HourlyEntry(0, HOUR / 2, quantity), zone, knownAt); |r.records| + |r.violations| < 2
    ensures var r := Normalised(HourlyEntry(0, 0, quantity), zone, knownAt); |r.records| + |r.violations| < 2
  {
    var stray, shared := HourlyEntry(0, HOUR / 2, quantity), HourlyEntry(0, 0, quantity);
    MomentExact(0, 2 * HOUR, HOUR, HOUR / 2);
    LosesOne(stray, stray.values[1], zone, knownAt);
    assert shared.values[0].start == shared.values[1].start;
    LosesOne(shared, shared.values[0], zone, knownAt);
  }

  lemma StartsPresent(values: seq<RteValue>, starts: seq<int>)
    requires starts == Map(values, (v: RteValue) => v.start)
    ensures forall t :: t in starts <==> t in Present(values)
    ensures forall v :: v in values ==> v.start in starts
    ensures Distinct(starts) <==> DistinctStarts(values)
  {
    forall t ensures t in starts <==> t in Present(values) {
      if t in starts {
        var i :| 0 <= i < |starts| && starts[i] == t;
        assert values[i] in values;
      }
      if t in Present(values) {
        var v :| v in values && v.start == t;
        var i :| 0 <= i < |values| && values[i] == v;
        assert starts[i] == t;
      }
    }
    forall v | v in values ensures v.start in starts {
      var i :| 0 <= i < |values| && values[i] == v;
      assert starts[i] == v.start;
    }
  }

  /** A row that says what a value said: same instant, magnitude with the sign as direction, and stamp. */
  predicate RecordsValue(r: Row, v: RteValue, zone: string, productionType: string, span: int, knownAt: int) {
    && r.key == Key(Rte, zone, productionType, if v.quantity.coefficient < 0 then Consumption else Generation, v.start)
    && v.quantity.scale <= MAX_SCALE && r.value == Value(Thousandths(Magnitude(v.quantity)), v.updated)
    && r.knownAt == knownAt && r.documentId == None && r.unit == "MW"
    && r.resolutionMinutes == span / SECOND / 60 && 0 < r.resolutionMinutes <= MAX_RESOLUTION_MINUTES
  }

  lemma {:induction false} GridRecords(
      values: seq<RteValue>, zone: string, productionType: string, moments: seq<int>, span: int, knownAt: int)
    ensures forall r :: r in NormaliseGrid(Present(values), zone, productionType, moments, span, knownAt).records ==>
              InContract(r) && exists v :: v in values && RecordsValue(r, v, zone, productionType, span, knownAt)
  {
    if moments == [] {
    } else {
      var init, m := moments[..|moments| - 1], moments[|moments| - 1];
      GridRecords(values, zone, productionType, init, span, knownAt);
      var last := NormaliseMoment(Present(values), zone, productionType, m, span, knownAt).records;
      assert NormaliseGrid(Present(values), zone, productionType, moments, span, knownAt).records
          == NormaliseGrid(Present(values), zone, productionType, init, span, knownAt).records + last;
      forall r | r in last
        ensures InContract(r) && exists v :: v in values && RecordsValue(r, v, zone, productionType, span, knownAt)
      {
        var v := Present(values)[m];
        assert v in values && v.start == m;
        BuiltValue(v, zone, productionType, span, knownAt);
        BuiltInContract(CandidateAt(v, zone, productionType, m, span, knownAt));
      }
    }
  }

  lemma BuiltValue(v: RteValue, zone: string, productionType: string, span: int, knownAt: int)
    ensures forall r :: r in Built(CandidateAt(v, zone, productionType, v.start, span, knownAt)).records
                        ==> RecordsValue(r, v, zone, productionType, span, knownAt)
  {
  }

  /** Everything accepted of an entry records one of its values, at the fetch's known_at, and meets the contract. */
  lemma AcceptedValues(entry: Entry, zone: string, knownAt: int)
    requires Regular(entry) && Ends(entry)
    ensures forall r :: r in Normalised(entry, zone, knownAt).records ==>
              InContract(r)
              && exists v :: v in entry.values
                          && RecordsValue(r, v, zone, PRODUCTION_NAMES[entry.name], Span(entry.values), knownAt)
  {
    GridRecords(entry.values, zone, PRODUCTION_NAMES[entry.name], GridOf(entry), Span(entry.values), knownAt);
  }

  lemma {:induction false} GridGapsExact(
      present: map<int, RteValue>, zone: string, productionType: string, moments: seq<int>,
      resolution: int, knownAt: int)
    ensures forall g :: g in NormaliseGrid(present, zone, productionType, moments, resolution, knownAt).gaps ==>
              g == Gap(zone, productionType, Generation, g.validTime, 0)
  {
    if moments == [] {
    } else {
      GridGapsExact(present, zone, productionType, moments[..|moments| - 1], resolution, knownAt);
    }
  }

  /** The gaps are the grid's instants without a value, in order, as generation of the entry's own type. */
  lemma EntryGaps(entry: Entry, zone: string, knownAt: int)
    requires Regular(entry) && Ends(entry)
    ensures var gaps := Normalised(entry, zone, knownAt).gaps;
            && GapTimes(gaps) == Filter(GridOf(entry), t => forall v :: v in entry.values ==> v.start != t)
            && forall g :: g in gaps ==>
                 && g.zone == zone && g.productionType == PRODUCTION_NAMES[entry.name]
                 && g.direction == Generation && g.position == 0
  {
    var present, grid := Present(entry.values), GridOf(entry);
    GridGaps(present, zone, PRODUCTION_NAMES[entry.name], grid, Span(entry.values), knownAt);
    GridGapsExact(present, zone, PRODUCTION_NAMES[entry.name], grid, Span(entry.values), knownAt);
    FilterCongruence(grid, t => t !in present, t => forall v :: v in entry.values ==> v.start != t);
  }

  /** An entry the contract has nothing against. */
  ghost predicate PublishableEntry(entry: Entry, zone: string, knownAt: int)
    requires Regular(entry)
  {
    var span := Span(entry.values);
    && zone in ZONES && span > 0 && span % MINUTE == 0 && DAY % span == 0 && entry.start % span == 0
    && forall v :: v in entry.values ==>
         v.start <= knownAt && v.quantity.scale <= 3 && -150_000_000 <= Thousandths(v.quantity) <= 150_000_000
  }

  lemma NamesKnown()
    ensures forall n :: n in PRODUCTION_NAMES ==> PRODUCTION_NAMES[n] in PRODUCTION_TYPES
    ensures forall n :: n in PRODUCTION_NAMES
                        ==> (PRODUCTION_NAMES[n] in STORAGE_TYPES <==> n == "HYDRO_PUMPED_STORAGE")
  {
  }

  lemma MagnitudeExact(q: Decimal)
    requires q.scale <= 3
    ensures Thousandths(Magnitude(q)) == if Thousandths(q) < 0 then -Thousandths(q) else Thousandths(q)
    ensures Thousandths(q) < 0 <==> q.coefficient < 0
  {
    var scale := Pow10(MAX_SCALE - q.scale);
    SameSign(q.coefficient, scale);
    assert -q.coefficient * scale == -(q.coefficient * scale);
  }

  lemma ValueAccepted(entry: Entry, zone: string, knownAt: int, v: RteValue)
    requires Regular(entry) && Ends(entry) && PublishableEntry(entry, zone, knownAt)
    requires v in entry.values && v.start in GridOf(entry)
    ensures BuildRecord(
              CandidateAt(v, zone, PRODUCTION_NAMES[entry.name], v.start, Span(entry.values), knownAt)).Ok?
  {
    var span := Span(entry.values);
    MomentExact(entry.start, entry.end, span, v.start);
    WholeExact(v.start - entry.start, span);
    var i: int :| i * span == v.start - entry.start;
    SlotOnBoundary(entry.start, span, i, v.start);
    MinutesExact(span);
    ResolutionOfDay(span);
    MagnitudeExact(v.quantity);
    NamesKnown();
    ContractExact(CandidateAt(v, zone, PRODUCTION_NAMES[entry.name], v.start, span, knownAt));
  }

  /** The instants that have a value. */
  function Hits(values: seq<RteValue>, moments: seq<int>): seq<int> { Filter(moments, t => t in Present(values)) }

  lemma {:induction false} HitsRecorded(
      values: seq<RteValue>, zone: string, productionType: string, moments: seq<int>, span: int, knownAt: int)
    requires forall t :: t in moments && t in Present(values) ==>
               BuildRecord(CandidateAt(Present(values)[t], zone, productionType, t, span, knownAt)).Ok?
    ensures var g := NormaliseGrid(Present(values), zone, productionType, moments, span, knownAt);
            var hits := Hits(values, moments);
            && g.violations == [] && |g.records| == |hits|
            && forall i :: 0 <= i < |hits| ==>
                 && hits[i] in Present(values)
                 && RecordsValue(g.records[i], Present(values)[hits[i]], zone, productionType, span, knownAt)
  {
    if moments == [] {
    } else {
      var init, m := moments[..|moments| - 1], moments[|moments| - 1];
      HitsRecorded(values, zone, productionType, init, span, knownAt);
      if m in Present(values) {
        BuiltValue(Present(values)[m], zone, productionType, span, knownAt);
        assert BuildRecord(CandidateAt(Present(values)[m], zone, productionType, m, span, knownAt)).value
            in Built(CandidateAt(Present(values)[m], zone, productionType, m, span, knownAt)).records;
      }
    }
  }

  /** The last value to give a start is the one kept for it. */
  lemma {:induction false} LastValueWins(values: seq<RteValue>, i: nat)
    requires i < |values| && forall j :: i < j < |values| ==> values[j].start != values[i].start
    ensures values[i].start in Present(values) && Present(values)[values[i].start] == values[i]
  {
    if i < |values| - 1 {
      LastValueWins(values[..|values| - 1], i);
    }
  }

  ghost predicate ValueRecorded(entry: Entry, v: RteValue, zone: string, knownAt: int)
    requires Regular(entry) && Ends(entry)
  {
    exists r :: r in Normalised(entry, zone, knownAt).records
                && RecordsValue(r, v, zone, PRODUCTION_NAMES[entry.name], Span(entry.values), knownAt)
  }

  lemma EntryHits(entry: Entry, zone: string, knownAt: int)
    requires Regular(entry) && Ends(entry) && PublishableEntry(entry, zone, knownAt)
    ensures var g, hits := Normalised(entry, zone, knownAt), Hits(entry.values, GridOf(entry));
            && g.violations == [] && |g.records| == |hits|
            && forall i :: 0 <= i < |hits| ==>
                 && hits[i] in Present(entry.values)
                 && RecordsValue(g.records[i], Present(entry.values)[hits[i]], zone, PRODUCTION_NAMES[entry.name],
                                 Span(entry.values), knownAt)
  {
    var values, code, span, grid := entry.values, PRODUCTION_NAMES[entry.name], Span(entry.values), GridOf(entry);
    forall t | t in grid && t in Present(values)
      ensures BuildRecord(CandidateAt(Present(values)[t], zone, code, t, span, knownAt)).Ok?
    {
      ValueAccepted(entry, zone, knownAt, Present(values)[t]);
    }
    HitsRecorded(values, zone, code, grid, span, knownAt);
  }

  /** A value that starts on the grid, with no later one starting there. */
  predicate Kept(entry: Entry, i: nat)
    requires Regular(entry) && Ends(entry) && i < |entry.values|
  {
    && entry.values[i].start in GridOf(entry)
    && forall j :: i < j < |entry.values| ==> entry.values[j].start != entry.values[i].start
  }

  lemma KeptRecorded(entry: Entry, zone: string, knownAt: int, i: nat)
    requires Regular(entry) && Ends(entry) && PublishableEntry(entry, zone, knownAt)
    requires i < |entry.values| && Kept(entry, i)
    ensures ValueRecorded(entry, entry.values[i], zone, knownAt)
  {
    var hits := Hits(entry.values, GridOf(entry));
    EntryHits(entry, zone, knownAt);
    LastValueWins(entry.values, i);
    var k :| 0 <= k < |hits| && hits[k] == entry.values[i].start;
    assert Normalised(entry, zone, knownAt).records[k] in Normalised(entry, zone, knownAt).records;
  }

  /** Nothing good is turned away: the last value on each instant of the grid has its record, and none is refused. */
  lemma EntryComplete(entry: Entry, zone: string, knownAt: int)
    requires Regular(entry) && Ends(entry) && PublishableEntry(entry, zone, knownAt)
    ensures Normalised(entry, zone, knownAt).violations == []
    ensures forall i :: 0 <= i < |entry.values| && Kept(entry, i)
                        ==> ValueRecorded(entry, entry.values[i], zone, knownAt)
  {
    EntryHits(entry, zone, knownAt);
    forall i | 0 <= i < |entry.values| && Kept(entry, i)
      ensures ValueRecorded(entry, entry.values[i], zone, knownAt)
    {
      KeptRecorded(entry, zone, knownAt, i);
    }
  }

  lemma MinutesExact(span: int)
    ensures span / SECOND / 60 * MINUTE == span <==> span % MINUTE == 0
    ensures span / SECOND / 60 * MINUTE <= span < (span / SECOND / 60 + 1) * MINUTE
  {
    assert span / SECOND / 60 == span / MINUTE;
  }

  /**
   * The resolution of an accepted row is its value's span when that is a whole number of minutes, and only
   * then: nothing on this path refuses an odd one, it is cut to the minute below.
   */
  lemma ResolutionExact(entry: Entry, zone: string, knownAt: int, r: Row)
    requires Regular(entry) && Ends(entry) && r in Normalised(entry, zone, knownAt).records
    ensures r.resolutionMinutes * MINUTE == Span(entry.values) <==> Span(entry.values) % MINUTE == 0
    ensures r.resolutionMinutes * MINUTE <= Span(entry.values) < (r.resolutionMinutes + 1) * MINUTE
  {
    AcceptedValues(entry, zone, knownAt);
    MinutesExact(Span(entry.values));
  }

  /** A value of 90 seconds is accepted, as one of a minute. */
  lemma OddSpanAccepted() returns (entry: Entry, r: Row)
    ensures Regular(entry) && Ends(entry) && Span(entry.values) == 90 * SECOND
    ensures Normalised(entry, "10YFR-RTE------C", 0) == GateResult([r], [], []) && r.resolutionMinutes == 1
  {
    var v := RteValue(0, Some(90 * SECOND), Decimal(1, 0), None);
    entry := Entry("NUCLEAR", 0, 90 * SECOND, [v]);
    assert Spans([v]) == {90 * SECOND} by {
      assert v in [v];
    }
    assert Span(entry.values) == 90 * SECOND;
    assert Moments(90 * SECOND, 90 * SECOND, 90 * SECOND) == [];
    assert GridOf(entry) == [0];
    assert Present([v]) == map[0 := v] by {
      assert [v][..0] == [];
    }
    var c := CandidateAt(v, "10YFR-RTE------C", "B14", 0, 90 * SECOND, 0);
    assert Pow10(0) == 1 && Pow10(1) == 10 && Pow10(2) == 100 && Pow10(3) == 1000;
    assert c.resolutionMinutes == 1;
    r := BuildRecord(c).value;
    FoldOfOne(0, m => NormaliseMoment(Present([v]), "10YFR-RTE------C", "B14", m, 90 * SECOND, 0));
  }

  /** Gold's netting gives back the signed number RTE published: only a negative one counts as consumption. */
  lemma SignSplitUndone(
      v: RteValue, zone: string, productionType: string, moment: int, resolution: int, knownAt: int, version: Version)
    requires BuildRecord(CandidateAt(v, zone, productionType, moment, resolution, knownAt)) == Ok(version.row)
    ensures Signed(version) == Thousandths(v.quantity)
    ensures version.row.key.direction == Consumption <==> Thousandths(v.quantity) < 0
  {
    MagnitudeExact(v.quantity);
  }
}
