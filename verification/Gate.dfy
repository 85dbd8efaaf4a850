/** The contract gate: every published position becomes a record, a violation or a gap. */
module Gate {
  import opened Prelude
  import opened TimeAxis
  import opened Records
  import opened EntsoeParse

  /** A settlement period the source did not publish. */
  datatype Gap = Gap(zone: string, productionType: string, direction: Direction, validTime: int, position: int)

  datatype GateResult = GateResult(records: seq<Row>, violations: seq<Violation>, gaps: seq<Gap>)

  const NOTHING := GateResult([], [], [])

  function Join(a: GateResult, b: GateResult): GateResult {
    GateResult(a.records + b.records, a.violations + b.violations, a.gaps + b.gaps)
  }

  /** divmod(int(resolution.total_seconds()), 60). */
  function WholeMinutes(resolution: int): int { resolution / SECOND / 60 }

  function OddSeconds(resolution: int): int { resolution / SECOND % 60 }

  function CandidateOf(mrid: string, s: Series, o: Observation, knownAt: int): Candidate {
    Candidate(Key(Entsoe, s.zone, s.productionType, s.direction, o.validTime), knownAt, o.quantity, None, Some(mrid),
              if s.unit == "MAW" then "MW" else s.unit, WholeMinutes(s.resolution))
  }

  function GapOf(s: Series, position: int): Gap {
    Gap(s.zone, s.productionType, s.direction, Slot(s.start, s.resolution, position), position)
  }

  function GapsOf(s: Series, positions: seq<int>): seq<Gap> { Map(positions, p => GapOf(s, p)) }

  function Built(c: Candidate): GateResult {
    match BuildRecord(c)
    case Ok(row) => GateResult([row], [], [])
    case Err(v) => GateResult([], [v], [])
  }

  /** What a run of elements contributes, in order. */
  function Fold<T>(xs: seq<T>, outcome: T -> GateResult): GateResult {
    if xs == [] then NOTHING else Join(Fold(xs[..|xs| - 1], outcome), outcome(xs[|xs| - 1]))
  }

  lemma FoldOfOne<T>(x: T, outcome: T -> GateResult)
    ensures Fold([x], outcome) == outcome(x)
  {
    assert [x][..0] == [];
  }

  function GateObservations(mrid: string, s: Series, observations: seq<Observation>, knownAt: int): GateResult {
    Fold(observations, o => Built(CandidateOf(mrid, s, o, knownAt)))
  }

  /** A series at a sub-minute resolution is one violation; any other is split position by position. */
  function GateSeries(mrid: string, s: Series, knownAt: int): GateResult {
    if OddSeconds(s.resolution) != 0 then
      GateResult([], [SubMinuteResolution(s.start, |s.observations|)], [])
    else
      Join(GateObservations(mrid, s, s.observations, knownAt), GateResult([], [], GapsOf(s, s.missing)))
  }

  function GateAll(mrid: string, series: seq<Series>, knownAt: int): GateResult {
    if series == [] then NOTHING
    else Join(GateAll(mrid, series[..|series| - 1], knownAt), GateSeries(mrid, series[|series| - 1], knownAt))
  }

  method ApplyObservations(mrid: string, s: Series, knownAt: int, before: GateResult) returns (r: GateResult)
    ensures r == Join(before, GateObservations(mrid, s, s.observations, knownAt))
  {
    r := before;
    for i := 0 to |s.observations|
      invariant r == Join(before, GateObservations(mrid, s, s.observations[..i], knownAt))
    {
      assert s.observations[..i + 1][..i] == s.observations[..i];
      var c := CandidateOf(mrid, s, s.observations[i], knownAt);
      match BuildRecord(c) {
        case Ok(row) => r := r.(records := r.records + [row]);
        case Err(v) => r := r.(violations := r.violations + [v]);
      }
    }
    assert s.observations[..|s.observations|] == s.observations;
  }

  method ApplyMissing(s: Series, before: GateResult) returns (r: GateResult)
    ensures r == Join(before, GateResult([], [], GapsOf(s, s.missing)))
  {
    r := before;
    for i := 0 to |s.missing|
      invariant r == before.(gaps := before.gaps + GapsOf(s, s.missing[..i]))
    {
      assert s.missing[..i + 1] == s.missing[..i] + [s.missing[i]];
      MapSnoc(s.missing[..i], s.missing[i], p => GapOf(s, p));
      r := r.(gaps := r.gaps + [GapOf(s, s.missing[i])]);
    }
    assert s.missing[..|s.missing|] == s.missing;
  }

  method ApplySeries(mrid: string, s: Series, knownAt: int, before: GateResult) returns (r: GateResult)
    ensures r == Join(before, GateSeries(mrid, s, knownAt))
  {
    if OddSeconds(s.resolution) != 0 {
      return before.(violations := before.violations + [SubMinuteResolution(s.start, |s.observations|)]);
    }
    r := ApplyObservations(mrid, s, knownAt, before);
    r := ApplyMissing(s, r);
    JoinAssociative(
      before, GateObservations(mrid, s, s.observations, knownAt), GateResult([], [], GapsOf(s, s.missing)));
  }

  lemma JoinAssociative(a: GateResult, b: GateResult, c: GateResult)
    ensures Join(Join(a, b), c) == Join(a, Join(b, c))
  {
  }

  lemma GateAllSnoc(mrid: string, series: seq<Series>, s: Series, knownAt: int)
    ensures GateAll(mrid, series + [s], knownAt) == Join(GateAll(mrid, series, knownAt), GateSeries(mrid, s, knownAt))
  {
    assert (series + [s])[..|series|] == series;
  }

  method ApplyGate(document: Document, knownAt: int) returns (r: GateResult)
    ensures r == GateAll(document.mrid, document.series, knownAt)
  {
    r := NOTHING;
    for i := 0 to |document.series|
      invariant r == GateAll(document.mrid, document.series[..i], knownAt)
    {
      assert document.series[..i + 1] == document.series[..i] + [document.series[i]];
      GateAllSnoc(document.mrid, document.series[..i], document.series[i], knownAt);
      r := ApplySeries(document.mrid, document.series[i], knownAt, r);
    }
    assert document.series[..|document.series|] == document.series;
  }

  /** The settlement period an output speaks of: a violation keeps the whole candidate. */
  function ViolationTimes(violations: seq<Violation>): seq<int> {
    if violations == [] then []
    else
      var v := violations[|violations| - 1];
      ViolationTimes(violations[..|violations| - 1]) + if v.Contract? then [v.candidate.key.validTime] else []
  }

  function RecordTimes(records: seq<Row>): seq<int> { Map(records, (r: Row) => r.key.validTime) }

  function GapTimes(gaps: seq<Gap>): seq<int> { Map(gaps, (g: Gap) => g.validTime) }

  function Occurs(times: seq<int>, t: int): nat { multiset(times)[t] }

  /** How many records, violations and gaps speak of an instant. */
  function Accounted(r: GateResult, t: int): nat {
    Occurs(RecordTimes(r.records), t) + Occurs(ViolationTimes(r.violations), t) + Occurs(GapTimes(r.gaps), t)
  }

  lemma {:induction false} ViolationTimesConcat(a: seq<Violation>, b: seq<Violation>)
    ensures ViolationTimes(a + b) == ViolationTimes(a) + ViolationTimes(b)
  {
    if b == [] {
      assert a + b == a;
    } else {
      assert (a + b)[..|a + b| - 1] == a + b[..|b| - 1];
      ViolationTimesConcat(a, b[..|b| - 1]);
    }
  }

  lemma AccountedJoin(a: GateResult, b: GateResult, t: int)
    ensures Accounted(Join(a, b), t) == Accounted(a, t) + Accounted(b, t)
  {
    ViolationTimesConcat(a.violations, b.violations);
    MapConcat(a.records, b.records, (r: Row) => r.key.validTime);
    MapConcat(a.gaps, b.gaps, (g: Gap) => g.validTime);
  }

  lemma AccountedBuilt(c: Candidate, t: int)
    ensures Accounted(Built(c), t) == if t == c.key.validTime then 1 else 0
  {
    match BuildRecord(c) {
      case Ok(row) => assert RecordTimes([row]) == [c.key.validTime];
      case Err(v) => assert [v][..0] == [] && ViolationTimes([v]) == [c.key.validTime];
    }
  }

  lemma AccountedGap(g: Gap, t: int)
    ensures Accounted(GateResult([], [], [g]), t) == if t == g.validTime then 1 else 0
  {
    assert RecordTimes([]) == [] && GapTimes([g]) == [g.validTime];
  }

  /** A measure that adds over Join adds over a whole run of elements. */
  lemma {:induction false} FoldAdds<T(!new)>(
      xs: seq<T>, outcome: T -> GateResult, measure: GateResult -> int, each: T -> int)
    requires measure(NOTHING) == 0
    requires forall a, b :: measure(Join(a, b)) == measure(a) + measure(b)
    requires forall x :: measure(outcome(x)) == each(x)
    ensures measure(Fold(xs, outcome)) == SumSeq(xs, each)
  {
    if xs == [] {
    } else {
      FoldAdds(xs[..|xs| - 1], outcome, measure, each);
    }
  }

  lemma {:induction false} OccursIsSum<T>(xs: seq<T>, time: T -> int, t: int, each: T -> int)
    requires forall x :: each(x) == if t == time(x) then 1 else 0
    ensures SumSeq(xs, each) == Occurs(Map(xs, time), t)
  {
    if xs == [] {
      assert Map(xs, time) == [];
    } else {
      OccursIsSum(xs[..|xs| - 1], time, t, each);
      assert Map(xs, time) == Map(xs[..|xs| - 1], time) + [time(xs[|xs| - 1])];
    }
  }

  lemma FoldAccounted<T(!new)>(xs: seq<T>, outcome: T -> GateResult, time: T -> int, t: int)
    requires forall x :: Accounted(outcome(x), t) == if t == time(x) then 1 else 0
    ensures Accounted(Fold(xs, outcome), t) == Occurs(Map(xs, time), t)
  {
    var each := x => if t == time(x) then 1 else 0;
    forall a, b ensures Accounted(Join(a, b), t) == Accounted(a, t) + Accounted(b, t) {
      AccountedJoin(a, b, t);
    }
    assert RecordTimes([]) == [] && GapTimes([]) == [];
    FoldAdds(xs, outcome, r => Accounted(r, t), each);
    OccursIsSum(xs, time, t, each);
  }

  lemma ObservationsAccounted(mrid: string, s: Series, observations: seq<Observation>, knownAt: int, t: int)
    ensures Accounted(GateObservations(mrid, s, observations, knownAt), t) == Occurs(Times(observations), t)
  {
    var outcome := o => Built(CandidateOf(mrid, s, o, knownAt));
    forall o ensures Accounted(outcome(o), t) == if t == o.validTime then 1 else 0 {
      AccountedBuilt(CandidateOf(mrid, s, o, knownAt), t);
    }
    FoldAccounted(observations, outcome, (o: Observation) => o.validTime, t);
  }

  lemma GapsAccounted(s: Series, t: int)
    ensures Accounted(GateResult([], [], GapsOf(s, s.missing)), t) == Occurs(Slots(s.start, s.resolution, s.missing), t)
  {
    assert GapTimes(GapsOf(s, s.missing)) == Slots(s.start, s.resolution, s.missing);
    assert RecordTimes([]) == [];
  }

  /** The instants a series publishes for. */
  function SeriesGrid(s: Series): seq<int> { Grid(s.start, s.resolution, |s.observations| + |s.missing|) }

  lemma OccursOnce(s: seq<int>, t: int)
    requires Distinct(s)
    ensures Occurs(s, t) == if t in s then 1 else 0
  {
    BagOfDistinct(s);
  }

  lemma SeriesOutputs(mrid: string, s: Series, knownAt: int, t: int)
    requires OddSeconds(s.resolution) == 0
    ensures Accounted(GateSeries(mrid, s, knownAt), t)
            == Occurs(Times(s.observations), t) + Occurs(Slots(s.start, s.resolution, s.missing), t)
  {
    ObservationsAccounted(mrid, s, s.observations, knownAt, t);
    GapsAccounted(s, t);
    AccountedJoin(GateObservations(mrid, s, s.observations, knownAt), GateResult([], [], GapsOf(s, s.missing)), t);
  }

  lemma GridOccurs(start: int, resolution: int, n: nat, t: int)
    requires resolution > 0
    ensures Occurs(Grid(start, resolution, n), t) == if t in Grid(start, resolution, n) then 1 else 0
  {
    GridInside(start, resolution, n);
    OccursOnce(Grid(start, resolution, n), t);
  }

  /** Every position of a parsed series leaves the gate as exactly one record, violation or gap; nothing else does. */
  lemma SeriesAccounted(mrid: string, s: Series, knownAt: int, t: int)
    requires WellParsed(s)
    ensures Accounted(GateSeries(mrid, s, knownAt), t) == if t in SeriesGrid(s) then 1 else 0
  {
    WholeMinuteResolution(s.resolution);
    SeriesOutputs(mrid, s, knownAt, t);
    GridPublished(s, t);
  }

  lemma GridPublished(s: Series, t: int)
    requires WellParsed(s)
    ensures Occurs(Times(s.observations), t) + Occurs(Slots(s.start, s.resolution, s.missing), t)
            == if t in SeriesGrid(s) then 1 else 0
  {
    CoversOccurs(s, |s.observations| + |s.missing|, t);
    GridOccurs(s.start, s.resolution, |s.observations| + |s.missing|, t);
  }

  lemma CoversOccurs(s: Series, n: nat, t: int)
    requires CoversGrid(s, n)
    ensures Occurs(Times(s.observations), t) + Occurs(Slots(s.start, s.resolution, s.missing), t)
            == Occurs(Grid(s.start, s.resolution, n), t)
  {
  }

  /** The parser only reads days, hours and minutes, so the gate's sub-minute branch is for other callers. */
  lemma WholeMinuteResolution(resolution: int)
    requires resolution % MINUTE == 0
    ensures OddSeconds(resolution) == 0 && WholeMinutes(resolution) * MINUTE == resolution
  {
    assert resolution == resolution / MINUTE * MINUTE;
    assert resolution / SECOND == resolution / MINUTE * 60;
  }

  /** How many series of a document publish for an instant. */
  function Publishing(series: seq<Series>, t: int): nat {
    if series == [] then 0
    else Publishing(series[..|series| - 1], t) + if t in SeriesGrid(series[|series| - 1]) then 1 else 0
  }

  /** Position accounting over a whole document: at every instant, as many outputs as series that publish for it. */
  lemma {:induction false} DocumentAccounted(mrid: string, series: seq<Series>, knownAt: int, t: int)
    requires forall s :: s in series ==> WellParsed(s)
    ensures Accounted(GateAll(mrid, series, knownAt), t) == Publishing(series, t)
  {
    if series == [] {
      assert RecordTimes([]) == [] && GapTimes([]) == [];
    } else {
      var init, s := series[..|series| - 1], series[|series| - 1];
      DocumentAccounted(mrid, init, knownAt, t);
      SeriesAccounted(mrid, s, knownAt, t);
      AccountedJoin(GateAll(mrid, init, knownAt), GateSeries(mrid, s, knownAt), t);
    }
  }

  /** Every missing position is one gap, of the series' own flow, at its own instant. */
  lemma GapsExact(mrid: string, s: Series, knownAt: int)
    requires s.resolution % MINUTE == 0
    ensures var gaps := GateSeries(mrid, s, knownAt).gaps;
            && |gaps| == |s.missing|
            && forall i :: 0 <= i < |gaps| ==>
                 && gaps[i].zone == s.zone && gaps[i].productionType == s.productionType
                 && gaps[i].direction == s.direction && gaps[i].position == s.missing[i]
                 && gaps[i].validTime == s.start + (s.missing[i] - 1) * s.resolution
  {
    GapsOfMissing(mrid, s, knownAt);
  }

  lemma GapsOfMissing(mrid: string, s: Series, knownAt: int)
    requires s.resolution % MINUTE == 0
    ensures GateSeries(mrid, s, knownAt).gaps == GapsOf(s, s.missing)
  {
    WholeMinuteResolution(s.resolution);
    NoGapsObserved(mrid, s, s.observations, knownAt);
  }

  lemma {:induction false} NoGapsObserved(mrid: string, s: Series, observations: seq<Observation>, knownAt: int)
    ensures GateObservations(mrid, s, observations, knownAt).gaps == []
  {
    if observations == [] {
    } else {
      NoGapsObserved(mrid, s, observations[..|observations| - 1], knownAt);
    }
  }

  /** A row that says what a point of a series said: same series, instant and quantity, in megawatts. */
  predicate RecordsPoint(r: Row, mrid: string, s: Series, o: Observation, knownAt: int) {
    && r.key == Key(Entsoe, s.zone, s.productionType, s.direction, o.validTime)
    && o.quantity.scale <= MAX_SCALE && r.value == Value(Thousandths(o.quantity), None)
    && r.knownAt == knownAt && r.documentId == Some(mrid) && r.unit == "MW" && (s.unit == "MW" || s.unit == "MAW")
    && r.resolutionMinutes == WholeMinutes(s.resolution)
  }

  /** What every accepted row satisfies. */
  ghost predicate InContract(r: Row) {
    && r.key.zone in ZONES && r.key.productionType in PRODUCTION_TYPES && r.unit == "MW"
    && 1 <= r.resolutionMinutes <= 1440 && OnBoundary(r.key.validTime, r.resolutionMinutes)
    && 0 <= r.value.quantity <= 150_000_000 && r.key.validTime <= r.knownAt
  }

  lemma BuiltInContract(c: Candidate)
    ensures forall r :: r in Built(c).records ==> InContract(r)
  {
    ContractExact(c);
  }

  /**
   * Everything that reaches bronze from one fetch records a published point of it, at that fetch's known_at,
   * and meets the contract.
   */
  lemma {:induction false} AcceptedRows(mrid: string, series: seq<Series>, knownAt: int)
    ensures forall r :: r in GateAll(mrid, series, knownAt).records ==>
              InContract(r) && exists s, o :: s in series && o in s.observations && RecordsPoint(r, mrid, s, o, knownAt)
  {
    if series == [] {
    } else {
      var init, s := series[..|series| - 1], series[|series| - 1];
      AcceptedRows(mrid, init, knownAt);
      AcceptedObservations(mrid, s, s.observations, knownAt);
      assert series == init + [s];
    }
  }

  lemma {:induction false} AcceptedObservations(mrid: string, s: Series, observations: seq<Observation>, knownAt: int)
    ensures forall r :: r in GateObservations(mrid, s, observations, knownAt).records ==>
              InContract(r) && exists o :: o in observations && RecordsPoint(r, mrid, s, o, knownAt)
  {
    if observations == [] {
    } else {
      var init, o := observations[..|observations| - 1], observations[|observations| - 1];
      AcceptedObservations(mrid, s, init, knownAt);
      BuiltRecord(mrid, s, o, knownAt);
      BuiltInContract(CandidateOf(mrid, s, o, knownAt));
      forall r | r in GateObservations(mrid, s, observations, knownAt).records
        ensures InContract(r) && exists x :: x in observations && RecordsPoint(r, mrid, s, x, knownAt)
      {
        if r in GateObservations(mrid, s, init, knownAt).records {
          var x :| x in init && RecordsPoint(r, mrid, s, x, knownAt);
          assert x in observations;
        } else {
          assert r in Built(CandidateOf(mrid, s, o, knownAt)).records && o in observations;
        }
      }
    }
  }

  lemma BuiltRecord(mrid: string, s: Series, o: Observation, knownAt: int)
    ensures forall r :: r in Built(CandidateOf(mrid, s, o, knownAt)).records ==> RecordsPoint(r, mrid, s, o, knownAt)
  {
  }

  /** A violation that keeps the whole of a point the contract refuses. */
  predicate KeepsPoint(v: Violation, mrid: string, s: Series, o: Observation, knownAt: int) {
    && v.Contract? && BuildRecord(v.candidate).Err?
    && v.candidate.key == Key(Entsoe, s.zone, s.productionType, s.direction, o.validTime)
    && v.candidate.quantity == o.quantity && v.candidate.knownAt == knownAt && v.candidate.documentId == Some(mrid)
    && v.candidate.unit == (if s.unit == "MAW" then "MW" else s.unit)
    && v.candidate.resolutionMinutes * MINUTE <= s.resolution < (v.candidate.resolutionMinutes + 1) * MINUTE
  }

  lemma {:induction false} ObservationsRefused(mrid: string, s: Series, observations: seq<Observation>, knownAt: int)
    ensures forall v :: v in GateObservations(mrid, s, observations, knownAt).violations ==>
              exists o :: o in observations && KeepsPoint(v, mrid, s, o, knownAt)
  {
    if observations == [] {
    } else {
      var init, o := observations[..|observations| - 1], observations[|observations| - 1];
      ObservationsRefused(mrid, s, init, knownAt);
      PointRefused(mrid, s, o, knownAt);
      forall v | v in GateObservations(mrid, s, observations, knownAt).violations
        ensures exists x :: x in observations && KeepsPoint(v, mrid, s, x, knownAt)
      {
        if v in GateObservations(mrid, s, init, knownAt).violations {
          var x :| x in init && KeepsPoint(v, mrid, s, x, knownAt);
          assert x in observations;
        } else {
          assert v in Built(CandidateOf(mrid, s, o, knownAt)).violations && o in observations;
        }
      }
    }
  }

  lemma PointRefused(mrid: string, s: Series, o: Observation, knownAt: int)
    ensures forall v :: v in Built(CandidateOf(mrid, s, o, knownAt)).violations ==> KeepsPoint(v, mrid, s, o, knownAt)
  {
    assert WholeMinutes(s.resolution) == s.resolution / MINUTE;
  }

  /** Nothing is quarantined without its evidence: every violation keeps the whole of a refused point. */
  lemma {:induction false} RefusedPoints(mrid: string, series: seq<Series>, knownAt: int)
    requires forall s :: s in series ==> s.resolution % MINUTE == 0
    ensures forall v :: v in GateAll(mrid, series, knownAt).violations ==>
              exists s, o :: s in series && o in s.observations && KeepsPoint(v, mrid, s, o, knownAt)
  {
    if series == [] {
    } else {
      var init, s := series[..|series| - 1], series[|series| - 1];
      RefusedPoints(mrid, init, knownAt);
      ObservationsRefused(mrid, s, s.observations, knownAt);
      WholeMinuteResolution(s.resolution);
      assert series == init + [s];
    }
  }

  /** At a resolution that is not whole minutes, to the second, nothing is accepted: one violation says so. */
  lemma SubMinuteRefused(mrid: string, s: Series, knownAt: int)
    requires s.resolution % MINUTE >= SECOND
    ensures GateSeries(mrid, s, knownAt) == GateResult([], [SubMinuteResolution(s.start, |s.observations|)], [])
  {
    var m, r := s.resolution / MINUTE, s.resolution % MINUTE;
    assert s.resolution == m * MINUTE + r;
    assert s.resolution / SECOND == 60 * m + r / SECOND;
  }

  lemma TimePublished(s: Series, t: int)
    requires WellParsed(s) && t in Times(s.observations)
    ensures t in SeriesGrid(s)
  {
    GridPublished(s, t);
    assert Occurs(Times(s.observations), t) > 0;
  }

  lemma ObservationInside(s: Series, o: Observation)
    requires WellParsed(s) && o in s.observations
    ensures s.start <= o.validTime < s.end
  {
    MapMember(s.observations, (o: Observation) => o.validTime, o.validTime);
    TimePublished(s, o.validTime);
    GridInside(s.start, s.resolution, |s.observations| + |s.missing|);
  }

  /** Series that publish inside a window put no accepted row outside it. */
  lemma AcceptedInside(mrid: string, series: seq<Series>, knownAt: int, w: Interval)
    requires forall s :: s in series ==> WellParsed(s) && w.start <= s.start && s.end <= w.end
    ensures forall r :: r in GateAll(mrid, series, knownAt).records ==> w.Holds(r.key.validTime)
  {
    AcceptedRows(mrid, series, knownAt);
    forall r | r in GateAll(mrid, series, knownAt).records ensures w.Holds(r.key.validTime) {
      var s, o :| s in series && o in s.observations && RecordsPoint(r, mrid, s, o, knownAt);
      ObservationInside(s, o);
    }
  }

  predicate SameFlow(a: Series, b: Series) {
    a.zone == b.zone && a.productionType == b.productionType && a.direction == b.direction
  }

  /** No two series of one flow share an instant: each Period starts where or after another ends. */
  predicate NoOverlap(series: seq<Series>) {
    forall i, j :: 0 <= i < j < |series| && SameFlow(series[i], series[j])
                   ==> series[i].end <= series[j].start || series[j].end <= series[i].start
  }

  predicate DistinctKeys(rows: seq<Row>) {
    forall i, j :: 0 <= i < j < |rows| ==> rows[i].key != rows[j].key
  }

  lemma DistinctKeysConcat(a: seq<Row>, b: seq<Row>)
    requires DistinctKeys(a) && DistinctKeys(b)
    requires forall x, y :: x in a && y in b ==> x.key != y.key
    ensures DistinctKeys(a + b)
  {
  }

  lemma {:induction false} ObservationsDistinct(mrid: string, s: Series, observations: seq<Observation>, knownAt: int)
    requires forall i, j :: 0 <= i < j < |observations| ==> observations[i].validTime < observations[j].validTime
    ensures DistinctKeys(GateObservations(mrid, s, observations, knownAt).records)
  {
    if observations == [] {
    } else {
      var init, o := observations[..|observations| - 1], observations[|observations| - 1];
      ObservationsDistinct(mrid, s, init, knownAt);
      AcceptedObservations(mrid, s, init, knownAt);
      BuiltRecord(mrid, s, o, knownAt);
      var before := GateObservations(mrid, s, init, knownAt).records;
      var last := Built(CandidateOf(mrid, s, o, knownAt)).records;
      forall x, y | x in before && y in last ensures x.key != y.key {
        var p :| p in init && RecordsPoint(x, mrid, s, p, knownAt);
        assert RecordsPoint(y, mrid, s, o, knownAt);
      }
      DistinctKeysConcat(before, last);
    }
  }

  lemma RowsApart(mrid: string, a: Series, b: Series, knownAt: int, x: Row, y: Row, p: Observation, q: Observation)
    requires WellParsed(a) && WellParsed(b) && (SameFlow(a, b) ==> a.end <= b.start || b.end <= a.start)
    requires p in a.observations && RecordsPoint(x, mrid, a, p, knownAt)
    requires q in b.observations && RecordsPoint(y, mrid, b, q, knownAt)
    ensures x.key != y.key
  {
    ObservationInside(a, p);
    ObservationInside(b, q);
  }

  lemma PointApart(
      mrid: string, init: seq<Series>, last: Series, knownAt: int, x: Row, y: Row,
      s: Series, p: Observation, q: Observation)
    requires NoOverlap(init + [last]) && WellParsed(last) && WellParsed(s) && s in init
    requires p in s.observations && RecordsPoint(x, mrid, s, p, knownAt)
    requires q in last.observations && RecordsPoint(y, mrid, last, q, knownAt)
    ensures x.key != y.key
  {
    var i :| 0 <= i < |init| && init[i] == s;
    assert (init + [last])[i] == s && (init + [last])[|init|] == last;
    RowsApart(mrid, s, last, knownAt, x, y, p, q);
  }

  lemma SeriesApart(mrid: string, init: seq<Series>, last: Series, knownAt: int, x: Row, y: Row)
    requires NoOverlap(init + [last]) && WellParsed(last) && forall s :: s in init ==> WellParsed(s)
    requires x in GateAll(mrid, init, knownAt).records && y in GateSeries(mrid, last, knownAt).records
    ensures x.key != y.key
  {
    AcceptedRows(mrid, init, knownAt);
    AcceptedObservations(mrid, last, last.observations, knownAt);
    var s, p :| s in init && p in s.observations && RecordsPoint(x, mrid, s, p, knownAt);
    var q :| q in last.observations && RecordsPoint(y, mrid, last, q, knownAt);
    PointApart(mrid, init, last, knownAt, x, y, s, p, q);
  }

  lemma LastDistinct(mrid: string, s: Series, knownAt: int)
    requires WellParsed(s)
    ensures DistinctKeys(GateSeries(mrid, s, knownAt).records)
  {
    assert Ascending(s);
    ObservationsDistinct(mrid, s, s.observations, knownAt);
  }

  lemma OneMoreSeries(mrid: string, init: seq<Series>, last: Series, knownAt: int)
    requires NoOverlap(init + [last]) && WellParsed(last) && forall s :: s in init ==> WellParsed(s)
    requires DistinctKeys(GateAll(mrid, init, knownAt).records)
    ensures DistinctKeys(GateAll(mrid, init + [last], knownAt).records)
  {
    var before, more := GateAll(mrid, init, knownAt).records, GateSeries(mrid, last, knownAt).records;
    GateAllSnoc(mrid, init, last, knownAt);
    LastDistinct(mrid, last, knownAt);
    forall x, y | x in before && y in more ensures x.key != y.key {
      SeriesApart(mrid, init, last, knownAt, x, y);
    }
    DistinctKeysConcat(before, more);
  }

  /** A document whose Periods do not overlap yields at most one row per series and period. */
  lemma {:induction false} AcceptedDistinct(mrid: string, series: seq<Series>, knownAt: int)
    requires NoOverlap(series) && forall s :: s in series ==> WellParsed(s)
    ensures DistinctKeys(GateAll(mrid, series, knownAt).records)
  {
    if series == [] {
    } else {
      var init, last := series[..|series| - 1], series[|series| - 1];
      AcceptedDistinct(mrid, init, knownAt);
      assert series == init + [last];
      OneMoreSeries(mrid, init, last, knownAt);
    }
  }

  /** A series the contract has nothing against. */
  ghost predicate Publishable(s: Series, knownAt: int) {
    && s.zone in ZONES && s.productionType in PRODUCTION_TYPES && (s.unit == "MAW" || s.unit == "MW")
    && s.resolution > 0 && DAY % s.resolution == 0 && s.start % s.resolution == 0 && s.end <= knownAt
    && forall o :: o in s.observations ==> o.quantity.scale <= 3 && 0 <= Thousandths(o.quantity) <= 150_000_000
  }

  lemma WholeSum(each: int, a: int, b: int, total: int)
    requires WholeNumberOf(each, a) && WholeNumberOf(each, b) && total == a - b
    ensures WholeNumberOf(each, total)
  {
    var m :| Multiple(m, each, a);
    var n :| Multiple(n, each, b);
    assert (m - n) * each == m * each - n * each;
    assert Multiple(m - n, each, total);
  }

  lemma WholeTimes(each: int, a: int, n: int)
    requires WholeNumberOf(each, a)
    ensures WholeNumberOf(each, n * a)
  {
    var m :| Multiple(m, each, a);
    assert (n * m) * each == n * (m * each);
    assert Multiple(n * m, each, n * a);
  }

  lemma Divides(each: int, total: int)
    requires each > 0 && total % each == 0
    ensures WholeNumberOf(each, total)
  {
    assert Multiple(total / each, each, total);
  }

  /** Whole periods after a start on the boundary are on the boundary. */
  lemma SlotOnBoundary(start: int, resolution: int, i: int, at: int)
    requires resolution > 0 && DAY % resolution == 0 && start % resolution == 0 && at == start + i * resolution
    ensures WholeNumberOf(resolution, at - at / DAY * DAY)
  {
    Divides(resolution, start);
    Divides(resolution, DAY);
    WholeTimes(resolution, DAY, at / DAY);
    assert Multiple(-i, resolution, -i * resolution);
    WholeSum(resolution, start, -i * resolution, at);
    WholeSum(resolution, at, at / DAY * DAY, at - at / DAY * DAY);
  }

  lemma PointAccepted(mrid: string, s: Series, knownAt: int, o: Observation)
    requires WellParsed(s) && Publishable(s, knownAt) && o in s.observations
    ensures BuildRecord(CandidateOf(mrid, s, o, knownAt)).Ok?
  {
    var c := CandidateOf(mrid, s, o, knownAt);
    WholeMinuteResolution(s.resolution);
    ResolutionOfDay(s.resolution);
    ObservationInside(s, o);
    var i := ObservationSlot(s, o);
    SlotOnBoundary(s.start, s.resolution, i, o.validTime);
    ContractExact(c);
  }

  lemma ResolutionOfDay(resolution: int)
    requires resolution > 0 && resolution % MINUTE == 0 && DAY % resolution == 0
    ensures 1 <= WholeMinutes(resolution) <= 1440
  {
    var n := DAY / resolution;
    WholeMinuteResolution(resolution);
    assert n * resolution == DAY;
    MultiplesInOrder(0, n, resolution);
    MultiplesInOrder(n, 1, resolution);
  }

  lemma ObservationSlot(s: Series, o: Observation) returns (i: int)
    requires WellParsed(s) && o in s.observations
    ensures o.validTime == s.start + i * s.resolution
  {
    var n := |s.observations| + |s.missing|;
    MapMember(s.observations, (o: Observation) => o.validTime, o.validTime);
    TimePublished(s, o.validTime);
    GridInside(s.start, s.resolution, n);
    i :| 0 <= i < n && SeriesGrid(s)[i] == o.validTime;
  }

  lemma {:induction false} PointsAccepted(mrid: string, s: Series, observations: seq<Observation>, knownAt: int)
    requires forall o :: o in observations ==> BuildRecord(CandidateOf(mrid, s, o, knownAt)).Ok?
    ensures var g := GateObservations(mrid, s, observations, knownAt);
            && g.violations == [] && |g.records| == |observations|
            && forall i :: 0 <= i < |observations| ==> RecordsPoint(g.records[i], mrid, s, observations[i], knownAt)
  {
    if observations == [] {
    } else {
      var init, o := observations[..|observations| - 1], observations[|observations| - 1];
      PointsAccepted(mrid, s, init, knownAt);
      BuiltRecord(mrid, s, o, knownAt);
      var row := BuildRecord(CandidateOf(mrid, s, o, knownAt)).value;
      assert row in Built(CandidateOf(mrid, s, o, knownAt)).records;
    }
  }

  /** Nothing good is turned away: each point of a publishable series becomes its own record, in order. */
  lemma SeriesComplete(mrid: string, s: Series, knownAt: int)
    requires WellParsed(s) && Publishable(s, knownAt)
    ensures var g := GateSeries(mrid, s, knownAt);
            && g.violations == [] && |g.records| == |s.observations|
            && forall i :: 0 <= i < |s.observations| ==> RecordsPoint(g.records[i], mrid, s, s.observations[i], knownAt)
  {
    WholeMinuteResolution(s.resolution);
    forall o | o in s.observations ensures BuildRecord(CandidateOf(mrid, s, o, knownAt)).Ok? {
      PointAccepted(mrid, s, knownAt, o);
    }
    PointsAccepted(mrid, s, s.observations, knownAt);
  }

  function PointCount(s: Series): int { |s.observations| }

  /** Every point of the series has its record among the rows. */
  ghost predicate AllRecorded(rows: seq<Row>, mrid: string, series: seq<Series>, knownAt: int) {
    forall s, o :: s in series && o in s.observations ==> Recorded(rows, mrid, s, o, knownAt)
  }

  ghost predicate Recorded(rows: seq<Row>, mrid: string, s: Series, o: Observation, knownAt: int) {
    exists r :: r in rows && RecordsPoint(r, mrid, s, o, knownAt)
  }

  lemma RecordedFurther(before: seq<Row>, more: seq<Row>, mrid: string, s: Series, o: Observation, knownAt: int)
    requires Recorded(before, mrid, s, o, knownAt) || Recorded(more, mrid, s, o, knownAt)
    ensures Recorded(before + more, mrid, s, o, knownAt)
  {
    var r :| (r in before || r in more) && RecordsPoint(r, mrid, s, o, knownAt);
    assert r in before + more;
  }

  lemma AllRecordedSnoc(
      before: seq<Row>, more: seq<Row>, mrid: string, series: seq<Series>, last: Series, knownAt: int)
    requires AllRecorded(before, mrid, series, knownAt)
    requires forall o :: o in last.observations ==> Recorded(more, mrid, last, o, knownAt)
    ensures AllRecorded(before + more, mrid, series + [last], knownAt)
  {
    forall s, o | s in series + [last] && o in s.observations ensures Recorded(before + more, mrid, s, o, knownAt) {
      RecordedFurther(before, more, mrid, s, o, knownAt);
    }
  }

  /** No violations, as many records as points, and every point has its record. */
  ghost predicate Answered(g: GateResult, mrid: string, series: seq<Series>, knownAt: int) {
    g.violations == [] && |g.records| == SumSeq(series, PointCount) && AllRecorded(g.records, mrid, series, knownAt)
  }

  /** So it is over a document of publishable series. */
  lemma {:induction false} DocumentComplete(mrid: string, series: seq<Series>, knownAt: int)
    requires forall s :: s in series ==> WellParsed(s) && Publishable(s, knownAt)
    ensures Answered(GateAll(mrid, series, knownAt), mrid, series, knownAt)
  {
    if series == [] {
    } else {
      var init, last := series[..|series| - 1], series[|series| - 1];
      DocumentComplete(mrid, init, knownAt);
      CompleteSnoc(mrid, init, last, knownAt);
      assert init + [last] == series;
    }
  }

  lemma CompleteSnoc(mrid: string, init: seq<Series>, last: Series, knownAt: int)
    requires Answered(GateAll(mrid, init, knownAt), mrid, init, knownAt)
    requires WellParsed(last) && Publishable(last, knownAt)
    ensures Answered(GateAll(mrid, init + [last], knownAt), mrid, init + [last], knownAt)
  {
    SeriesRecorded(mrid, last, knownAt);
    var before, more := GateAll(mrid, init, knownAt), GateSeries(mrid, last, knownAt);
    GateAllSnoc(mrid, init, last, knownAt);
    assert (init + [last])[..|init|] == init;
    AllRecordedSnoc(before.records, more.records, mrid, init, last, knownAt);
  }

  lemma SeriesRecorded(mrid: string, s: Series, knownAt: int)
    requires WellParsed(s) && Publishable(s, knownAt)
    ensures GateSeries(mrid, s, knownAt).violations == []
    ensures |GateSeries(mrid, s, knownAt).records| == |s.observations|
    ensures forall o :: o in s.observations ==> Recorded(GateSeries(mrid, s, knownAt).records, mrid, s, o, knownAt)
  {
    SeriesComplete(mrid, s, knownAt);
    forall o | o in s.observations ensures Recorded(GateSeries(mrid, s, knownAt).records, mrid, s, o, knownAt) {
      var i :| 0 <= i < |s.observations| && s.observations[i] == o;
      assert RecordsPoint(GateSeries(mrid, s, knownAt).records[i], mrid, s, o, knownAt);
    }
  }
}
