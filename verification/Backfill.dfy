/** Re-fetching a range of settlement days, one merge a day, with crashes and reruns. */
module Backfill {
  import opened Prelude
  import opened TimeAxis
  import opened Calendar
  import opened Records
  import opened Bronze
  import opened EntsoeParse
  import opened Gate

  const MAX_DAYS: int := 31

  /** What the source says when asked for one settlement day: nothing, a failure or bad document, or a document. */
  datatype Answer = NoData | Fault | Published(document: Document)

  /** The rows of an answer that pass the gate. */
  function Accepted(answer: Answer, knownAt: int): seq<Row> {
    match answer
    case Published(document) => GateAll(document.mrid, document.series, knownAt).records
    case NoData => []
    case Fault => []
  }

  function DayWindow(z: Zone, day: int): Interval { Interval(DayStart(z, day), DayStart(z, day + 1)) }

  function DayMerge(z: Zone, bronze: seq<Row>, day: int, answers: int -> Answer, knownAt: int): seq<Row> {
    Merge(bronze, Accepted(answers(day), knownAt), DayWindow(z, day))
  }

  /** One step for each day from `first` up to but not including `last`. */
  function Iterate<S>(s: S, first: int, last: int, step: (S, int) -> S): S
    requires first <= last
    decreases last - first
  {
    if first == last then s else step(Iterate(s, first, last - 1, step), last - 1)
  }

  /** Bronze after those days, each merged in its own window. */
  function RunDays(z: Zone, bronze: seq<Row>, first: int, last: int, answers: int -> Answer, knownAt: int): seq<Row>
    requires first <= last
  {
    Iterate(bronze, first, last, DayStep(z, answers, knownAt))
  }

  function DayStep(z: Zone, answers: int -> Answer, knownAt: int): (seq<Row>, int) -> seq<Row> {
    (b, day) => DayMerge(z, b, day, answers, knownAt)
  }

  /** A parsed document, all of whose series publish inside a window. */
  predicate PublishedIn(answer: Answer, w: Interval) {
    answer.Published? ==>
      forall s :: s in answer.document.series ==> WellParsed(s) && w.start <= s.start && s.end <= w.end
  }

  /** Every row accepted from a day's answer is of that day. */
  predicate Placed(z: Zone, answers: int -> Answer, knownAt: int, first: int, last: int) {
    forall day :: first <= day < last ==> InWindow(Accepted(answers(day), knownAt), DayWindow(z, day))
  }

  lemma PlacedRows(answer: Answer, knownAt: int, w: Interval)
    requires PublishedIn(answer, w)
    ensures InWindow(Accepted(answer, knownAt), w)
  {
    if answer.Published? {
      AcceptedInside(answer.document.mrid, answer.document.series, knownAt, w);
    }
  }

  /** So it is when every document publishes inside the day it was asked for. */
  lemma PublishedDaysPlaced(z: Zone, answers: int -> Answer, knownAt: int, first: int, last: int)
    requires forall day :: first <= day < last ==> PublishedIn(answers(day), DayWindow(z, day))
    ensures Placed(z, answers, knownAt, first, last)
  {
    forall day | first <= day < last ensures InWindow(Accepted(answers(day), knownAt), DayWindow(z, day)) {
      PlacedRows(answers(day), knownAt, DayWindow(z, day));
    }
  }

  /** A document whose Periods do not overlap is staged as one batch. */
  lemma AcceptedIsBatch(answer: Answer, knownAt: int)
    requires answer.Published? ==>
               NoOverlap(answer.document.series) && forall s :: s in answer.document.series ==> WellParsed(s)
    ensures IsBatch(Accepted(answer, knownAt), knownAt)
  {
    AcceptedKnownAt(answer, knownAt);
    if answer.Published? {
      AcceptedDistinct(answer.document.mrid, answer.document.series, knownAt);
    }
  }

  lemma AcceptedKnownAt(answer: Answer, knownAt: int)
    ensures forall r :: r in Accepted(answer, knownAt) ==> r.knownAt == knownAt
  {
    if answer.Published? {
      AcceptedRows(answer.document.mrid, answer.document.series, knownAt);
    }
  }

  /** A Period of one hour from the epoch, with its one position given. */
  function HourPeriod(quantity: Decimal): seq<PeriodChild> {
    [Resolution(0, 1, 0), TimeInterval([Start(Stamp(0, Some(0))), End(Stamp(HOUR, Some(0)))]),
     Point(Some(1), Some(quantity))]
  }

  function HourSeries(quantity: Decimal): Series {
    Series("10YFR-RTE------C", "B14", Generation, "MAW", HOUR, 0, HOUR, [Observation(0, 1, quantity)], [])
  }

  lemma HourScanned(quantity: Decimal)
    ensures Readable(HourPeriod(quantity))
    ensures ScanOf(HourPeriod(quantity)) == Scan(Some(HOUR), Some(0), Some(HOUR), map[1 := quantity])
  {
    var c, bounds := HourPeriod(quantity), [Start(Stamp(0, Some(0))), End(Stamp(HOUR, Some(0)))];
    assert c[..2][..1][..0] == [] && c[..2][..1] == [c[0]] && c[..2] == [c[0], c[1]];
    assert bounds[..1][..0] == [] && bounds[..1] == [bounds[0]];
    assert ScanOf(c[..2][..1]) == Scan(Some(HOUR), None, None, map[]);
    assert ScanBounds(Scan(Some(HOUR), None, None, map[]), bounds[..1]) == Scan(Some(HOUR), Some(0), None, map[]);
    assert ScanOf(c[..2]) == Scan(Some(HOUR), Some(0), Some(HOUR), map[]);
  }

  lemma HourParsed(quantity: Decimal)
    ensures Acceptable(HourPeriod(quantity))
    ensures PeriodSeries(HourPeriod(quantity), "10YFR-RTE------C", "B14", Generation, "MAW") == HourSeries(quantity)
  {
    HourScanned(quantity);
    var q := map[1 := quantity];
    assert Observed(q, 0, HOUR, 0) == [] && Missing(q, 0) == [];
    assert Observed(q, 0, HOUR, 1) == [Observation(0, 1, quantity)] && Missing(q, 1) == [];
  }

  lemma HourGated(quantity: Decimal, knownAt: int) returns (r: Row)
    requires quantity.scale == 0 && 0 <= quantity.coefficient <= MAX_QUANTITY_MW && knownAt >= 0
    ensures GateSeries("", HourSeries(quantity), knownAt) == GateResult([r], [], [])
    ensures r.key == Key(Entsoe, "10YFR-RTE------C", "B14", Generation, 0) && r.knownAt == knownAt
    ensures r.value == Value(1000 * quantity.coefficient, None)
  {
    var s := HourSeries(quantity);
    var o := s.observations[0];
    var c := CandidateOf("", s, o, knownAt);
    assert Pow10(0) == 1 && Pow10(1) == 10 && Pow10(2) == 100 && Pow10(3) == 1000;
    r := BuildRecord(c).value;
    FoldOfOne(o, o => Built(CandidateOf("", s, o, knownAt)));
    assert GapsOf(s, s.missing) == [];
  }

  /** A TimeSeries that gives the same hour in two Periods, with two values. */
  function HourTwice(): TimeSeries {
    TimeSeries("B14", "MAW", "10YFR-RTE------C", "", [HourPeriod(Decimal(1, 0)), HourPeriod(Decimal(2, 0))])
  }

  lemma HourTwiceParsed()
    ensures AcceptableSeries(HourTwice())
    ensures NodeSeries(HourTwice()) == [HourSeries(Decimal(1, 0)), HourSeries(Decimal(2, 0))]
  {
    HourParsed(Decimal(1, 0));
    HourParsed(Decimal(2, 0));
    assert HourTwice().inZone + HourTwice().outZone == "10YFR-RTE------C";
  }

  lemma AcceptedOfTwo(a: Series, b: Series, first: Row, second: Row, knownAt: int)
    requires GateSeries("", a, knownAt) == GateResult([first], [], [])
    requires GateSeries("", b, knownAt) == GateResult([second], [], [])
    ensures Accepted(Published(Document("", 0, 0, [a, b])), knownAt) == [first, second]
  {
    var both := [a, b];
    assert both[..|both| - 1] == [a] && [a][..0] == [];
    assert GateAll("", [a], knownAt) == GateResult([first], [], []);
    assert GateAll("", both, knownAt) == GateResult([first, second], [], []);
  }

  /**
   * Nothing stops a TimeSeries from giving an hour twice in two Periods. The parser accepts it, the gate
   * accepts both values, and the merge inserts both under one identity.
   */
  lemma OverlappingPeriodsRepeat(w: Interval, knownAt: int)
    requires w.Holds(0) && knownAt >= 0
    ensures AcceptableSeries(HourTwice())
    ensures var staged := Accepted(Published(Document("", 0, 0, NodeSeries(HourTwice()))), knownAt);
            && |staged| == 2 && InWindow(staged, w) && staged[0].value != staged[1].value
            && SameIdentity(staged[0], staged[1]) && Merge([], staged, w) == staged
  {
    HourTwiceParsed();
    var first, second := HourTwiceAccepted(knownAt);
    FirstMerge([first, second], w);
  }

  lemma HourTwiceAccepted(knownAt: int) returns (first: Row, second: Row)
    requires knownAt >= 0
    ensures var series := [HourSeries(Decimal(1, 0)), HourSeries(Decimal(2, 0))];
            Accepted(Published(Document("", 0, 0, series)), knownAt) == [first, second]
    ensures SameIdentity(first, second) && first.key.validTime == 0 && first.value != second.value
  {
    first := HourGated(Decimal(1, 0), knownAt);
    second := HourGated(Decimal(2, 0), knownAt);
    AcceptedOfTwo(HourSeries(Decimal(1, 0)), HourSeries(Decimal(2, 0)), first, second, knownAt);
  }

  /** Nor does anything refuse an answer about another day: the gate accepts it whatever window it is merged in. */
  lemma StrayAnswerAccepted(w: Interval, knownAt: int)
    requires !w.Holds(0) && knownAt >= 0
    ensures AcceptableSeries(HourTwice())
    ensures !InWindow(Accepted(Published(Document("", 0, 0, NodeSeries(HourTwice()))), knownAt), w)
  {
    HourTwiceParsed();
    var first, second := HourTwiceAccepted(knownAt);
    assert first in [first, second];
  }

  lemma FirstMerge(staged: seq<Row>, w: Interval)
    ensures Merge([], staged, w) == staged
  {
    assert Within([], w) == [];
    FilterAll(staged, s => Insertable(Within([], w), s));
  }

  lemma WindowsDisjoint(z: Zone, a: int, b: int, t: int)
    requires MidnightSafe(z) && DayWindow(z, a).Holds(t) && DayWindow(z, b).Holds(t)
    ensures a == b
  {
    SettlementDaysTile(z, a, t);
    SettlementDaysTile(z, b, t);
  }

  lemma RunDaysSnoc(z: Zone, bronze: seq<Row>, first: int, day: int, last: int, answers: int -> Answer, knownAt: int)
    requires first <= day && last == day + 1
    ensures RunDays(z, bronze, first, last, answers, knownAt)
            == DayMerge(z, RunDays(z, bronze, first, day, answers, knownAt), day, answers, knownAt)
  {
  }

  /** A day's merge adds nothing to the window of another day. */
  lemma OtherDayUnseen(z: Zone, bronze: seq<Row>, day: int, other: int, answers: int -> Answer, knownAt: int)
    requires MidnightSafe(z) && day != other && InWindow(Accepted(answers(other), knownAt), DayWindow(z, other))
    ensures Within(DayMerge(z, bronze, other, answers, knownAt), DayWindow(z, day)) == Within(bronze, DayWindow(z, day))
  {
    var added := Inserted(Within(bronze, DayWindow(z, other)), Accepted(answers(other), knownAt));
    forall r | r in added ensures !DayWindow(z, day).Holds(r.key.validTime) {
      if DayWindow(z, day).Holds(r.key.validTime) {
        WindowsDisjoint(z, day, other, r.key.validTime);
      }
    }
    MergesElsewhereUnseen(bronze, added, DayWindow(z, day));
  }

  /** Merging later days leaves an earlier day's window as it was. */
  lemma {:induction false} LaterDaysUnseen(
      z: Zone, bronze: seq<Row>, first: int, mid: int, last: int, answers: int -> Answer, knownAt: int, day: int)
    requires MidnightSafe(z) && first <= mid <= last && day < mid && Placed(z, answers, knownAt, first, last)
    ensures Within(RunDays(z, bronze, first, last, answers, knownAt), DayWindow(z, day))
            == Within(RunDays(z, bronze, first, mid, answers, knownAt), DayWindow(z, day))
    decreases last - mid
  {
    if mid == last {
    } else {
      var prev := last - 1;
      LaterDaysUnseen(z, bronze, first, mid, prev, answers, knownAt, day);
      RunDaysSnoc(z, bronze, first, prev, last, answers, knownAt);
      OtherDayUnseen(z, RunDays(z, bronze, first, prev, answers, knownAt), day, prev, answers, knownAt);
    }
  }

  /** A day already merged, seen again after any later days, adds nothing. */
  lemma DayAgain(z: Zone, bronze: seq<Row>, first: int, day: int, last: int, answers: int -> Answer, knownAt: int)
    requires MidnightSafe(z) && first <= day < last && Placed(z, answers, knownAt, first, last)
    ensures var after := RunDays(z, bronze, first, last, answers, knownAt);
            Merge(after, Accepted(answers(day), knownAt), DayWindow(z, day)) == after
  {
    var once := RunDays(z, bronze, first, day + 1, answers, knownAt);
    var before := RunDays(z, bronze, first, day, answers, knownAt);
    var staged, w := Accepted(answers(day), knownAt), DayWindow(z, day);
    assert once == DayMerge(z, before, day, answers, knownAt);
    AcceptedKnownAt(answers(day), knownAt);
    MergeIdempotent(before, staged, w, knownAt);
    assert |once + Inserted(Within(once, w), staged)| == |once|;
    assert Inserted(Within(once, w), staged) == [];
    LaterDaysUnseen(z, bronze, first, day + 1, last, answers, knownAt, day);
  }

  /** Runs of the given numbers of steps, each starting over at `first` on what the one before left. */
  function Attempts<S>(s: S, first: int, completed: seq<nat>, step: (S, int) -> S): S {
    if completed == [] then s
    else
      var last := |completed| - 1;
      Iterate(Attempts(s, first, completed[..last], step), first, first + completed[last], step)
  }

  /** No step finds anything left to do on a state that already took it, however many steps came after. */
  ghost predicate Settles<S(!new)>(s: S, first: int, last: int, step: (S, int) -> S)
    requires first <= last
  {
    forall done, day :: first <= day < done <= last
                        ==> step(Iterate(s, first, done, step), day) == Iterate(s, first, done, step)
  }

  lemma {:induction false} Reiterate<S(!new)>(s: S, first: int, done: int, again: int, last: int, step: (S, int) -> S)
    requires first <= done <= last && first <= again <= last && Settles(s, first, last, step)
    ensures Iterate(Iterate(s, first, done, step), first, again, step)
            == Iterate(s, first, if again <= done then done else again, step)
    decreases again - first
  {
    if first == again {
    } else {
      Reiterate(s, first, done, again - 1, last, step);
    }
  }

  lemma {:induction false} AttemptsAreOneRun<S(!new)>(
      s: S, first: int, last: int, completed: seq<nat>, step: (S, int) -> S)
    returns (furthest: int)
    requires first <= last && Settles(s, first, last, step) && forall n :: n in completed ==> first + n <= last
    ensures first <= furthest <= last && Attempts(s, first, completed, step) == Iterate(s, first, furthest, step)
  {
    furthest := first;
    if completed == [] {
    } else {
      var init, n := completed[..|completed| - 1], completed[|completed| - 1];
      assert n in completed && forall m :: m in init ==> m in completed;
      var before := AttemptsAreOneRun(s, first, last, init, step);
      Reiterate(s, first, before, first + n, last, step);
      furthest := if first + n <= before then before else first + n;
    }
  }

  lemma MergesSettle(z: Zone, bronze: seq<Row>, first: int, last: int, answers: int -> Answer, knownAt: int)
    requires MidnightSafe(z) && first <= last && Placed(z, answers, knownAt, first, last)
    ensures Settles(bronze, first, last, DayStep(z, answers, knownAt))
  {
    var step := DayStep(z, answers, knownAt);
    forall done, day | first <= day < done <= last
      ensures step(Iterate(bronze, first, done, step), day) == Iterate(bronze, first, done, step)
    {
      DayAgain(z, bronze, first, day, done, answers, knownAt);
    }
  }

  lemma {:induction false} RunDaysGrow(
      z: Zone, bronze: seq<Row>, first: int, mid: int, last: int, answers: int -> Answer, knownAt: int)
    requires first <= mid <= last
    ensures |RunDays(z, bronze, first, mid, answers, knownAt)| <= |RunDays(z, bronze, first, last, answers, knownAt)|
    decreases last - mid
  {
    if mid == last {
    } else {
      var prev := last - 1;
      RunDaysGrow(z, bronze, first, mid, prev, answers, knownAt);
      RunDaysSnoc(z, bronze, first, prev, last, answers, knownAt);
    }
  }

  /** A run over a day with a row of another day adds that row, whatever is held already. */
  lemma StrayDayGrows(
      z: Zone, bronze: seq<Row>, first: int, day: int, last: int, answers: int -> Answer, knownAt: int)
    requires first <= day < last && !InWindow(Accepted(answers(day), knownAt), DayWindow(z, day))
    ensures |bronze| < |RunDays(z, bronze, first, last, answers, knownAt)|
  {
    var next := day + 1;
    var before := RunDays(z, bronze, first, day, answers, knownAt);
    var staged, w := Accepted(answers(day), knownAt), DayWindow(z, day);
    RunDaysGrow(z, bronze, first, first, day, answers, knownAt);
    RunDaysSnoc(z, bronze, first, day, next, answers, knownAt);
    RunDaysGrow(z, bronze, first, next, last, answers, knownAt);
    var s :| s in staged && !w.Holds(s.key.validTime);
    assert Insertable(Within(before, w), s);
    assert s in Inserted(Within(before, w), staged);
  }

  /**
   * Crash safety. After any number of attempts that died, each after any number of days, one complete
   * rerun with the same known_at and answers leaves exactly the bronze of a single uninterrupted run,
   * provided every accepted row is of the day asked for. A further run adds nothing exactly then.
   */
  lemma CrashSafe(
      z: Zone, bronze: seq<Row>, first: int, last: int, completed: seq<nat>, answers: int -> Answer, knownAt: int)
    requires MidnightSafe(z) && first <= last && forall n :: n in completed ==> first + n <= last
    ensures var once := RunDays(z, bronze, first, last, answers, knownAt);
            var crashed := Attempts(bronze, first, completed, DayStep(z, answers, knownAt));
            && (Placed(z, answers, knownAt, first, last) ==> RunDays(z, crashed, first, last, answers, knownAt) == once)
            && (RunDays(z, once, first, last, answers, knownAt) == once <==> Placed(z, answers, knownAt, first, last))
  {
    if Placed(z, answers, knownAt, first, last) {
      MergesSettle(z, bronze, first, last, answers, knownAt);
      CrashSafeSteps(bronze, first, last, completed, DayStep(z, answers, knownAt));
    } else {
      var day :| first <= day < last && !InWindow(Accepted(answers(day), knownAt), DayWindow(z, day));
      StrayDayGrows(z, RunDays(z, bronze, first, last, answers, knownAt), first, day, last, answers, knownAt);
    }
  }

  lemma CrashSafeSteps<S(!new)>(s: S, first: int, last: int, completed: seq<nat>, step: (S, int) -> S)
    requires first <= last && Settles(s, first, last, step) && forall n :: n in completed ==> first + n <= last
    ensures var once := Iterate(s, first, last, step);
            && Iterate(Attempts(s, first, completed, step), first, last, step) == once
            && Iterate(once, first, last, step) == once
  {
    var furthest := AttemptsAreOneRun(s, first, last, completed, step);
    Reiterate(s, first, furthest, last, last, step);
    Reiterate(s, first, last, last, last, step);
  }

  datatype Summary = Summary(daysMerged: nat, daysEmpty: seq<int>, rows: nat)

  datatype DayError = BadDay(cause: TimeError) | SourceFailed | LoadFailed(load: LoadError)

  datatype BackfillError = EndBeforeStart | TooManyDays | KnownAtNotUtc | StoppedAt(day: int, why: DayError)

  /** How many rows each day's answer puts up for merging. */
  function StagedRows(answers: int -> Answer, knownAt: int): int -> nat { day => |Accepted(answers(day), knownAt)| }

  /** What a run over the days up to `last` reports. */
  function SummaryOf(first: int, last: int, staged: int -> nat): Summary
    requires first <= last
    decreases last - first
  {
    if first == last then Summary(0, [], 0) else Report(SummaryOf(first, last - 1, staged), last - 1, staged(last - 1))
  }

  function Report(s: Summary, day: int, staged: nat): Summary {
    if staged == 0 then s.(daysEmpty := s.daysEmpty + [day])
    else s.(daysMerged := s.daysMerged + 1, rows := s.rows + staged)
  }

  /** The days from `first` up to but not including `last`. */
  function DaysOf(first: int, last: int): seq<int>
    requires first <= last
  {
    seq(last - first, i => first + i)
  }

  lemma DaysSnoc(first: int, day: int, last: int)
    requires first <= day && last == day + 1
    ensures DaysOf(first, last) == DaysOf(first, day) + [day]
    ensures DaysOf(first, last)[..day - first] == DaysOf(first, day)
  {
  }

  /**
   * What a run reports: of its days, how many staged anything; those that staged nothing, in order; and
   * the rows of all days together.
   */
  lemma {:induction false} SummaryExact(first: int, last: int, staged: int -> nat)
    requires first <= last
    ensures var s, days := SummaryOf(first, last, staged), DaysOf(first, last);
            && s.daysMerged == |Filter(days, day => staged(day) > 0)|
            && s.daysEmpty == Filter(days, day => staged(day) == 0)
            && s.rows == SumSeq(days, day => staged(day))
            && s.daysMerged + |s.daysEmpty| == |days| == last - first
    decreases last - first
  {
    if first == last {
    } else {
      var day := last - 1;
      SummaryExact(first, day, staged);
      DaysSnoc(first, day, last);
    }
  }

  predicate ArgumentsAccepted(start: int, end: int, knownAt: Moment) {
    start <= end && end - start + 1 <= MAX_DAYS && IsUtc(knownAt)
  }

  /** A whole calendar month always fits one run, and a day more than the longest does not. */
  lemma MonthFitsExactly(index: int, knownAt: Moment)
    requires IsUtc(knownAt)
    ensures ArgumentsAccepted(FirstOfMonth(index), FirstOfMonth(index + 1) - 1, knownAt)
    ensures ArgumentsAccepted(FirstOfMonth(index), FirstOfMonth(index + 1), knownAt)
            <==> FirstOfMonth(index + 1) - FirstOfMonth(index) < 31
  {
    MonthFollows(index);
    MonthLengths(index / 12, index % 12 + 1);
  }

  /** What decides, day by day, whether a staged batch gets merged: its id, and whether its query completes. */
  datatype Engine = Engine(alphanumeric: char -> bool, batchId: int -> string, completes: int -> bool)

  /** Exactly what a day needs to go through. Only a day with rows to stage asks the query engine for anything. */
  predicate DayPasses(z: Zone, day: int, knownAt: int, answer: Answer, engine: Engine) {
    && SettlementDay(z, day).Ok? && answer != Fault
    && (|| Accepted(answer, knownAt) == []
        || (IsBatchId(engine.batchId(day), engine.alphanumeric) && engine.completes(day)))
  }

  /** The error a day reports is the first thing wrong with it. */
  predicate Explains(why: DayError, z: Zone, day: int, knownAt: int, answer: Answer, engine: Engine) {
    match why
    case BadDay(cause) => SettlementDay(z, day) == Err(cause)
    case SourceFailed => SettlementDay(z, day).Ok? && answer == Fault
    case LoadFailed(load) =>
      && SettlementDay(z, day).Ok? && answer != Fault && Accepted(answer, knownAt) != []
      && (if IsBatchId(engine.batchId(day), engine.alphanumeric) then load == QueryFailed && !engine.completes(day)
          else load == BadBatchId)
  }

  lemma DayNotEmpty(z: Zone, day: int)
    requires SettlementDay(z, day).Ok?
    ensures SettlementDay(z, day).value == DayWindow(z, day) && DayWindow(z, day).start < DayWindow(z, day).end
  {
    DayStartNear(z, day);
    DayStartNear(z, day + 1);
  }

  /** One day of a backfill: how many rows it staged, and the merge if there were any. */
  method BackfillDay(lake: Lake, z: Zone, day: int, knownAt: int, answers: int -> Answer, engine: Engine)
    returns (r: Result<nat, DayError>)
    modifies lake
    ensures r.Ok? <==> DayPasses(z, day, knownAt, answers(day), engine)
    ensures r.Ok? ==> lake.bronze == DayMerge(z, old(lake.bronze), day, answers, knownAt)
    ensures r.Ok? ==> r.value == |Accepted(answers(day), knownAt)|
    ensures r.Ok? && answers(day).NoData? ==> lake.bronze == old(lake.bronze) && r.value == 0
    ensures r.Ok? && answers(day).Published? ==>
              var rows := GateAll(answers(day).document.mrid, answers(day).document.series, knownAt).records;
              lake.bronze == Merge(old(lake.bronze), rows, SettlementDay(z, day).value) && r.value == |rows|
    ensures r.Err? ==> Explains(r.error, z, day, knownAt, answers(day), engine) && lake.bronze == old(lake.bronze)
  {
    var window := SettlementDay(z, day);
    if window.Err? { return Err(BadDay(window.error)); }
    DayNotEmpty(z, day);
    if answers(day).Fault? { return Err(SourceFailed); }
    var staged: seq<Row> := [];
    if answers(day).Published? {
      var gated := ApplyGate(answers(day).document, knownAt);
      staged := gated.records;
    }
    if staged != [] {
      var loaded := lake.MergeBatch(
        engine.batchId(day), engine.alphanumeric, staged,
        Moment(window.value.start, Some(0)), Moment(window.value.end, Some(0)), engine.completes(day));
      if loaded.Err? { return Err(LoadFailed(loaded.error)); }
    }
    return Ok(|staged|);
  }

  /** Every day from `first` up to but not including `last` passes. */
  predicate AllPass(z: Zone, first: int, last: int, knownAt: int, answers: int -> Answer, engine: Engine)
    decreases last - first
  {
    first >= last
    || (AllPass(z, first, last - 1, knownAt, answers, engine)
        && DayPasses(z, last - 1, knownAt, answers(last - 1), engine))
  }

  lemma {:induction false} AllPassExact(
      z: Zone, first: int, last: int, knownAt: int, answers: int -> Answer, engine: Engine)
    ensures AllPass(z, first, last, knownAt, answers, engine)
            <==> forall day :: first <= day < last ==> DayPasses(z, day, knownAt, answers(day), engine)
    decreases last - first
  {
    if first >= last {
    } else {
      AllPassExact(z, first, last - 1, knownAt, answers, engine);
    }
  }

  lemma NotAllPass(z: Zone, first: int, last: int, day: int, knownAt: int, answers: int -> Answer, engine: Engine)
    requires first <= day < last && !DayPasses(z, day, knownAt, answers(day), engine)
    ensures !AllPass(z, first, last, knownAt, answers, engine)
  {
    AllPassExact(z, first, last, knownAt, answers, engine);
  }

  /** What one more day that passes adds to a run. */
  lemma DayDone(z: Zone, bronze: seq<Row>, first: int, day: int, next: int, knownAt: int, answers: int -> Answer,
                engine: Engine)
    requires first <= day && next == day + 1
    requires AllPass(z, first, day, knownAt, answers, engine) && DayPasses(z, day, knownAt, answers(day), engine)
    ensures AllPass(z, first, next, knownAt, answers, engine)
    ensures RunDays(z, bronze, first, next, answers, knownAt)
            == DayMerge(z, RunDays(z, bronze, first, day, answers, knownAt), day, answers, knownAt)
    ensures SummaryOf(first, next, StagedRows(answers, knownAt))
            == Report(SummaryOf(first, day, StagedRows(answers, knownAt)), day, |Accepted(answers(day), knownAt)|)
  {
  }

  /**
   * The day loop. A run goes through exactly when every day does; otherwise it stops at the first day
   * that does not, says why, and leaves every earlier day merged and nothing else.
   */
  method MergeDays(lake: Lake, z: Zone, start: int, end: int, knownAt: int, answers: int -> Answer, engine: Engine)
    returns (r: Result<Summary, BackfillError>)
    requires start <= end
    modifies lake
    ensures r.Ok? <==> AllPass(z, start, end + 1, knownAt, answers, engine)
    ensures r.Ok? ==>
              && lake.bronze == RunDays(z, old(lake.bronze), start, end + 1, answers, knownAt)
              && r.value == SummaryOf(start, end + 1, StagedRows(answers, knownAt))
    ensures r.Err? ==>
              && r.error.StoppedAt? && start <= r.error.day <= end
              && AllPass(z, start, r.error.day, knownAt, answers, engine)
              && !DayPasses(z, r.error.day, knownAt, answers(r.error.day), engine)
              && Explains(r.error.why, z, r.error.day, knownAt, answers(r.error.day), engine)
              && lake.bronze == RunDays(z, old(lake.bronze), start, r.error.day, answers, knownAt)
  {
    ghost var before := lake.bronze;
    var summary := Summary(0, [], 0);
    var day := start;
    while day <= end
      invariant start <= day <= end + 1
      invariant AllPass(z, start, day, knownAt, answers, engine)
      invariant lake.bronze == RunDays(z, before, start, day, answers, knownAt)
      invariant summary == SummaryOf(start, day, StagedRows(answers, knownAt))
    {
      var staged := BackfillDay(lake, z, day, knownAt, answers, engine);
      if staged.Err? {
        NotAllPass(z, start, end + 1, day, knownAt, answers, engine);
        return Err(StoppedAt(day, staged.error));
      }
      summary := Report(summary, day, staged.value);
      var next := day + 1;
      DayDone(z, before, start, day, next, knownAt, answers, engine);
      day := next;
    }
    return Ok(summary);
  }

  method BackfillDays(
      lake: Lake, z: Zone, start: int, end: int, knownAt: Moment, answers: int -> Answer, engine: Engine)
    returns (r: Result<Summary, BackfillError>)
    modifies lake
    ensures r == Err(EndBeforeStart) <==> end < start
    ensures r == Err(TooManyDays) <==> start <= end && end - start + 1 > MAX_DAYS
    ensures r == Err(KnownAtNotUtc) <==> start <= end && end - start + 1 <= MAX_DAYS && !IsUtc(knownAt)
    ensures !ArgumentsAccepted(start, end, knownAt) ==> lake.bronze == old(lake.bronze)
    ensures r.Ok?
            <==> ArgumentsAccepted(start, end, knownAt) && AllPass(z, start, end + 1, knownAt.instant, answers, engine)
    ensures r.Ok? ==> forall day :: start <= day <= end ==> !answers(day).Fault? && SettlementDay(z, day).Ok?
    ensures r.Ok? ==>
              && lake.bronze == RunDays(z, old(lake.bronze), start, end + 1, answers, knownAt.instant)
              && r.value == SummaryOf(start, end + 1, StagedRows(answers, knownAt.instant))
    ensures r.Err? && ArgumentsAccepted(start, end, knownAt) ==>
              && r.error.StoppedAt? && start <= r.error.day <= end
              && AllPass(z, start, r.error.day, knownAt.instant, answers, engine)
              && !DayPasses(z, r.error.day, knownAt.instant, answers(r.error.day), engine)
              && Explains(r.error.why, z, r.error.day, knownAt.instant, answers(r.error.day), engine)
              && lake.bronze == RunDays(z, old(lake.bronze), start, r.error.day, answers, knownAt.instant)
  {
    if end < start { return Err(EndBeforeStart); }
    if end - start + 1 > MAX_DAYS { return Err(TooManyDays); }
    if !IsUtc(knownAt) { return Err(KnownAtNotUtc); }
    AllPassExact(z, start, end + 1, knownAt.instant, answers, engine);
    r := MergeDays(lake, z, start, end, knownAt.instant, answers, engine);
  }
}
