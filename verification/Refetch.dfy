/** The daily schedule: which settlement days each morning fetches, and what bronze holds because of it. */
module Refetch {
  import opened Prelude
  import opened TimeAxis
  import opened Records
  import opened Bronze
  import opened Refinement
  import opened Runs
  import opened Gate
  import opened Backfill

  datatype Event = Event(startDate: Option<int>, endDate: Option<int>, refetchDays: Option<int>)

  datatype EventError = NoWindow | NothingToRefetch

  /** The settlement days a backfill event asks for: given outright, or counted back from known_at. */
  function EventDays(event: Event, knownAt: int, z: Zone): Result<(int, int), EventError> {
    if event.startDate.Some? && event.endDate.Some? then Ok((event.startDate.value, event.endDate.value))
    else if event.refetchDays.Some? then
      if event.refetchDays.value < 1 then Err(NothingToRefetch)
      else
        var newest := LocalDate(z, knownAt) - 2;
        Ok((newest - (event.refetchDays.value - 1), newest))
    else Err(NoWindow)
  }

  /** Both ends are given. One alone counts for nothing. */
  predicate Explicit(event: Event) { event.startDate.Some? && event.endDate.Some? }

  /**
   * Days given outright are those days, whenever the event fires and whatever else it says. Otherwise
   * refetch_days of n gives n days, the last of which ended a whole settlement day before known_at's own
   * began; a count below one and no count at all are the only errors.
   */
  lemma EventDaysExact(event: Event, knownAt: int, z: Zone)
    requires MidnightSafe(z)
    ensures var r := EventDays(event, knownAt, z);
            && (r == Err(NoWindow) <==> !Explicit(event) && event.refetchDays.None?)
            && (r == Err(NothingToRefetch)
                <==> !Explicit(event) && event.refetchDays.Some? && event.refetchDays.value < 1)
            && (r.Ok? && Explicit(event) ==> event.startDate == Some(r.value.0) && event.endDate == Some(r.value.1))
            && (r.Ok? && !Explicit(event) ==>
                  && event.refetchDays == Some(r.value.1 - r.value.0 + 1)
                  && DayWindow(z, r.value.1 + 1).end <= knownAt && DayWindow(z, r.value.1 + 2).Holds(knownAt))
  {
    var today := LocalDate(z, knownAt);
    SettlementDaysTile(z, today, knownAt);
  }

  /** The ingest's target day, at the default lookback of one. */
  function IngestDay(now: int, z: Zone): int { LocalDate(z, now) - 1 }

  datatype Fetch = Fetch(day: int, at: int)

  /** One morning's two firings: the re-fetch, then the ingest. */
  datatype Morning = Morning(refetchAt: int, ingestAt: int)

  function MorningFetches(z: Zone, n: int, m: Morning): seq<Fetch>
    requires n >= 1
  {
    var (oldest, newest) := EventDays(Event(None, None, Some(n)), m.refetchAt, z).value;
    seq(newest - oldest + 1, j => Fetch(oldest + j, m.refetchAt)) + [Fetch(IngestDay(m.ingestAt, z), m.ingestAt)]
  }

  predicate OneDate(z: Zone, m: Morning) {
    LocalDate(z, m.refetchAt) == LocalDate(z, m.ingestAt) && m.refetchAt < m.ingestAt
  }

  lemma MorningDays(z: Zone, n: int, m: Morning)
    requires n >= 1 && OneDate(z, m)
    ensures var f, today := MorningFetches(z, n, m), LocalDate(z, m.refetchAt);
            && |f| == n + 1
            && forall j :: 0 <= j <= n ==> f[j] == Fetch(today - 1 - n + j, if j < n then m.refetchAt else m.ingestAt)
  {
  }

  /** A settlement day D is fetched on exactly the mornings D + 1 to D + n + 1, once each. */
  lemma CoverageExact(z: Zone, n: int, m: Morning, day: int)
    requires n >= 1 && OneDate(z, m)
    ensures |Filter(MorningFetches(z, n, m), (f: Fetch) => f.day == day)|
            == if day + 1 <= LocalDate(z, m.refetchAt) <= day + n + 1 then 1 else 0
  {
    MorningDays(z, n, m);
    CountDay(MorningFetches(z, n, m), LocalDate(z, m.refetchAt) - 1 - n, day);
  }

  lemma {:induction false} CountDay(f: seq<Fetch>, oldest: int, day: int)
    requires forall j :: 0 <= j < |f| ==> f[j].day == oldest + j
    ensures |Filter(f, (x: Fetch) => x.day == day)| == if oldest <= day < oldest + |f| then 1 else 0
  {
    if f == [] {
    } else {
      CountDay(f[..|f| - 1], oldest, day);
    }
  }

  function Schedule(z: Zone, n: int, mornings: seq<Morning>): seq<Fetch>
    requires n >= 1
  {
    if mornings == [] then []
    else Schedule(z, n, mornings[..|mornings| - 1]) + MorningFetches(z, n, mornings[|mornings| - 1])
  }

  /** Consecutive dates, one re-fetch and one ingest on each, in that order. */
  predicate Daily(z: Zone, mornings: seq<Morning>) {
    && (forall i :: 0 <= i < |mornings| ==> OneDate(z, mornings[i]))
    && (forall i, j :: 0 <= i < j < |mornings| ==> mornings[i].ingestAt < mornings[j].refetchAt)
    && forall i, j :: 0 <= i < j < |mornings|
                      ==> LocalDate(z, mornings[j].refetchAt) == LocalDate(z, mornings[i].refetchAt) + (j - i)
  }

  /** Whenever asked for a day, the source answers with periods of that day. */
  ghost predicate Sound(z: Zone, source: (int, int) -> Answer) {
    forall day, at :: PublishedIn(source(day, at), DayWindow(z, day))
  }

  /** The Periods of a document never overlap within one flow. */
  ghost predicate NeverOverlaps(source: (int, int) -> Answer) {
    forall day, at :: source(day, at).Published? ==> NoOverlap(source(day, at).document.series)
  }

  function StepOf(z: Zone, source: (int, int) -> Answer, f: Fetch): Step {
    Step(Accepted(source(f.day, f.at), f.at), f.at, DayWindow(z, f.day))
  }

  function Steps(z: Zone, source: (int, int) -> Answer, fetches: seq<Fetch>): seq<Step> {
    Map(fetches, f => StepOf(z, source, f))
  }

  predicate InOrder(fetches: seq<Fetch>) {
    forall i, j :: 0 <= i < j < |fetches| ==>
                     && fetches[i].at <= fetches[j].at
                     && (fetches[i].at == fetches[j].at ==> fetches[i].day != fetches[j].day)
  }

  lemma StepsSnoc(z: Zone, source: (int, int) -> Answer, fetches: seq<Fetch>, f: Fetch)
    ensures Steps(z, source, fetches + [f]) == Steps(z, source, fetches) + [StepOf(z, source, f)]
    ensures Steps(z, source, fetches + [f])[..|fetches|] == Steps(z, source, fetches)
  {
  }

  /** Some fetch of the list staged the row. */
  predicate StagedBy(z: Zone, source: (int, int) -> Answer, fetches: seq<Fetch>, r: Row) {
    exists f :: f in fetches && r in StepOf(z, source, f).staged
  }

  lemma StagedBySnoc(z: Zone, source: (int, int) -> Answer, fetches: seq<Fetch>, f: Fetch, r: Row)
    ensures StagedBy(z, source, fetches + [f], r)
            <==> StagedBy(z, source, fetches, r) || r in StepOf(z, source, f).staged
  {
    assert forall g :: g in fetches + [f] <==> g in fetches || g == f;
  }

  lemma LoggedSnoc(z: Zone, source: (int, int) -> Answer, fetches: seq<Fetch>, f: Fetch, r: Row)
    ensures r in Log(Steps(z, source, fetches + [f]))
            <==> r in Log(Steps(z, source, fetches)) || r in StepOf(z, source, f).staged
  {
    StepsSnoc(z, source, fetches, f);
    LogSnoc(Steps(z, source, fetches), StepOf(z, source, f));
  }

  lemma {:induction false} LogMembers(z: Zone, source: (int, int) -> Answer, fetches: seq<Fetch>, r: Row)
    ensures r in Log(Steps(z, source, fetches)) <==> StagedBy(z, source, fetches, r)
  {
    if fetches == [] {
      assert Steps(z, source, fetches) == [];
    } else {
      var init, f := fetches[..|fetches| - 1], fetches[|fetches| - 1];
      LogMembers(z, source, init, r);
      assert fetches == init + [f];
      StagedBySnoc(z, source, init, f, r);
      LoggedSnoc(z, source, init, f, r);
    }
  }

  /** What one fetch stages: rows of its own day, at its own instant. */
  lemma StagedAt(z: Zone, source: (int, int) -> Answer, f: Fetch)
    requires Sound(z, source)
    ensures InWindow(StepOf(z, source, f).staged, DayWindow(z, f.day))
    ensures forall r :: r in StepOf(z, source, f).staged ==> r.knownAt == f.at
  {
    AcceptedKnownAt(source(f.day, f.at), f.at);
    PlacedRows(source(f.day, f.at), f.at, DayWindow(z, f.day));
  }

  lemma {:induction false} FetchesOrderly(z: Zone, source: (int, int) -> Answer, fetches: seq<Fetch>)
    requires MidnightSafe(z) && Sound(z, source) && NeverOverlaps(source) && InOrder(fetches)
    ensures Orderly(Steps(z, source, fetches)) && ForwardOnly(Steps(z, source, fetches))
  {
    if fetches == [] {
    } else {
      var init, f := fetches[..|fetches| - 1], fetches[|fetches| - 1];
      FetchesOrderly(z, source, init);
      assert fetches == init + [f];
      StepsSnoc(z, source, init, f);
      FetchAdmissible(z, source, init, f);
      OrderlySnoc(Steps(z, source, init), StepOf(z, source, f));
    }
  }

  lemma FetchAdmissible(z: Zone, source: (int, int) -> Answer, init: seq<Fetch>, f: Fetch)
    requires MidnightSafe(z) && Sound(z, source) && NeverOverlaps(source) && InOrder(init + [f])
    ensures Admissible(Log(Steps(z, source, init)), StepOf(z, source, f))
    ensures Forward(Log(Steps(z, source, init)), StepOf(z, source, f))
  {
    var log, step := Log(Steps(z, source, init)), StepOf(z, source, f);
    StagedAt(z, source, f);
    var answer := source(f.day, f.at);
    assert PublishedIn(answer, DayWindow(z, f.day));
    AcceptedIsBatch(answer, f.at);
    forall r | r in log ensures r.knownAt <= f.at && forall s :: s in step.staged ==> !SameIdentity(r, s) {
      LogMembers(z, source, init, r);
      var g :| g in init && r in StepOf(z, source, g).staged;
      EarlierFetch(z, source, init, f, g, r);
    }
  }

  lemma EarlierFetch(z: Zone, source: (int, int) -> Answer, init: seq<Fetch>, f: Fetch, g: Fetch, r: Row)
    requires MidnightSafe(z) && Sound(z, source) && InOrder(init + [f]) && g in init && r in StepOf(z, source, g).staged
    ensures r.knownAt == g.at <= f.at
    ensures forall s :: s in StepOf(z, source, f).staged ==> !SameIdentity(r, s)
  {
    var i :| 0 <= i < |init| && init[i] == g;
    assert (init + [f])[i] == g && (init + [f])[|init|] == f;
    StagedAt(z, source, g);
    StagedAt(z, source, f);
    if DayWindow(z, f.day).Holds(r.key.validTime) {
      WindowsDisjoint(z, g.day, f.day, r.key.validTime);
    }
  }

  lemma InOrderConcat(a: seq<Fetch>, b: seq<Fetch>)
    requires InOrder(a) && InOrder(b) && forall f, g :: f in a && g in b ==> f.at < g.at
    ensures InOrder(a + b)
  {
  }

  lemma MorningInOrder(z: Zone, n: int, m: Morning)
    requires n >= 1 && OneDate(z, m)
    ensures InOrder(MorningFetches(z, n, m))
    ensures forall f :: f in MorningFetches(z, n, m) ==> m.refetchAt <= f.at <= m.ingestAt
  {
    MorningDays(z, n, m);
  }

  lemma {:induction false} ScheduleInOrder(z: Zone, n: int, mornings: seq<Morning>)
    requires n >= 1 && Daily(z, mornings)
    ensures InOrder(Schedule(z, n, mornings))
    ensures mornings != [] ==> forall f :: f in Schedule(z, n, mornings) ==> f.at <= mornings[|mornings| - 1].ingestAt
  {
    if mornings == [] {
    } else {
      var init, m := mornings[..|mornings| - 1], mornings[|mornings| - 1];
      ScheduleInOrder(z, n, init);
      MorningInOrder(z, n, m);
      assert OneDate(z, m);
      if init != [] {
        assert mornings[|init| - 1].ingestAt < m.refetchAt;
      }
      InOrderConcat(Schedule(z, n, init), MorningFetches(z, n, m));
    }
  }

  /** The instant at which a morning fetches one of the days it covers. */
  function FetchTime(z: Zone, m: Morning, day: int): int {
    if LocalDate(z, m.refetchAt) == day + 1 then m.ingestAt else m.refetchAt
  }

  /** This is the morning's fetch of that day. */
  predicate Covers(z: Zone, n: int, m: Morning, f: Fetch) {
    f.day + 1 <= LocalDate(z, m.refetchAt) <= f.day + n + 1 && f.at == FetchTime(z, m, f.day)
  }

  lemma MorningExact(z: Zone, n: int, m: Morning, f: Fetch)
    requires n >= 1 && OneDate(z, m)
    ensures f in MorningFetches(z, n, m) <==> Covers(z, n, m, f)
  {
    MorningDays(z, n, m);
    if Covers(z, n, m, f) {
      assert MorningFetches(z, n, m)[f.day - (LocalDate(z, m.refetchAt) - 1 - n)] == f;
    }
  }

  /** Some morning of the run makes the fetch. */
  predicate CoveredBy(z: Zone, n: int, mornings: seq<Morning>, f: Fetch) {
    exists i :: 0 <= i < |mornings| && Covers(z, n, mornings[i], f)
  }

  lemma CoveredBySnoc(z: Zone, n: int, mornings: seq<Morning>, m: Morning, f: Fetch)
    ensures CoveredBy(z, n, mornings + [m], f) <==> CoveredBy(z, n, mornings, f) || Covers(z, n, m, f)
  {
    var more := mornings + [m];
    assert forall i :: 0 <= i < |mornings| ==> more[i] == mornings[i];
    assert more[|mornings|] == m;
  }

  lemma {:induction false} ScheduleExact(z: Zone, n: int, mornings: seq<Morning>, f: Fetch)
    requires n >= 1 && Daily(z, mornings)
    ensures f in Schedule(z, n, mornings) <==> CoveredBy(z, n, mornings, f)
  {
    if mornings == [] {
    } else {
      var init, m := mornings[..|mornings| - 1], mornings[|mornings| - 1];
      ScheduleExact(z, n, init, f);
      assert OneDate(z, m);
      MorningExact(z, n, m, f);
      assert mornings == init + [m];
      CoveredBySnoc(z, n, init, m, f);
    }
  }

  /** The newest version held of a series and period carries this value. */
  predicate Says(rows: seq<Row>, key: Key, value: Value) {
    var newest := Newest(rows, key);
    newest.Some? && newest.value.value == value
  }

  /** No two of the rows give one series and period different values. */
  predicate OneAnswer(rows: seq<Row>, key: Key) {
    forall a, b :: a in rows && b in rows && a.key == b.key == key ==> a.value == b.value
  }

  /** A merge later than all it knows of a period ends up saying what the batch says of it. */
  lemma LatestMergeSays(bronze: seq<Row>, staged: seq<Row>, w: Interval, s: Row)
    requires s in staged && InWindow(staged, w) && forall r :: r in staged ==> r.knownAt == s.knownAt
    requires OneAnswer(staged, s.key) && forall r :: r in bronze && r.key == s.key ==> r.knownAt < s.knownAt
    ensures Says(Merge(bronze, staged, w), s.key, s.value)
  {
    var added := Inserted(bronze, staged);
    WindowPushdown(bronze, staged, w);
    NewestConcat(bronze, added, s.key);
    if Changed(bronze, s) {
      assert Insertable(bronze, s);
      assert s in added;
    } else {
      forall r | r in added ensures r.key != s.key {
        assert Changed(bronze, r);
      }
    }
  }

  /** A merge that stages nothing of a period leaves what bronze says of it. */
  lemma OtherMergeKeeps(bronze: seq<Row>, staged: seq<Row>, w: Interval, key: Key)
    requires forall r :: r in staged ==> r.key != key
    ensures Newest(Merge(bronze, staged, w), key) == Newest(bronze, key)
  {
    NewestConcat(bronze, Inserted(Within(bronze, w), staged), key);
  }

  /** Bronze after the first `n` of the fetches. */
  function Held(z: Zone, source: (int, int) -> Answer, fetches: seq<Fetch>, n: nat): seq<Row>
    requires n <= |fetches|
  {
    Run(Steps(z, source, fetches[..n]))
  }

  lemma HeldSnoc(z: Zone, source: (int, int) -> Answer, fetches: seq<Fetch>, n: nat)
    requires n < |fetches|
    ensures Held(z, source, fetches, n + 1)
            == Merge(Held(z, source, fetches, n), StepOf(z, source, fetches[n]).staged, DayWindow(z, fetches[n].day))
  {
    assert fetches[..n + 1] == fetches[..n] + [fetches[n]];
    StepsSnoc(z, source, fetches[..n], fetches[n]);
  }

  /** A fetch of another day leaves it too. */
  lemma OtherFetchKeeps(z: Zone, source: (int, int) -> Answer, fetches: seq<Fetch>, n: nat, key: Key, value: Value)
    requires MidnightSafe(z) && Sound(z, source) && n < |fetches| && fetches[n].day != LocalDate(z, key.validTime)
    requires Says(Held(z, source, fetches, n), key, value)
    ensures Says(Held(z, source, fetches, n + 1), key, value)
  {
    var f := fetches[n];
    HeldSnoc(z, source, fetches, n);
    StagedAt(z, source, f);
    SettlementDaysTile(z, f.day, key.validTime);
    OtherMergeKeeps(Held(z, source, fetches, n), StepOf(z, source, f).staged, DayWindow(z, f.day), key);
  }

  lemma {:induction false} OtherFetchesKeep(
      z: Zone, source: (int, int) -> Answer, fetches: seq<Fetch>, p: nat, n: nat, key: Key, value: Value)
    requires MidnightSafe(z) && Sound(z, source) && p < n <= |fetches|
    requires Says(Held(z, source, fetches, p + 1), key, value)
    requires forall q :: p < q < n ==> fetches[q].day != LocalDate(z, key.validTime)
    ensures Says(Held(z, source, fetches, n), key, value)
    decreases n - p
  {
    if n == p + 1 {
    } else {
      OtherFetchKeeps(z, source, fetches, p + 1, key, value);
      OtherFetchesKeep(z, source, fetches, p + 1, n, key, value);
    }
  }

  /** What was held of a period before a fetch of its day became known before that fetch. */
  lemma HeldIsOlder(z: Zone, source: (int, int) -> Answer, fetches: seq<Fetch>, p: nat, r: Row)
    requires MidnightSafe(z) && Sound(z, source) && InOrder(fetches) && p < |fetches|
    requires r in Held(z, source, fetches, p) && LocalDate(z, r.key.validTime) == fetches[p].day
    ensures r.knownAt < fetches[p].at
  {
    var before := fetches[..p];
    RunIsLogged(Steps(z, source, before));
    var g := LoggedFetch(z, source, before, r);
    var q :| 0 <= q < p && fetches[q] == g;
    SameDayEarlier(fetches, q, p);
  }

  /** A logged row was staged by a fetch of its own day, at its own known_at. */
  lemma LoggedFetch(z: Zone, source: (int, int) -> Answer, fetches: seq<Fetch>, r: Row) returns (g: Fetch)
    requires MidnightSafe(z) && Sound(z, source) && r in Log(Steps(z, source, fetches))
    ensures g in fetches && g == Fetch(LocalDate(z, r.key.validTime), r.knownAt)
  {
    LogMembers(z, source, fetches, r);
    g :| g in fetches && r in StepOf(z, source, g).staged;
    StagedAt(z, source, g);
    SettlementDaysTile(z, g.day, r.key.validTime);
  }

  lemma SameDayEarlier(fetches: seq<Fetch>, q: nat, p: nat)
    requires InOrder(fetches) && q < p < |fetches| && fetches[q].day == fetches[p].day
    ensures fetches[q].at < fetches[p].at
  {
  }

  /** No fetch of a day is later than the one on the latest morning that covers it. */
  lemma NoLaterFetch(z: Zone, n: int, mornings: seq<Morning>, i: nat, f: Fetch)
    requires n >= 1 && Daily(z, mornings) && i < |mornings| && f in Schedule(z, n, mornings)
    requires i == |mornings| - 1 || LocalDate(z, mornings[i].refetchAt) == f.day + n + 1
    ensures f.at <= FetchTime(z, mornings[i], f.day)
  {
    ScheduleExact(z, n, mornings, f);
    var k :| 0 <= k < |mornings| && Covers(z, n, mornings[k], f);
    assert OneDate(z, mornings[k]) && OneDate(z, mornings[i]);
    if k < i {
      assert mornings[k].ingestAt < mornings[i].refetchAt;
    }
  }

  /** The morning that settles what bronze says of a day: the last of the run to fetch it. */
  predicate IsLatestMorning(z: Zone, n: int, mornings: seq<Morning>, i: nat, day: int)
    requires i < |mornings|
  {
    var date := LocalDate(z, mornings[i].refetchAt);
    day + 1 <= date <= day + n + 1 && (i == |mornings| - 1 || date == day + n + 1)
  }

  /** The rows accepted from what the source answered for a day on a morning. */
  function Answered(z: Zone, source: (int, int) -> Answer, m: Morning, day: int): seq<Row> {
    Accepted(source(day, FetchTime(z, m, day)), FetchTime(z, m, day))
  }

  /** The fetch of a day makes bronze say what the answer says of its periods. */
  lemma FetchSays(z: Zone, source: (int, int) -> Answer, fetches: seq<Fetch>, p: nat, s: Row)
    requires MidnightSafe(z) && Sound(z, source) && InOrder(fetches) && p < |fetches|
    requires fetches[p].day == LocalDate(z, s.key.validTime)
    requires var staged := StepOf(z, source, fetches[p]).staged; s in staged && OneAnswer(staged, s.key)
    ensures Says(Held(z, source, fetches, p + 1), s.key, s.value)
  {
    StagedAt(z, source, fetches[p]);
    HeldSnoc(z, source, fetches, p);
    forall r | r in Held(z, source, fetches, p) && r.key == s.key ensures r.knownAt < s.knownAt {
      HeldIsOlder(z, source, fetches, p, r);
    }
    LatestMergeSays(
      Held(z, source, fetches, p), StepOf(z, source, fetches[p]).staged, DayWindow(z, fetches[p].day), s);
  }

  /** After the fetch on the latest morning the day is not fetched again. */
  lemma NotFetchedAgain(z: Zone, n: int, mornings: seq<Morning>, i: nat, day: int) returns (p: nat)
    requires n >= 1 && Daily(z, mornings) && i < |mornings| && IsLatestMorning(z, n, mornings, i, day)
    ensures var fetches := Schedule(z, n, mornings);
            && InOrder(fetches) && p < |fetches| && fetches[p] == Fetch(day, FetchTime(z, mornings[i], day))
            && forall q :: p < q < |fetches| ==> fetches[q].day != day
  {
    var fetches, f := Schedule(z, n, mornings), Fetch(day, FetchTime(z, mornings[i], day));
    ScheduleInOrder(z, n, mornings);
    assert Covers(z, n, mornings[i], f);
    ScheduleExact(z, n, mornings, f);
    assert f in fetches;
    p :| 0 <= p < |fetches| && fetches[p] == f;
    forall q | p < q < |fetches| ensures fetches[q].day != day {
      if fetches[q].day == day {
        NoLaterFetch(z, n, mornings, i, fetches[q]);
      }
    }
  }

  lemma AnswerReaches(z: Zone, n: int, mornings: seq<Morning>, source: (int, int) -> Answer, i: nat, s: Row)
    requires MidnightSafe(z) && n >= 1 && Daily(z, mornings) && Sound(z, source) && i < |mornings|
    requires var day := LocalDate(z, s.key.validTime);
             && IsLatestMorning(z, n, mornings, i, day) && s in Answered(z, source, mornings[i], day)
             && OneAnswer(Answered(z, source, mornings[i], day), s.key)
    ensures Says(Run(Steps(z, source, Schedule(z, n, mornings))), s.key, s.value)
  {
    var day, fetches := LocalDate(z, s.key.validTime), Schedule(z, n, mornings);
    var p := NotFetchedAgain(z, n, mornings, i, day);
    FetchSays(z, source, fetches, p, s);
    OtherFetchesKeep(z, source, fetches, p, |fetches|, s.key, s.value);
    assert fetches[..|fetches|] == fetches;
  }

  /**
   * Freshness: over any run of mornings, bronze's newest value of a period is what the source answered on
   * the latest morning that fetched its settlement day, for every row the gate accepted of it; exactly
   * when those rows agree among themselves. Nothing is asked of earlier answers.
   */
  lemma NewestIsLatestAnswer(
      z: Zone, n: int, mornings: seq<Morning>, source: (int, int) -> Answer, i: nat, key: Key)
    requires MidnightSafe(z) && n >= 1 && Daily(z, mornings) && Sound(z, source) && i < |mornings|
    requires IsLatestMorning(z, n, mornings, i, LocalDate(z, key.validTime))
    ensures var latest := Answered(z, source, mornings[i], LocalDate(z, key.validTime));
            var bronze := Run(Steps(z, source, Schedule(z, n, mornings)));
            (forall s :: s in latest && s.key == key ==> Says(bronze, key, s.value)) <==> OneAnswer(latest, key)
  {
    var latest := Answered(z, source, mornings[i], LocalDate(z, key.validTime));
    if OneAnswer(latest, key) {
      forall s | s in latest && s.key == key
        ensures Says(Run(Steps(z, source, Schedule(z, n, mornings))), key, s.value)
      {
        AnswerReaches(z, n, mornings, source, i, s);
      }
    }
  }
}
