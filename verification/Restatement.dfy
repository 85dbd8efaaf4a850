/** The audit: rebuild silver and gold from bounded bronze, and compare with production. */
module Restatement {
  import opened Prelude
  import opened TimeAxis
  import opened Calendar
  import opened Records
  import opened Bronze
  import opened Refinement
  import opened Silver
  import opened Gold

  datatype Counts = Counts(left: nat, right: nat, onlyLeft: nat, onlyRight: nat)

  /** Row counts, and EXCEPT (a set operation) in both directions. */
  function CountsOf<T(==)>(a: seq<T>, b: seq<T>): Counts {
    Counts(|a|, |b|, |set x | x in a && x !in b|, |set x | x in b && x !in a|)
  }

  /** How many different rows a table holds. */
  function DifferentRows<T(==)>(a: seq<T>): nat { |Elements(a)| }

  /** Each count is of its own side: the rows a side has to itself are its different rows that the other lacks. */
  lemma CountsExact<T(!new)>(a: seq<T>, b: seq<T>)
    ensures var c, common := CountsOf(a, b), |Elements(a) * Elements(b)|;
            && c.left == |a| && c.right == |b|
            && c.onlyLeft + common == DifferentRows(a) && c.onlyRight + common == DifferentRows(b)
    ensures CountsOf(a, b).onlyLeft == 0 <==> forall x :: x in a ==> x in b
    ensures CountsOf(a, b).onlyRight == 0 <==> forall x :: x in b ==> x in a
  {
    OneSideOnly(a, b);
    OneSideOnly(b, a);
    assert Elements(a) * Elements(b) == Elements(b) * Elements(a);
  }

  lemma OneSideOnly<T(!new)>(a: seq<T>, b: seq<T>)
    ensures var only := set x | x in a && x !in b;
            && |only| + |Elements(a) * Elements(b)| == DifferentRows(a)
            && (|only| == 0 <==> forall x :: x in a ==> x in b)
  {
    var only := set x | x in a && x !in b;
    var common := Elements(a) * Elements(b);
    assert only + common == Elements(a) && only * common == {};
    if |only| == 0 {
      forall x | x in a ensures x in b { assert x !in only; }
    } else {
      var x := Pick(only);
      assert x in a && x !in b;
    }
  }

  predicate Identical(c: Counts) { c.left == c.right && c.onlyLeft == 0 && c.onlyRight == 0 }

  lemma IdenticalExact<T(!new)>(a: seq<T>, b: seq<T>)
    ensures Identical(CountsOf(a, b)) <==> |a| == |b| && Same(a, b)
  {
    var left, right := set x | x in a && x !in b, set x | x in b && x !in a;
    if Identical(CountsOf(a, b)) {
      forall x ensures x in a <==> x in b {
        assert x !in left && x !in right;
      }
    }
    if Same(a, b) {
      assert left == {} && right == {};
    }
  }

  /** When one side repeats no row, the comparison establishes equality as bags. */
  lemma IdenticalMeansEqual<T(!new)>(a: seq<T>, b: seq<T>)
    requires Distinct(a) && Identical(CountsOf(a, b))
    ensures multiset(a) == multiset(b)
  {
    IdenticalExact(a, b);
    ElementsCount(a);
    ElementsCount(b);
    assert Elements(a) == Elements(b);
    DistinctSameBag(a, b);
  }

  /** At most one row, however often. */
  predicate OneRow<T(==)>(a: seq<T>) { forall x, y :: x in a && y in a ==> x == y }

  lemma OneRowEqual<T(!new)>(a: seq<T>, b: seq<T>)
    requires OneRow(a) && |a| == |b| && Same(a, b)
    ensures a == b
  {
    forall i | 0 <= i < |a| ensures a[i] == b[i] {
      assert a[i] in a && b[i] in b;
    }
  }

  /** Counts and EXCEPT both overlook which row is repeated. */
  lemma RepeatOverlooked<T(!new)>(a: seq<T>, i: nat, j: nat, y: T)
    requires i < j < |a| && a[i] == a[j] && y in a && y != a[i]
    ensures Identical(CountsOf(a, a[i := y])) && multiset(a) != multiset(a[i := y])
  {
    var b := a[i := y];
    forall x ensures x in a <==> x in b {
      if x in a {
        var k :| 0 <= k < |a| && a[k] == x;
        assert b[if k == i then j else k] == x;
      }
    }
    IdenticalExact(a, b);
    assert multiset(b) == multiset(a) - multiset{a[i]} + multiset{y};
    assert multiset(b)[y] == multiset(a)[y] + 1;
  }

  /** Every table the comparison accepts against `a` is the same bag of rows. */
  ghost predicate ComparisonExact<T(!new)>(a: seq<T>) {
    forall b :: Identical(CountsOf(a, b)) ==> multiset(a) == multiset(b)
  }

  /** Acceptance is equality exactly against a table that repeats no row, or holds one row only. */
  lemma IdenticalIsNotEquality<T(!new)>(a: seq<T>)
    ensures ComparisonExact(a) <==> Distinct(a) || OneRow(a)
  {
    if Distinct(a) || OneRow(a) {
      forall b | Identical(CountsOf(a, b)) ensures multiset(a) == multiset(b) {
        if Distinct(a) {
          IdenticalMeansEqual(a, b);
        } else {
          IdenticalExact(a, b);
          OneRowEqual(a, b);
        }
      }
    } else {
      var i, j :| 0 <= i < j < |a| && a[i] == a[j];
      var x, z :| x in a && z in a && x != z;
      var y := if x == a[i] then z else x;
      RepeatOverlooked(a, i, j, y);
    }
  }

  lemma DistinctIdentical<T(!new)>(a: seq<T>, b: seq<T>)
    requires Distinct(a) && Distinct(b)
    ensures Identical(CountsOf(a, b)) <==> Same(a, b)
  {
    IdenticalExact(a, b);
    if Same(a, b) {
      DistinctSameBag(a, b);
    }
  }

  /** What the clock check compares: the snapshot production read, and bronze bounded at its known_at. */
  function Clocks(snapshot: seq<Row>, bronze: seq<Row>, asOf: int, w: Interval): Counts {
    CountsOf(Within(snapshot, w), Within(Bounded(bronze, asOf), w))
  }

  /** Left is what production read, right what is known by the bound, both confined to the window. */
  lemma ClockSides(snapshot: seq<Row>, bronze: seq<Row>, asOf: int, w: Interval)
    ensures var c := Clocks(snapshot, bronze, asOf, w);
            && c.left == |Filter(snapshot, (r: Row) => w.start <= r.key.validTime < w.end)|
            && c.right == |Filter(bronze, (r: Row) => r.knownAt <= asOf && w.start <= r.key.validTime < w.end)|
  {
    FilterCongruence(snapshot, (r: Row) => w.Holds(r.key.validTime),
                     (r: Row) => w.start <= r.key.validTime < w.end);
    FilterFilter(bronze, (r: Row) => r.knownAt <= asOf, (r: Row) => w.Holds(r.key.validTime),
                 (r: Row) => r.knownAt <= asOf && w.start <= r.key.validTime < w.end);
  }

  datatype Build = Build(versions: seq<Version>, net: seq<Sum<Period>>, daily: seq<DailyRow>)

  /** Every compared table, built from what staging lets through. */
  function BuildFrom(z: Zone, staged: seq<Row>): Build {
    var versions := Versions(z, staged);
    var net := PeriodNet(Current(versions));
    Build(versions, net, DailyMix(net))
  }

  /** The audit's build: staging restricted to a known_at bound and a window of settlement periods. */
  function Restated(z: Zone, bronze: seq<Row>, asOf: int, w: Interval): Build {
    BuildFrom(z, Within(Bounded(bronze, asOf), w))
  }

  datatype Table = GenerationVersions | PeriodGenerationNet | DailyGenerationMix

  const COMPARED: seq<Table> := [GenerationVersions, PeriodGenerationNet, DailyGenerationMix]

  predicate VersionIn(v: Version, w: Interval) { w.Holds(v.row.key.validTime) }

  predicate PeriodIn(r: Sum<Period>, w: Interval) { w.Holds(r.group.validTime) }

  /** settlement_day BETWEEN first_day AND last_day. */
  predicate DayIn(g: DayType, w: DayRange) { w.first <= g.settlementDay <= w.last }

  /** One table of a build, confined the way the comparison confines it. */
  function Confined(b: Build, w: DayRange): Build {
    Build(Filter(b.versions, (v: Version) => VersionIn(v, w.interval)),
          Filter(b.net, (r: Sum<Period>) => PeriodIn(r, w.interval)),
          Filter(b.daily, (d: DailyRow) => DayIn(d.group, w)))
  }

  function TableCounts(table: Table, restated: Build, production: Build): Counts {
    match table
    case GenerationVersions => CountsOf(restated.versions, production.versions)
    case PeriodGenerationNet => CountsOf(restated.net, production.net)
    case DailyGenerationMix => CountsOf(restated.daily, production.daily)
  }

  function Size(table: Table, b: Build): nat {
    match table
    case GenerationVersions => |b.versions|
    case PeriodGenerationNet => |b.net|
    case DailyGenerationMix => |b.daily|
  }

  /** The left side of every table is the rebuild, the right side production. */
  lemma Sides(table: Table, restated: Build, production: Build)
    ensures var c := TableCounts(table, restated, production);
            c.left == Size(table, restated) && c.right == Size(table, production)
  {
  }

  method Compare(restated: Build, production: Build, w: DayRange) returns (results: map<Table, Counts>)
    ensures results.Keys == {GenerationVersions, PeriodGenerationNet, DailyGenerationMix}
    ensures forall t :: t in results ==> results[t] == TableCounts(t, Confined(restated, w), Confined(production, w))
  {
    results := map[];
    for i := 0 to |COMPARED|
      invariant results.Keys == set t | t in COMPARED[..i]
      invariant forall t :: t in results ==>
                  results[t] == TableCounts(t, Confined(restated, w), Confined(production, w))
    {
      results := results[COMPARED[i] := TableCounts(COMPARED[i], Confined(restated, w), Confined(production, w))];
    }
    assert COMPARED[..|COMPARED|] == COMPARED;
    assert COMPARED[0] == GenerationVersions && COMPARED[1] == PeriodGenerationNet && COMPARED[2] == DailyGenerationMix;
  }

  /** The tables where the rebuild did not land on production. */
  function Differences(results: map<Table, Counts>): seq<Table> {
    Filter(COMPARED, (t: Table) => t in results && !Identical(results[t]))
  }

  lemma WithinTwice(rows: seq<Row>, w: Interval)
    ensures Within(Within(rows, w), w) == Within(rows, w)
  {
    FilterAll(Within(rows, w), (r: Row) => w.Holds(r.key.validTime));
  }

  lemma CurrentWithin(versions: seq<Version>, w: Interval)
    ensures Filter(Current(versions), (v: Version) => VersionIn(v, w))
            == Current(Filter(versions, (v: Version) => VersionIn(v, w)))
  {
    var now, inside := (v: Version) => v.knownTo.None?, (v: Version) => VersionIn(v, w);
    FilterFilter(versions, now, inside, (v: Version) => v.knownTo.None? && VersionIn(v, w));
    FilterFilter(versions, inside, now, (v: Version) => v.knownTo.None? && VersionIn(v, w));
  }

  lemma EnergiesPushdown(net: seq<Sum<Period>>, w: DayRange, keep: Sum<Period> -> bool)
    requires forall r :: r in net ==> (keep(r) <==> DayIn(DayOf(r), w))
    ensures Filter(Energies(net), (e: Sum<DayType>) => DayIn(e.group, w)) == Energies(Filter(net, keep))
  {
    var inside := (e: Sum<DayType>) => DayIn(e.group, w);
    MinutesPushdown(net, keep, (g: DayType) => DayIn(g, w), inside);
    FilterMap(DayMinutes(net), Quotient, inside, inside);
  }

  lemma JoinedPushdown(energies: seq<Sum<DayType>>, w: DayRange)
    ensures Filter(Joined(energies), (d: DailyRow) => DayIn(d.group, w))
            == Joined(Filter(energies, (e: Sum<DayType>) => DayIn(e.group, w)))
  {
    var inside := (e: Sum<DayType>) => DayIn(e.group, w);
    var kept := Filter(energies, inside);
    FilterMap(energies, e => DailyRowOf(energies, e), (d: DailyRow) => DayIn(d.group, w), inside);
    forall e | e in kept ensures DailyRowOf(energies, e) == DailyRowOf(kept, e) {
      var up := (x: Sum<DayType>) => InDay(x.group, e.group.zone, e.group.settlementDay) && x.total > 0;
      FilterFilter(energies, inside, up, up);
    }
  }

  /** Grouping by period commutes with the window; the settlement-day filter then selects the same groups. */
  lemma NetPushdown(z: Zone, versions: seq<Version>, w: DayRange)
    requires MidnightSafe(z) && IsRange(z, w)
    requires forall v :: v in versions ==> v.settlementDay == LocalDate(z, v.row.key.validTime)
    ensures Filter(PeriodNet(versions), (r: Sum<Period>) => PeriodIn(r, w.interval))
            == PeriodNet(Filter(versions, (v: Version) => VersionIn(v, w.interval)))
    ensures forall r :: r in PeriodNet(versions) ==> (PeriodIn(r, w.interval) <==> DayIn(DayOf(r), w))
  {
    PeriodPushdown(versions, (v: Version) => VersionIn(v, w.interval), (g: Period) => w.interval.Holds(g.validTime),
                   (r: Sum<Period>) => PeriodIn(r, w.interval));
    forall r | r in PeriodNet(versions) ensures PeriodIn(r, w.interval) <==> DayIn(DayOf(r), w) {
      PeriodInDay(z, versions, w, r);
    }
  }

  /** On a group, the valid_time window and the settlement-day range are one filter. */
  lemma PeriodInDay(z: Zone, versions: seq<Version>, w: DayRange, r: Sum<Period>)
    requires MidnightSafe(z) && IsRange(z, w) && r in PeriodNet(versions)
    requires forall v :: v in versions ==> v.settlementDay == LocalDate(z, v.row.key.validTime)
    ensures PeriodIn(r, w.interval) <==> DayIn(DayOf(r), w)
  {
    var v := NetSource(versions, r);
    RangeDays(z, w, v.row.key.validTime);
    assert r.group.validTime == v.row.key.validTime && r.group.settlementDay == v.settlementDay;
  }

  lemma RangeDays(z: Zone, w: DayRange, t: int)
    requires MidnightSafe(z) && IsRange(z, w)
    ensures w.interval.Holds(t) <==> w.first <= LocalDate(z, t) <= w.last
  {
    SettlementRange(z, w.first, w.last, t);
  }

  lemma SilverPushdown(z: Zone, rows: seq<Row>, w: Interval)
    requires Unique(rows)
    ensures Filter(Current(Versions(z, rows)), (v: Version) => VersionIn(v, w)) == Current(Versions(z, Within(rows, w)))
    ensures Filter(Versions(z, rows), (v: Version) => VersionIn(v, w)) == Versions(z, Within(rows, w))
  {
    VersionsWithin(z, rows, w);
    FilterCongruence(Versions(z, rows), (v: Version) => VersionIn(v, w), (v: Version) => w.Holds(v.row.key.validTime));
    CurrentWithin(Versions(z, rows), w);
  }

  /** The window commutes with the whole build: cutting bronze first is cutting each finished table. */
  lemma BuildPushdown(z: Zone, rows: seq<Row>, w: DayRange)
    requires Unique(rows) && MidnightSafe(z) && IsRange(z, w)
    ensures Confined(BuildFrom(z, rows), w) == BuildFrom(z, Within(rows, w.interval))
  {
    var current := Current(Versions(z, rows));
    SilverPushdown(z, rows, w.interval);
    DerivedDays(z, rows);
    NetPushdown(z, current, w);
    MixPushdown(PeriodNet(current), w);
  }

  lemma DerivedDays(z: Zone, rows: seq<Row>)
    ensures forall v :: v in Versions(z, rows) ==> v.settlementDay == LocalDate(z, v.row.key.validTime)
  {
  }

  lemma MixPushdown(net: seq<Sum<Period>>, w: DayRange)
    requires forall r :: r in net ==> (PeriodIn(r, w.interval) <==> DayIn(DayOf(r), w))
    ensures Filter(DailyMix(net), (d: DailyRow) => DayIn(d.group, w))
            == DailyMix(Filter(net, (r: Sum<Period>) => PeriodIn(r, w.interval)))
  {
    EnergiesPushdown(net, w, (r: Sum<Period>) => PeriodIn(r, w.interval));
    JoinedPushdown(Energies(net), w);
  }

  lemma EnergiesSame(a: seq<Sum<Period>>, b: seq<Sum<Period>>)
    requires Distinct(a) && Distinct(b) && Same(a, b)
    ensures Same(Energies(a), Energies(b)) && Distinct(Energies(a))
    ensures forall i, j :: 0 <= i < j < |Energies(a)| ==> Energies(a)[i].group != Energies(a)[j].group
  {
    GroupSumSame(a, b, DayOf, Minutes);
    MapInclude(DayMinutes(a), DayMinutes(b), Quotient);
    MapInclude(DayMinutes(b), DayMinutes(a), Quotient);
  }

  lemma MapInclude<T(!new), U(!new)>(a: seq<T>, b: seq<T>, f: T -> U)
    requires forall x :: x in a ==> x in b
    ensures forall y :: y in Map(a, f) ==> y in Map(b, f)
  {
    forall y | y in Map(a, f) ensures y in Map(b, f) {
      var i :| 0 <= i < |a| && Map(a, f)[i] == y;
      assert a[i] in a;
      var j :| 0 <= j < |b| && b[j] == a[i];
      assert Map(b, f)[j] == y;
    }
  }

  lemma JoinedSame(a: seq<Sum<DayType>>, b: seq<Sum<DayType>>)
    requires Distinct(a) && Distinct(b) && Same(a, b)
    ensures Same(Joined(a), Joined(b))
  {
    var row := e => DailyRowOf(a, e);
    forall e ensures DailyRowOf(a, e) == DailyRowOf(b, e) {
      GrossSame(a, b, e.group.zone, e.group.settlementDay);
    }
    MapInclude(a, b, row);
    MapInclude(b, a, row);
    assert Joined(a) == Map(a, row) && Joined(b) == Map(b, row);
  }

  lemma GrossSame(a: seq<Sum<DayType>>, b: seq<Sum<DayType>>, zone: string, day: int)
    requires Distinct(a) && Distinct(b) && Same(a, b)
    ensures Gross(a, zone, day) == Gross(b, zone, day)
  {
    var up := (e: Sum<DayType>) => InDay(e.group, zone, day) && e.total > 0;
    FilterDistinct(a, up);
    FilterDistinct(b, up);
    DistinctSameBag(Filter(a, up), Filter(b, up));
    SumAnyOrder(Filter(a, up), Filter(b, up), Total);
  }

  /** A build depends only on which rows bronze holds: two builds of the same rows differ in no table. */
  lemma BuildSame(z: Zone, a: seq<Row>, b: seq<Row>)
    requires Unique(a) && Unique(b) && Same(a, b)
    ensures var x, y := BuildFrom(z, a), BuildFrom(z, b);
            Same(x.versions, y.versions) && Same(x.net, y.net) && Same(x.daily, y.daily)
  {
    var x, y := BuildFrom(z, a), BuildFrom(z, b);
    VersionsSame(z, a, b);
    VersionsSame(z, b, a);
    FilterDistinct(x.versions, (v: Version) => v.knownTo.None?);
    FilterDistinct(y.versions, (v: Version) => v.knownTo.None?);
    GroupSumSame(Current(x.versions), Current(y.versions), PeriodOf, Signed);
    EnergiesSame(x.net, y.net);
    EnergiesSame(y.net, x.net);
    JoinedSame(Energies(x.net), Energies(y.net));
  }

  lemma BuildDistinct(z: Zone, rows: seq<Row>)
    requires Unique(rows)
    ensures var x := BuildFrom(z, rows); Distinct(x.versions) && Distinct(x.net) && Distinct(x.daily)
  {
    VersionsSame(z, rows, rows);
    EnergiesSame(BuildFrom(z, rows).net, BuildFrom(z, rows).net);
  }

  /** Two builds of duplicate-free bronze agree in every table exactly when they read the same rows. */
  lemma BuildsIdenticalExact(z: Zone, a: seq<Row>, b: seq<Row>)
    requires Unique(a) && Unique(b)
    ensures var x, y := BuildFrom(z, a), BuildFrom(z, b);
            && (Identical(CountsOf(x.versions, y.versions)) <==> Same(a, b))
            && (Same(a, b) ==> Identical(CountsOf(x.net, y.net)) && Identical(CountsOf(x.daily, y.daily)))
  {
    var x, y := BuildFrom(z, a), BuildFrom(z, b);
    BuildDistinct(z, a);
    BuildDistinct(z, b);
    VersionsSame(z, a, b);
    DistinctIdentical(x.versions, y.versions);
    if Same(a, b) {
      BuildSame(z, a, b);
      DistinctIdentical(x.net, y.net);
      DistinctIdentical(x.daily, y.daily);
    }
  }

  lemma ClockTablesUnique(snapshot: seq<Row>, bronze: seq<Row>, asOf: int, w: Interval)
    requires Unique(snapshot) && Unique(bronze)
    ensures Unique(Within(snapshot, w)) && Unique(Within(Bounded(bronze, asOf), w))
  {
    UniqueFilter(bronze, (r: Row) => r.knownAt <= asOf);
    UniqueFilter(Bounded(bronze, asOf), (r: Row) => w.Holds(r.key.validTime));
    UniqueFilter(snapshot, (r: Row) => w.Holds(r.key.validTime));
  }

  /** Confining the audit's build changes nothing: it was built from the window alone. */
  lemma RestatedConfined(z: Zone, bronze: seq<Row>, asOf: int, w: DayRange)
    requires Unique(Within(Bounded(bronze, asOf), w.interval)) && MidnightSafe(z) && IsRange(z, w)
    ensures Confined(Restated(z, bronze, asOf, w.interval), w) == Restated(z, bronze, asOf, w.interval)
  {
    BuildPushdown(z, Within(Bounded(bronze, asOf), w.interval), w);
    WithinTwice(Bounded(bronze, asOf), w.interval);
  }

  lemma TablesCompared(x: Build, y: Build, results: map<Table, Counts>, same: bool)
    requires forall t :: t in results && results[t] == TableCounts(t, x, y)
    requires Identical(CountsOf(x.versions, y.versions)) <==> same
    requires same ==> Identical(CountsOf(x.net, y.net)) && Identical(CountsOf(x.daily, y.daily))
    ensures Differences(results) == [] <==> same
  {
    DifferencesExact(results);
    assert results[GenerationVersions] == TableCounts(GenerationVersions, x, y);
    assert results[PeriodGenerationNet] == TableCounts(PeriodGenerationNet, x, y);
    assert results[DailyGenerationMix] == TableCounts(DailyGenerationMix, x, y);
  }

  /** Comparing two whole builds table by table comes down to comparing the rows they were built from. */
  lemma BuildsCompared(z: Zone, a: seq<Row>, b: seq<Row>, results: map<Table, Counts>)
    requires Unique(a) && Unique(b)
    requires forall t :: t in results && results[t] == TableCounts(t, BuildFrom(z, a), BuildFrom(z, b))
    ensures Differences(results) == [] <==> Same(a, b)
  {
    BuildsIdenticalExact(z, a, b);
    TablesCompared(BuildFrom(z, a), BuildFrom(z, b), results, Same(a, b));
  }

  lemma RowsCompared(a: seq<Row>, b: seq<Row>)
    requires Unique(a) && Unique(b)
    ensures Identical(CountsOf(a, b)) <==> Same(b, a)
  {
    UniqueDistinct(a);
    UniqueDistinct(b);
    DistinctIdentical(a, b);
  }

  /**
   * The audit passes exactly when the clock check does. Where snapshot and known_at bound agree on
   * the window, the bounded, windowed rebuild lands on production in every row of every table; and
   * a rebuild that lands on production means the two clocks agree.
   */
  lemma AuditExact(z: Zone, snapshot: seq<Row>, bronze: seq<Row>, asOf: int, w: DayRange, results: map<Table, Counts>)
    requires Unique(snapshot) && Unique(bronze) && MidnightSafe(z) && IsRange(z, w)
    requires var restated, production := Restated(z, bronze, asOf, w.interval), BuildFrom(z, snapshot);
             forall t :: t in results && results[t] == TableCounts(t, Confined(restated, w), Confined(production, w))
    ensures Differences(results) == [] <==> Identical(Clocks(snapshot, bronze, asOf, w.interval))
  {
    var read, bounded := Within(snapshot, w.interval), Within(Bounded(bronze, asOf), w.interval);
    ClockTablesUnique(snapshot, bronze, asOf, w.interval);
    RestatedConfined(z, bronze, asOf, w);
    BuildPushdown(z, snapshot, w);
    BuildsCompared(z, bounded, read, results);
    RowsCompared(read, bounded);
  }

  /** The report lists exactly the tables that differ, once each. */
  lemma DifferencesExact(results: map<Table, Counts>)
    requires forall t :: t in results
    ensures forall t :: t in Differences(results) <==> !Identical(results[t])
    ensures Distinct(Differences(results))
    ensures Differences(results) == []
            <==> && Identical(results[GenerationVersions]) && Identical(results[PeriodGenerationNet])
                 && Identical(results[DailyGenerationMix])
  {
    var differs := (t: Table) => t in results && !Identical(results[t]);
    FilterDistinct(COMPARED, differs);
    assert COMPARED[0] == GenerationVersions && COMPARED[1] == PeriodGenerationNet && COMPARED[2] == DailyGenerationMix;
    forall t ensures t in COMPARED {
      match t { case GenerationVersions => case PeriodGenerationNet => case DailyGenerationMix => }
    }
    forall t ensures t in Differences(results) <==> !Identical(results[t]) {
      assert t in COMPARED && (t in Differences(results) <==> differs(t));
    }
    if Identical(results[GenerationVersions]) && Identical(results[PeriodGenerationNet])
       && Identical(results[DailyGenerationMix]) {
      FilterNone(COMPARED, differs);
    }
  }

  /** What the bound and the window leave of a table that only grew since the snapshot. */
  lemma ClockTables(snapshot: seq<Row>, later: seq<Row>, asOf: int, w: Interval)
    ensures Within(Bounded(snapshot + later, asOf), w)
            == Within(Bounded(snapshot, asOf), w) + Within(Bounded(later, asOf), w)
  {
    FilterConcat(snapshot, later, (r: Row) => r.knownAt <= asOf);
    FilterConcat(Bounded(snapshot, asOf), Bounded(later, asOf), (r: Row) => w.Holds(r.key.validTime));
  }

  /** Everything in the window was known by the bound. */
  predicate KnownBy(rows: seq<Row>, asOf: int, w: Interval) {
    forall r :: r in rows && w.Holds(r.key.validTime) ==> r.knownAt <= asOf
  }

  /** Everything in the window became known after the bound. */
  predicate KnownAfter(rows: seq<Row>, asOf: int, w: Interval) {
    forall r :: r in rows && w.Holds(r.key.validTime) ==> r.knownAt > asOf
  }

  lemma KnownByKeepsAll(rows: seq<Row>, asOf: int, w: Interval)
    requires KnownBy(rows, asOf, w)
    ensures Within(Bounded(rows, asOf), w) == Within(rows, w)
  {
    FilterFilter(rows, (r: Row) => r.knownAt <= asOf, (r: Row) => w.Holds(r.key.validTime),
                 (r: Row) => w.Holds(r.key.validTime));
  }

  lemma KnownAfterKeepsNone(rows: seq<Row>, asOf: int, w: Interval)
    ensures Within(Bounded(rows, asOf), w) == [] <==> KnownAfter(rows, asOf, w)
  {
    var kept := Within(Bounded(rows, asOf), w);
    if kept == [] {
      forall r | r in rows && w.Holds(r.key.validTime) ensures r.knownAt > asOf {
        assert r !in kept;
      }
    } else {
      assert kept[0] in kept;
    }
  }

  /**
   * When the clocks agree, in terms of when rows were committed: everything production read was known
   * by the bound, and everything committed since became known after it. A backfill stamped earlier
   * than production's bound is the second clause failing. No uniqueness is needed, because bronze only
   * grows: counts and EXCEPT together establish that both clocks select the same rows, in the same places
   * and as often.
   */
  lemma ClocksAgreeExact(snapshot: seq<Row>, later: seq<Row>, asOf: int, w: Interval)
    ensures Identical(Clocks(snapshot, snapshot + later, asOf, w))
            <==> KnownBy(snapshot, asOf, w) && KnownAfter(later, asOf, w)
    ensures Identical(Clocks(snapshot, snapshot + later, asOf, w))
            <==> Within(Bounded(snapshot + later, asOf), w) == Within(snapshot, w)
  {
    var read, bounded := Within(snapshot, w), Within(Bounded(snapshot + later, asOf), w);
    IdenticalExact(read, bounded);
    ClockTables(snapshot, later, asOf, w);
    KnownAfterKeepsNone(later, asOf, w);
    if Same(read, bounded) {
      SelectedAreKnown(snapshot, later, asOf, w);
    }
    if KnownBy(snapshot, asOf, w) {
      KnownByKeepsAll(snapshot, asOf, w);
    }
  }

  lemma SelectedAreKnown(snapshot: seq<Row>, later: seq<Row>, asOf: int, w: Interval)
    requires Same(Within(snapshot, w), Within(Bounded(snapshot + later, asOf), w))
    ensures KnownBy(snapshot, asOf, w)
  {
    forall r | r in snapshot && w.Holds(r.key.validTime) ensures r.knownAt <= asOf {
      assert r in Within(snapshot, w);
    }
  }
}
