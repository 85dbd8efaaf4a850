/** What the whole build publishes, in terms of bronze's rows alone: the newest version of each period, once. */
module Marts {
  import opened Prelude
  import opened TimeAxis
  import opened Records
  import opened Bronze
  import opened Refinement
  import opened Silver
  import opened Gold
  import opened Restatement

  /** The newest version held of every series and period. */
  function NewestRows(rows: seq<Row>): seq<Row> { Filter(rows, (r: Row) => Newest(rows, r.key) == Some(r)) }

  /** Each series and period is there once. */
  lemma NewestOnce(rows: seq<Row>)
    requires Unique(rows)
    ensures var newest := NewestRows(rows); forall i, j :: 0 <= i < j < |newest| ==> newest[i].key != newest[j].key
    ensures forall r :: r in rows ==> exists x :: x in NewestRows(rows) && x.key == r.key
  {
    var newest := NewestRows(rows);
    UniqueDistinct(rows);
    FilterDistinct(rows, (r: Row) => Newest(rows, r.key) == Some(r));
    forall i, j | 0 <= i < j < |newest| ensures newest[i].key != newest[j].key {
      assert newest[i] in newest && newest[j] in newest;
    }
    forall r | r in rows ensures exists x :: x in newest && x.key == r.key {
      assert Newest(rows, r.key).value in newest;
    }
  }

  lemma LastIsNewest(rows: seq<Row>, r: Row)
    requires Unique(rows) && r in rows
    ensures NextKnown(rows, r.key, r.knownAt).None? <==> Newest(rows, r.key) == Some(r)
  {
    UniqueDistinct(rows);
    var x := Newest(rows, r.key).value;
    assert x.knownAt == r.knownAt ==> SameIdentity(x, r);
  }

  /** Rows with the columns staging derives, none of them superseded. */
  function Published(z: Zone, rows: seq<Row>): seq<Version> { Map(rows, (r: Row) => Derived(z, r, None)) }

  /** The current table is the newest rows, each with no end to its interval. */
  lemma CurrentIsNewest(z: Zone, rows: seq<Row>)
    requires Unique(rows)
    ensures Current(Versions(z, rows)) == Published(z, NewestRows(rows))
  {
    var last := (r: Row) => NextKnown(rows, r.key, r.knownAt).None?;
    VersionsByRow(z, rows);
    FilterMap(rows, (r: Row) => VersionOf(z, rows, r), (v: Version) => v.knownTo.None?, last);
    forall r | r in rows ensures last(r) <==> Newest(rows, r.key) == Some(r) {
      LastIsNewest(rows, r);
    }
    FilterCongruence(rows, last, (r: Row) => Newest(rows, r.key) == Some(r));
  }

  lemma DerivedIsDerivable(z: Zone, rows: seq<Row>)
    ensures Derivable(Published(z, rows))
  {
  }

  function RowPower(r: Row): int { r.value.quantity }

  function RowMinutes(r: Row): int { r.value.quantity * r.resolutionMinutes }

  /** What the selected rows of one direction amount to, each row once. */
  function RowsFlowing(rows: seq<Row>, which: Row -> bool, direction: Direction, each: Row -> int): int {
    SumSeq(Filter(rows, (r: Row) => which(r) && r.key.direction == direction), each)
  }

  /** What the selected rows generated less what they consumed, power times minutes. */
  function NetMinutes(rows: seq<Row>, which: Row -> bool): int {
    RowsFlowing(rows, which, Generation, RowMinutes) - RowsFlowing(rows, which, Consumption, RowMinutes)
  }

  /** The same in power. */
  function NetPower(rows: seq<Row>, which: Row -> bool): int {
    RowsFlowing(rows, which, Generation, RowPower) - RowsFlowing(rows, which, Consumption, RowPower)
  }

  lemma FlowOfRows(z: Zone, rows: seq<Row>, which: Version -> bool, mine: Row -> bool, direction: Direction,
                   amount: Version -> int, each: Row -> int)
    requires forall r :: which(Derived(z, r, None)) <==> mine(r)
    requires forall r :: amount(Derived(z, r, None)) == each(r)
    ensures Flowing(Published(z, rows), which, direction, amount)
            == RowsFlowing(rows, mine, direction, each)
  {
    var derive := (r: Row) => Derived(z, r, None);
    FilterMap(rows, derive, (v: Version) => which(v) && v.row.key.direction == direction,
              (r: Row) => mine(r) && r.key.direction == direction);
    SumMap(Filter(rows, (r: Row) => mine(r) && r.key.direction == direction), derive, amount, each);
  }

  /** A row of that zone, settlement day and type. */
  function OfDay(z: Zone, zone: string, day: int, productionType: string): Row -> bool {
    (r: Row) => r.key.zone == zone && LocalDate(z, r.key.validTime) == day && r.key.productionType == productionType
  }

  lemma NetMinutesOfRows(z: Zone, rows: seq<Row>, which: Version -> bool, mine: Row -> bool)
    requires forall r :: which(Derived(z, r, None)) <==> mine(r)
    ensures NetFlow(Published(z, rows), which, Reported) == NetMinutes(rows, mine)
    ensures Filter(Published(z, rows), which) == [] <==> Filter(rows, mine) == []
  {
    FilterMap(rows, (r: Row) => Derived(z, r, None), which, mine);
    FlowOfRows(z, rows, which, mine, Generation, Reported, RowMinutes);
    FlowOfRows(z, rows, which, mine, Consumption, Reported, RowMinutes);
  }

  lemma NetPowerOfRows(z: Zone, rows: seq<Row>, which: Version -> bool, mine: Row -> bool)
    requires forall r :: which(Derived(z, r, None)) <==> mine(r)
    ensures NetFlow(Published(z, rows), which, Power) == NetPower(rows, mine)
    ensures Filter(Published(z, rows), which) == [] <==> Filter(rows, mine) == []
  {
    FilterMap(rows, (r: Row) => Derived(z, r, None), which, mine);
    FlowOfRows(z, rows, which, mine, Generation, Power, RowPower);
    FlowOfRows(z, rows, which, mine, Consumption, Power, RowPower);
  }

  /**
   * The energy the build publishes for a zone, settlement day and type is that of the newest version of each of
   * its own periods, generation less consumption, each once. There is exactly one such row where bronze has any
   * period of it, and none elsewhere.
   */
  lemma BuildEnergyExact(z: Zone, rows: seq<Row>, zone: string, day: int, productionType: string)
    requires Unique(rows)
    ensures var mine := OfDay(z, zone, day, productionType);
            var published := TypeRows(BuildFrom(z, rows).daily, zone, day, productionType);
            if Filter(NewestRows(rows), mine) == [] then published == []
            else |published| == 1 && IsEnergyOf(published[0].energy, NetMinutes(NewestRows(rows), mine))
  {
    CurrentIsNewest(z, rows);
    DerivedIsDerivable(z, NewestRows(rows));
    TypeEnergyExact(Published(z, NewestRows(rows)), zone, day, productionType);
    NetMinutesOfRows(z, NewestRows(rows), (v: Version) => OfType(v, zone, day, productionType),
                     OfDay(z, zone, day, productionType));
  }

  /** A row of that zone, instant, type and resolution. */
  function OfGrain(zone: string, at: int, productionType: string, resolution: int): Row -> bool {
    (r: Row) => && r.key.zone == zone && r.key.validTime == at
         && r.key.productionType == productionType && r.resolutionMinutes == resolution
  }

  /** The same for net power per period. */
  lemma BuildNetExact(z: Zone, rows: seq<Row>, zone: string, at: int, productionType: string, resolution: int)
    requires Unique(rows)
    ensures var mine := OfGrain(zone, at, productionType, resolution);
            var published := NetRows(BuildFrom(z, rows).net, zone, at, productionType, resolution);
            if Filter(NewestRows(rows), mine) == [] then published == []
            else |published| == 1 && published[0].total == NetPower(NewestRows(rows), mine)
  {
    CurrentIsNewest(z, rows);
    DerivedIsDerivable(z, NewestRows(rows));
    PeriodNetExact(Published(z, NewestRows(rows)), zone, at, productionType, resolution);
    NetPowerOfRows(z, NewestRows(rows), (v: Version) => OfPeriod(v, zone, at, productionType, resolution),
                   OfGrain(zone, at, productionType, resolution));
  }

  /** Over all types, a day's minutes are those of the newest version of each of its periods. */
  lemma BuildDayConserves(z: Zone, rows: seq<Row>, zone: string, day: int)
    requires Unique(rows)
    ensures SumSeq(DayTypes(BuildFrom(z, rows).net, zone, day), Total)
            == NetMinutes(NewestRows(rows), (r: Row) => r.key.zone == zone && LocalDate(z, r.key.validTime) == day)
  {
    CurrentIsNewest(z, rows);
    DayConserves(Published(z, NewestRows(rows)), zone, day);
    NetMinutesOfRows(z, NewestRows(rows), OfZoneDay(zone, day),
                     (r: Row) => r.key.zone == zone && LocalDate(z, r.key.validTime) == day);
  }

  predicate IsStorageType(productionType: string) { productionType == "B10" || productionType == "B25" }

  lemma VersionsMarked(z: Zone, rows: seq<Row>)
    ensures forall v :: v in Versions(z, rows) ==> (v.isStorage <==> IsStorageType(v.row.key.productionType))
  {
    forall v | v in Versions(z, rows) ensures v.isStorage <==> IsStorageType(v.row.key.productionType) {
      var i :| 0 <= i < |rows| && Versions(z, rows)[i] == v;
    }
  }

  lemma NetMarked(current: seq<Version>)
    requires forall v :: v in current ==> (v.isStorage <==> IsStorageType(v.row.key.productionType))
    ensures forall r :: r in PeriodNet(current) ==> (r.group.isStorage <==> IsStorageType(r.group.productionType))
  {
    forall r | r in PeriodNet(current) ensures r.group.isStorage <==> IsStorageType(r.group.productionType) {
      var v := NetSource(current, r);
    }
  }

  lemma MixMarked(net: seq<Sum<Period>>)
    requires forall r :: r in net ==> (r.group.isStorage <==> IsStorageType(r.group.productionType))
    ensures forall d :: d in DailyMix(net) ==> (d.group.isStorage <==> IsStorageType(d.group.productionType))
  {
    forall d | d in DailyMix(net) ensures d.group.isStorage <==> IsStorageType(d.group.productionType) {
      var r := MixSource(net, d);
    }
  }

  /** Pumped storage and batteries are marked as storage in every table, and nothing else is. */
  lemma StorageMarked(z: Zone, rows: seq<Row>)
    ensures var build := BuildFrom(z, rows);
            && (forall v :: v in build.versions ==> (v.isStorage <==> IsStorageType(v.row.key.productionType)))
            && (forall r :: r in build.net ==> (r.group.isStorage <==> IsStorageType(r.group.productionType)))
            && forall d :: d in build.daily ==> (d.group.isStorage <==> IsStorageType(d.group.productionType))
  {
    VersionsMarked(z, rows);
    NetMarked(Current(Versions(z, rows)));
    MixMarked(BuildFrom(z, rows).net);
  }

  /** Every mart row comes from a netted one. */
  lemma MixSource(net: seq<Sum<Period>>, d: DailyRow) returns (r: Sum<Period>)
    requires d in DailyMix(net)
    ensures r in net && DayOf(r) == d.group
  {
    var energies := Energies(net);
    var i :| 0 <= i < |energies| && DailyMix(net)[i] == d;
    var minutes := DayMinutes(net)[i];
    assert minutes in DayMinutes(net);
    GroupSumRow(net, DayOf, Gold.Minutes, minutes);
    r :| r in net && DayOf(r) == minutes.group;
  }

  /** Two tables with the same newest rows publish the same net power and the same daily energies. */
  lemma NewestDecides(z: Zone, a: seq<Row>, b: seq<Row>)
    requires Unique(a) && Unique(b) && NewestRows(a) == NewestRows(b)
    ensures BuildFrom(z, a).net == BuildFrom(z, b).net && BuildFrom(z, a).daily == BuildFrom(z, b).daily
  {
    CurrentIsNewest(z, a);
    CurrentIsNewest(z, b);
  }

  lemma NewestWithout(rows: seq<Row>, s: Row, key: Key)
    requires Unique(rows) && s in rows && Newest(rows, s.key) != Some(s)
    ensures Newest(Filter(rows, (r: Row) => r != s), key) == Newest(rows, key)
  {
    var rest := Filter(rows, (r: Row) => r != s);
    UniqueDistinct(rows);
    var x, y := Newest(rows, key), Newest(rest, key);
    if x.Some? {
      assert x.value in rest;
      assert SameIdentity(x.value, y.value);
    }
  }

  /** A superseded version shows in neither mart. */
  lemma SupersededUnseen(z: Zone, rows: seq<Row>, s: Row)
    requires Unique(rows) && s in rows && Newest(rows, s.key) != Some(s)
    ensures var without := BuildFrom(z, Filter(rows, (r: Row) => r != s));
            without.net == BuildFrom(z, rows).net && without.daily == BuildFrom(z, rows).daily
  {
    var rest := Filter(rows, (r: Row) => r != s);
    UniqueFilter(rows, (r: Row) => r != s);
    forall r | r in rest ensures Newest(rest, r.key) == Some(r) <==> Newest(rows, r.key) == Some(r) {
      NewestWithout(rows, s, r.key);
    }
    forall r | r in rows ensures Newest(rows, r.key) == Some(r) <==> r != s && Newest(rest, r.key) == Some(r) {
      NewestWithout(rows, s, r.key);
    }
    FilterFilter(rows, (r: Row) => r != s, (r: Row) => Newest(rest, r.key) == Some(r),
                 (r: Row) => Newest(rows, r.key) == Some(r));
    NewestDecides(z, rest, rows);
  }
}
