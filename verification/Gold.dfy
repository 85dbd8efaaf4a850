/** Net power per period and energy per settlement day, in exact integers. */
module Gold {
  import opened Prelude
  import opened TimeAxis
  import opened Records
  import opened Silver

  datatype Period = Period(
    zone: string, validTime: int, settlementDay: int, productionType: string, isStorage: bool, resolutionMinutes: int)

  function PeriodOf(v: Version): Period {
    Period(v.row.key.zone, v.row.key.validTime, v.settlementDay, v.row.key.productionType, v.isStorage,
           v.row.resolutionMinutes)
  }

  /** Thousandths of a MW, with consumption negated. */
  function Signed(v: Version): int {
    if v.row.key.direction == Generation then v.row.value.quantity else -v.row.value.quantity
  }

  function PeriodNet(current: seq<Version>): seq<Sum<Period>> { GroupSum(current, PeriodOf, Signed) }

  datatype DayType = DayType(zone: string, settlementDay: int, productionType: string, isStorage: bool)

  function DayOfPeriod(g: Period): DayType { DayType(g.zone, g.settlementDay, g.productionType, g.isStorage) }

  function DayOf(r: Sum<Period>): DayType { DayOfPeriod(r.group) }

  /** net_mw * resolution_minutes, in thousandths of a MW minute. */
  function Minutes(r: Sum<Period>): int { r.total * r.group.resolutionMinutes }

  function DayMinutes(net: seq<Sum<Period>>): seq<Sum<DayType>> { GroupSum(net, DayOf, Minutes) }

  /** A decimal quotient at a fixed scale: nearest, halves away from zero. */
  function RoundedQuotient(n: int, d: int): int
    requires d > 0
  {
    if n >= 0 then (2 * n + d) / (2 * d) else -((-2 * n + d) / (2 * d))
  }

  /** cast(minutes as decimal(38, 6)) / 60: thousandths of a MW minute to millionths of a MWh. */
  function Energy(minutes: int): int { RoundedQuotient(1000 * minutes, 60) }

  function Quotient<G>(r: Sum<G>): Sum<G> { Sum(r.group, Energy(r.total)) }

  function Energies(net: seq<Sum<Period>>): seq<Sum<DayType>> { Map(DayMinutes(net), Quotient) }

  predicate InDay(g: DayType, zone: string, day: int) { g.zone == zone && g.settlementDay == day }

  function Total<G>(r: Sum<G>): int { r.total }

  function Contributors(energies: seq<Sum<DayType>>, zone: string, day: int): seq<Sum<DayType>> {
    Filter(energies, (e: Sum<DayType>) => InDay(e.group, zone, day) && e.total > 0)
  }

  /** sum(case when energy_mwh > 0 then energy_mwh end): null when nothing is positive. */
  function Gross(energies: seq<Sum<DayType>>, zone: string, day: int): Option<int> {
    var up := Contributors(energies, zone, day);
    if up == [] then None else Some(SumSeq(up, Total))
  }

  /** An unreduced quotient of two energies. */
  datatype Ratio = Ratio(numerator: int, divisor: int)

  function Share(energy: int, gross: Option<int>): Option<Ratio> {
    if energy > 0 && gross.Some? then Some(Ratio(energy, gross.value)) else None
  }

  datatype DailyRow = DailyRow(group: DayType, energy: int, gross: Option<int>, share: Option<Ratio>)

  function DailyRowOf(energies: seq<Sum<DayType>>, e: Sum<DayType>): DailyRow {
    var gross := Gross(energies, e.group.zone, e.group.settlementDay);
    DailyRow(e.group, e.total, gross, Share(e.total, gross))
  }

  function Joined(energies: seq<Sum<DayType>>): seq<DailyRow> {
    Map(energies, e => DailyRowOf(energies, e))
  }

  function DailyMix(net: seq<Sum<Period>>): seq<DailyRow> { Joined(Energies(net)) }

  /**
   * Dividing by 60 at scale six has one nearest answer, there being no halves to treat one way or another.
   * It is never more than a third of a unit out, and exact just when the minutes are a multiple of three.
   */
  lemma EnergyExact(minutes: int, e: int)
    requires 2 * (60 * e - 1000 * minutes) <= 60 && 2 * (1000 * minutes - 60 * e) <= 60
    ensures e == Energy(minutes)
    ensures -20 <= 60 * e - 1000 * minutes <= 20
    ensures 60 * e == 1000 * minutes <==> minutes % 3 == 0
  {
    EnergyResidue(minutes);
  }

  /** How far each daily energy is rounded, in thirds of a unit. */
  function Residue(minutes: int): int { (if minutes % 3 == 1 then 1 else 0) - (if minutes % 3 == 2 then 1 else 0) }

  lemma EnergyResidue(minutes: int)
    ensures 3 * Energy(minutes) == 50 * minutes + Residue(minutes)
  {
    var k, r := minutes / 3, minutes % 3;
    assert minutes == 3 * k + r;
    if minutes >= 0 {
      assert (2000 * minutes + 60) / 120 == 50 * k + (2000 * r + 60) / 120;
    } else {
      assert (-2000 * minutes + 60) / 120 == -50 * k + (-2000 * r + 60) / 120;
    }
  }

  predicate WholeThirds(current: seq<Version>) {
    forall v :: v in current ==> v.row.resolutionMinutes % 3 == 0
  }

  /**
   * At resolutions that are multiples of three minutes no daily energy is rounded at all: any division
   * less than a unit out, truncating ones included, gives the exact quotient.
   */
  lemma DailyEnergyExact(current: seq<Version>, r: Sum<DayType>, e: int)
    requires WholeThirds(current) && r in DayMinutes(PeriodNet(current))
    requires -60 < 60 * e - 1000 * r.total < 60
    ensures e == Energy(r.total) && 60 * e == 1000 * r.total
  {
    var net := PeriodNet(current);
    GroupSumRow(net, DayOf, Minutes, r);
    var rows := Group(net, DayOf, r.group);
    forall x | x in rows ensures Minutes(x) % 3 == 0 {
      GroupSumRow(current, PeriodOf, Signed, x);
      MultipleOfThree(x.total, x.group.resolutionMinutes);
    }
    SumOfMultiples(rows, Minutes);
    EnergyResidue(r.total);
  }

  lemma MultipleOfThree(a: int, b: int)
    requires b % 3 == 0
    ensures (a * b) % 3 == 0
  {
    assert a * b == 3 * (a * (b / 3));
  }

  lemma {:induction false} SumOfMultiples<T>(s: seq<T>, f: T -> int)
    requires forall x :: x in s ==> f(x) % 3 == 0
    ensures SumSeq(s, f) % 3 == 0
  {
    if s == [] {
    } else {
      SumOfMultiples(s[..|s| - 1], f);
    }
  }

  function SignedMinutes(v: Version): int { Signed(v) * v.row.resolutionMinutes }

  lemma PeriodPushdown(
      current: seq<Version>, keep: Version -> bool, keepPeriod: Period -> bool, keepNet: Sum<Period> -> bool)
    requires forall v :: v in current ==> (keep(v) <==> keepPeriod(PeriodOf(v)))
    requires forall r :: keepNet(r) <==> keepPeriod(r.group)
    ensures Filter(PeriodNet(current), keepNet) == PeriodNet(Filter(current, keep))
  {
    GroupPushdown(current, PeriodOf, Signed, keep, keepPeriod, keepNet);
  }

  lemma MinutesPushdown(
      net: seq<Sum<Period>>, keepNet: Sum<Period> -> bool, keepDay: DayType -> bool, keepSum: Sum<DayType> -> bool)
    requires forall r :: r in net ==> (keepNet(r) <==> keepDay(DayOf(r)))
    requires forall r :: keepSum(r) <==> keepDay(r.group)
    ensures Filter(DayMinutes(net), keepSum) == DayMinutes(Filter(net, keepNet))
  {
    GroupPushdown(net, DayOf, Minutes, keepNet, keepDay, keepSum);
  }

  /** Selecting whole days before netting and summing, or after, is the same table. */
  lemma DayPushdown(
      current: seq<Version>, keep: Version -> bool, keepDay: DayType -> bool, keepSum: Sum<DayType> -> bool)
    requires forall v :: v in current ==> (keep(v) <==> keepDay(DayOfPeriod(PeriodOf(v))))
    requires forall r :: keepSum(r) <==> keepDay(r.group)
    ensures Filter(DayMinutes(PeriodNet(current)), keepSum) == DayMinutes(PeriodNet(Filter(current, keep)))
  {
    var keepPeriod := (g: Period) => keepDay(DayOfPeriod(g));
    var keepNet := (r: Sum<Period>) => keepPeriod(r.group);
    PeriodPushdown(current, keep, keepPeriod, keepNet);
    MinutesPushdown(PeriodNet(current), keepNet, keepDay, keepSum);
  }

  lemma MinutesConserve(current: seq<Version>)
    ensures SumSeq(DayMinutes(PeriodNet(current)), Total) == SumSeq(current, SignedMinutes)
  {
    GroupSumConserves(PeriodNet(current), DayOf, Minutes);
    SumCongruence(DayMinutes(PeriodNet(current)), (r: Sum<DayType>) => r.total, Total);
    WeightedGroupsConserve(current, PeriodOf, Signed, (g: Period) => g.resolutionMinutes, Minutes, SignedMinutes);
  }

  /** What a row reports in its own direction, in thousandths of a MW minute. */
  function Reported(v: Version): int { v.row.value.quantity * v.row.resolutionMinutes }

  /** A row of that zone and settlement day. */
  function OfZoneDay(zone: string, day: int): Version -> bool {
    (v: Version) => v.row.key.zone == zone && v.settlementDay == day
  }

  /** What the rows of one direction among those selected amount to. */
  function Flowing(rows: seq<Version>, which: Version -> bool, direction: Direction, amount: Version -> int): int {
    SumSeq(Filter(rows, (v: Version) => which(v) && v.row.key.direction == direction), amount)
  }

  /** What they generated less what they consumed. */
  function NetFlow(rows: seq<Version>, which: Version -> bool, amount: Version -> int): int {
    Flowing(rows, which, Generation, amount) - Flowing(rows, which, Consumption, amount)
  }

  /** Adding amounts with consumption negated is generation less consumption, each row once. */
  lemma NetOfSigned(rows: seq<Version>, which: Version -> bool, amount: Version -> int, signed: Version -> int)
    requires forall v :: signed(v) == if v.row.key.direction == Generation then amount(v) else -amount(v)
    ensures SumSeq(Filter(rows, which), signed) == NetFlow(rows, which, amount)
  {
    var out := (v: Version) => if which(v) && v.row.key.direction == Generation then amount(v) else 0;
    var back := (v: Version) => if which(v) && v.row.key.direction == Consumption then amount(v) else 0;
    var net := (v: Version) => if which(v) then signed(v) else 0;
    SumFiltered(rows, which, signed, net);
    SumFiltered(rows, (v: Version) => which(v) && v.row.key.direction == Generation, amount, out);
    SumFiltered(rows, (v: Version) => which(v) && v.row.key.direction == Consumption, amount, back);
    SumMinus(rows, out, back, net);
  }

  lemma ReportedNet(rows: seq<Version>, which: Version -> bool)
    ensures SumSeq(Filter(rows, which), SignedMinutes) == NetFlow(rows, which, Reported)
  {
    forall v ensures SignedMinutes(v) == if v.row.key.direction == Generation then Reported(v) else -Reported(v) {
      SignedIsReported(v);
    }
    NetOfSigned(rows, which, Reported, SignedMinutes);
  }

  lemma SignedIsReported(v: Version)
    ensures SignedMinutes(v) == if v.row.key.direction == Generation then Reported(v) else -Reported(v)
  {
  }

  /**
   * Nothing is counted twice on the way to a day's energy: over all types it is what the current rows
   * of that zone and day generated minus what they consumed, each row once.
   */
  lemma DayConserves(current: seq<Version>, zone: string, day: int)
    ensures SumSeq(DayTypes(PeriodNet(current), zone, day), Total) == NetFlow(current, OfZoneDay(zone, day), Reported)
  {
    var keep := OfZoneDay(zone, day);
    DayPushdown(current, keep, (g: DayType) => InDay(g, zone, day), (r: Sum<DayType>) => InDay(r.group, zone, day));
    MinutesConserve(Filter(current, keep));
    ReportedNet(current, keep);
  }

  function DayTypes(net: seq<Sum<Period>>, zone: string, day: int): seq<Sum<DayType>> {
    Filter(DayMinutes(net), (r: Sum<DayType>) => InDay(r.group, zone, day))
  }

  /** The columns staging derives are functions of the period and the type. */
  ghost predicate Derivable(current: seq<Version>) {
    && (forall v, u :: v in current && u in current && v.row.key.validTime == u.row.key.validTime
                       ==> v.settlementDay == u.settlementDay)
    && forall v, u :: v in current && u in current && v.row.key.productionType == u.row.key.productionType
                      ==> v.isStorage == u.isStorage
  }

  predicate OfPeriod(v: Version, zone: string, at: int, productionType: string, resolution: int) {
    && v.row.key.zone == zone && v.row.key.validTime == at
    && v.row.key.productionType == productionType && v.row.resolutionMinutes == resolution
  }

  function Power(v: Version): int { v.row.value.quantity }

  /** The netted rows of one zone, instant, type and resolution. */
  function NetRows(net: seq<Sum<Period>>, zone: string, at: int, productionType: string, resolution: int)
    : seq<Sum<Period>>
  {
    Filter(net, (r: Sum<Period>) =>
      && r.group.zone == zone && r.group.validTime == at
      && r.group.productionType == productionType && r.group.resolutionMinutes == resolution)
  }

  /** They are the netting of the current rows of that grain alone. */
  lemma NetRowsPushdown(current: seq<Version>, zone: string, at: int, productionType: string, resolution: int)
    ensures NetRows(PeriodNet(current), zone, at, productionType, resolution)
            == PeriodNet(Filter(current, (v: Version) => OfPeriod(v, zone, at, productionType, resolution)))
  {
    PeriodPushdown(current, (v: Version) => OfPeriod(v, zone, at, productionType, resolution),
                   (g: Period) => && g.zone == zone && g.validTime == at
                                  && g.productionType == productionType && g.resolutionMinutes == resolution,
                   (r: Sum<Period>) => && r.group.zone == zone && r.group.validTime == at
                                       && r.group.productionType == productionType
                                       && r.group.resolutionMinutes == resolution);
  }

  lemma OneGrain(current: seq<Version>, zone: string, at: int, productionType: string, resolution: int)
    requires Derivable(current)
    ensures var kept := Filter(current, (v: Version) => OfPeriod(v, zone, at, productionType, resolution));
            kept != [] ==> PeriodNet(kept) == [Sum(PeriodOf(kept[0]), SumSeq(kept, Signed))]
  {
    var kept := Filter(current, (v: Version) => OfPeriod(v, zone, at, productionType, resolution));
    if kept != [] {
      assert kept[0] in kept;
      OneGroupSum(kept, PeriodOf, Signed, PeriodOf(kept[0]));
    }
  }

  /**
   * Each zone, instant, type and resolution with a current row nets to exactly one row: the power generated
   * less the power consumed, each current row once. Others have none.
   */
  lemma PeriodNetExact(current: seq<Version>, zone: string, at: int, productionType: string, resolution: int)
    requires Derivable(current)
    ensures var which := (v: Version) => OfPeriod(v, zone, at, productionType, resolution);
            var kept, rows := Filter(current, which), NetRows(PeriodNet(current), zone, at, productionType, resolution);
            if kept == [] then rows == []
            else |rows| == 1 && rows[0].total == NetFlow(current, which, Power)
  {
    var which := (v: Version) => OfPeriod(v, zone, at, productionType, resolution);
    NetRowsPushdown(current, zone, at, productionType, resolution);
    OneGrain(current, zone, at, productionType, resolution);
    NetOfSigned(current, which, Power, Signed);
  }

  /** The derived columns of a netted row are those of the current rows it nets. */
  lemma NetColumns(current: seq<Version>, r: Sum<Period>, v: Version)
    requires Derivable(current) && r in PeriodNet(current) && v in current
    requires OfPeriod(v, r.group.zone, r.group.validTime, r.group.productionType, r.group.resolutionMinutes)
    ensures r.group.settlementDay == v.settlementDay && r.group.isStorage == v.isStorage
  {
    var u := NetSource(current, r);
  }

  predicate OfType(v: Version, zone: string, day: int, productionType: string) {
    v.row.key.zone == zone && v.settlementDay == day && v.row.key.productionType == productionType
  }

  /** The mart's rows of one zone, day and type. */
  function TypeRows(daily: seq<DailyRow>, zone: string, day: int, productionType: string): seq<DailyRow> {
    Filter(daily, (d: DailyRow) =>
      d.group.zone == zone && d.group.settlementDay == day && d.group.productionType == productionType)
  }

  /** An energy in millionths of a MWh is that of so many thousandths of a MW minute: nearest, exact when it can be. */
  predicate IsEnergyOf(energy: int, minutes: int) {
    -20 <= 60 * energy - 1000 * minutes <= 20 && (60 * energy == 1000 * minutes <==> minutes % 3 == 0)
  }

  function MinuteRows(net: seq<Sum<Period>>, zone: string, day: int, productionType: string): seq<Sum<DayType>> {
    Filter(DayMinutes(net), (r: Sum<DayType>) =>
      r.group.zone == zone && r.group.settlementDay == day && r.group.productionType == productionType)
  }

  /** The days' minutes of one type come as one row, each current row counted once. */
  lemma TypeMinutes(current: seq<Version>, zone: string, day: int, productionType: string)
    requires Derivable(current)
    ensures var which := (v: Version) => OfType(v, zone, day, productionType);
            var kept := Filter(current, which);
            var rows := MinuteRows(PeriodNet(current), zone, day, productionType);
            if kept == [] then rows == []
            else rows == [Sum(DayOfPeriod(PeriodOf(kept[0])), SumSeq(kept, SignedMinutes))]
  {
    var which := (v: Version) => OfType(v, zone, day, productionType);
    var kept := Filter(current, which);
    DayPushdown(current, which,
                (g: DayType) => g.zone == zone && g.settlementDay == day && g.productionType == productionType,
                (r: Sum<DayType>) => r.group.zone == zone && r.group.settlementDay == day
                                     && r.group.productionType == productionType);
    if kept == [] {
      assert PeriodNet(kept) == [];
    } else {
      assert kept[0] in kept;
      OneTypeMinutes(kept, DayOfPeriod(PeriodOf(kept[0])));
    }
  }

  lemma OneTypeMinutes(kept: seq<Version>, g: DayType)
    requires kept != [] && forall v :: v in kept ==> DayOfPeriod(PeriodOf(v)) == g
    ensures DayMinutes(PeriodNet(kept)) == [Sum(g, SumSeq(kept, SignedMinutes))]
  {
    var net := PeriodNet(kept);
    var r := NetRow(kept, kept[0]);
    forall r | r in net ensures DayOf(r) == g {
      var v := NetSource(kept, r);
    }
    OneGroupSum(net, DayOf, Minutes, g);
    WeightedGroupsConserve(kept, PeriodOf, Signed, (g: Period) => g.resolutionMinutes, Minutes, SignedMinutes);
  }

  /**
   * The energy of one zone, day and type is that of its own current rows: what they generated less what they
   * consumed, power times minutes, each row once. There is exactly one such row where there is any current row.
   */
  lemma TypeEnergyExact(current: seq<Version>, zone: string, day: int, productionType: string)
    requires Derivable(current)
    ensures var which := (v: Version) => OfType(v, zone, day, productionType);
            var rows := TypeRows(DailyMix(PeriodNet(current)), zone, day, productionType);
            if Filter(current, which) == [] then rows == []
            else |rows| == 1 && IsEnergyOf(rows[0].energy, NetFlow(current, which, Reported))
  {
    var which := (v: Version) => OfType(v, zone, day, productionType);
    var total := SumSeq(Filter(current, which), SignedMinutes);
    TypeMinutes(current, zone, day, productionType);
    MixRows(PeriodNet(current), zone, day, productionType);
    ReportedNet(current, which);
    EnergyIsEnergyOf(total, NetFlow(current, which, Reported));
  }

  lemma EnergyIsEnergyOf(total: int, minutes: int)
    requires total == minutes
    ensures IsEnergyOf(Energy(total), minutes)
  {
    EnergyResidue(minutes);
  }

  /** The mart's rows of a type are its minutes' rows, with their quotients. */
  lemma MixRows(net: seq<Sum<Period>>, zone: string, day: int, productionType: string)
    ensures var minutes := MinuteRows(net, zone, day, productionType);
            var rows := TypeRows(DailyMix(net), zone, day, productionType);
            |rows| == |minutes| && forall i :: 0 <= i < |rows| ==> rows[i].energy == Energy(minutes[i].total)
  {
    var mine := (e: Sum<DayType>) => e.group.zone == zone && e.group.settlementDay == day
                                     && e.group.productionType == productionType;
    var energies := Energies(net);
    FilterMap(energies, e => DailyRowOf(energies, e),
              (d: DailyRow) => d.group.zone == zone && d.group.settlementDay == day
                               && d.group.productionType == productionType, mine);
    FilterMap(DayMinutes(net), Quotient, mine, mine);
  }

  function EnergyOf(d: DailyRow): int { d.energy }

  /** The daily mart's energies of a day are the quotients of its types' minutes, one each. */
  lemma DailyEnergies(net: seq<Sum<Period>>, zone: string, day: int)
    ensures SumSeq(RowsOfDay(DailyMix(net), zone, day), EnergyOf)
            == SumSeq(DayTypes(net, zone, day), (r: Sum<DayType>) => Energy(r.total))
  {
    var energies, inDay := Energies(net), (e: Sum<DayType>) => InDay(e.group, zone, day);
    var row := (e: Sum<DayType>) => DailyRowOf(energies, e);
    FilterMap(energies, row, (d: DailyRow) => InDay(d.group, zone, day), inDay);
    FilterMap(DayMinutes(net), Quotient, inDay, inDay);
    SumMap(Filter(energies, inDay), row, EnergyOf, Total);
    SumMap(DayTypes(net, zone, day), Quotient, Total, (r: Sum<DayType>) => Energy(r.total));
  }

  /**
   * Conservation in the published column: where nothing is rounded, sixty times a day's energies are a
   * thousand times what the current rows generated less what they consumed.
   */
  lemma DayEnergyConserves(current: seq<Version>, zone: string, day: int)
    requires WholeThirds(current)
    ensures 60 * SumSeq(RowsOfDay(DailyMix(PeriodNet(current)), zone, day), EnergyOf)
            == 1000 * NetFlow(current, OfZoneDay(zone, day), Reported)
  {
    var types := DayTypes(PeriodNet(current), zone, day);
    DailyEnergies(PeriodNet(current), zone, day);
    DayConserves(current, zone, day);
    forall r | r in types ensures Residue(r.total) == 0 {
      EnergyResidue(r.total);
      DailyEnergyExact(current, r, Energy(r.total));
    }
    NothingRounded(types);
  }

  lemma {:induction false} NothingRounded(rows: seq<Sum<DayType>>)
    requires forall r :: r in rows ==> Residue(r.total) == 0
    ensures 3 * SumSeq(rows, (r: Sum<DayType>) => Energy(r.total)) == 50 * SumSeq(rows, Total)
    ensures Count(rows, 1) == Count(rows, 2) == 0
  {
    if rows == [] {
    } else {
      NothingRounded(rows[..|rows| - 1]);
      EnergyResidue(rows[|rows| - 1].total);
    }
  }

  function Count(rows: seq<Sum<DayType>>, residue: int): int {
    SumSeq(rows, (r: Sum<DayType>) => if r.total % 3 == residue then 1 else 0)
  }

  datatype ZoneDay = ZoneDay(zone: string, settlementDay: int)

  function ZoneDayOf(r: Sum<Period>): ZoneDay { ZoneDay(r.group.zone, r.group.settlementDay) }

  function ZoneDayOfRow(d: DailyRow): ZoneDay { ZoneDay(d.group.zone, d.group.settlementDay) }

  /** from_periods: one quotient of the day's minutes over all types. */
  function FromPeriods(net: seq<Sum<Period>>): seq<Sum<ZoneDay>> {
    Map(GroupSum(net, ZoneDayOf, Minutes), Quotient)
  }

  /** from_daily: the sum of the types' own quotients. */
  function FromDaily(daily: seq<DailyRow>): seq<Sum<ZoneDay>> { GroupSum(daily, ZoneDayOfRow, EnergyOf) }

  /** The dbt test daily_energy_matches_period_energy: no joined row differs. */
  ghost predicate DailyEnergyTest(net: seq<Sum<Period>>) {
    forall p, d :: p in FromPeriods(net) && d in FromDaily(DailyMix(net)) && p.group == d.group ==> p.total == d.total
  }

  /** The types rounded up and the types rounded down on a day differ in number by at most one. */
  predicate RoundingBalanced(net: seq<Sum<Period>>, g: ZoneDay) {
    var types := DayTypes(net, g.zone, g.settlementDay);
    -1 <= Count(types, 1) - Count(types, 2) <= 1
  }

  /** The test passes exactly when rounding balances on every day. */
  lemma DailyEnergyTestExact(net: seq<Sum<Period>>)
    ensures DailyEnergyTest(net) <==> forall r :: r in net ==> RoundingBalanced(net, ZoneDayOf(r))
  {
    if DailyEnergyTest(net) {
      forall r | r in net ensures RoundingBalanced(net, ZoneDayOf(r)) {
        var p, d := DayRows(net, r);
        assert p.total == d.total;
      }
    }
    if forall r :: r in net ==> RoundingBalanced(net, ZoneDayOf(r)) {
      forall p, d | p in FromPeriods(net) && d in FromDaily(DailyMix(net)) && p.group == d.group
        ensures p.total == d.total
      {
        PeriodTotal(net, p);
        DailyTotal(net, d);
        var r :| r in net && ZoneDayOf(r) == p.group;
        DayTotalsExact(net, p.group);
      }
    }
  }

  /** A day with a netted period has a row on either side of the test's join. */
  lemma DayRows(net: seq<Sum<Period>>, r: Sum<Period>) returns (p: Sum<ZoneDay>, d: Sum<ZoneDay>)
    requires r in net
    ensures p in FromPeriods(net) && d in FromDaily(DailyMix(net)) && p.group == d.group == ZoneDayOf(r)
    ensures p.total == d.total <==> RoundingBalanced(net, ZoneDayOf(r))
  {
    var g := ZoneDayOf(r);
    p := Sum(g, Energy(PeriodMinutes(net, g)));
    d := Sum(g, DailyEnergy(net, g));
    PeriodTotal(net, p);
    var x := DailyRowOfPeriod(net, r);
    DailyTotal(net, d);
    DayTotalsExact(net, g);
  }

  function PeriodMinutes(net: seq<Sum<Period>>, g: ZoneDay): int { SumSeq(Group(net, ZoneDayOf, g), Minutes) }

  function DailyEnergy(net: seq<Sum<Period>>, g: ZoneDay): int {
    SumSeq(Group(DailyMix(net), ZoneDayOfRow, g), EnergyOf)
  }

  lemma PeriodTotal(net: seq<Sum<Period>>, p: Sum<ZoneDay>)
    ensures p in FromPeriods(net)
            <==> (exists r :: r in net && ZoneDayOf(r) == p.group) && p.total == Energy(PeriodMinutes(net, p.group))
  {
    var sums := GroupSum(net, ZoneDayOf, Minutes);
    var row := Sum(p.group, PeriodMinutes(net, p.group));
    GroupSumRow(net, ZoneDayOf, Minutes, row);
    MapMember(sums, Quotient, p);
    if x :| x in sums && Quotient(x) == p {
      GroupSumRow(net, ZoneDayOf, Minutes, x);
    }
    assert Quotient(row) == Sum(p.group, Energy(row.total));
  }

  lemma DailyTotal(net: seq<Sum<Period>>, d: Sum<ZoneDay>)
    ensures d in FromDaily(DailyMix(net))
            <==> (exists x :: x in DailyMix(net) && ZoneDayOfRow(x) == d.group) && d.total == DailyEnergy(net, d.group)
  {
    GroupSumRow(DailyMix(net), ZoneDayOfRow, EnergyOf, d);
  }

  lemma DailyRowOfPeriod(net: seq<Sum<Period>>, r: Sum<Period>) returns (d: DailyRow)
    requires r in net
    ensures d in DailyMix(net) && ZoneDayOfRow(d) == ZoneDayOf(r)
  {
    var row := Sum(DayOf(r), SumSeq(Group(net, DayOf, DayOf(r)), Minutes));
    GroupSumRow(net, DayOf, Minutes, row);
    MapMember(DayMinutes(net), Quotient, Quotient(row));
    d := DailyRowOf(Energies(net), Quotient(row));
    MapMember(Energies(net), e => DailyRowOf(Energies(net), e), d);
  }

  /** For one day: the rounded energies add up to the rounded total exactly when rounding balances. */
  lemma DayTotalsExact(net: seq<Sum<Period>>, g: ZoneDay)
    ensures DailyEnergy(net, g) == Energy(PeriodMinutes(net, g)) <==> RoundingBalanced(net, g)
  {
    DailyEnergies(net, g.zone, g.settlementDay);
    DayRowsGroup(net, g);
    DayMinutesConserve(net, g);
    RoundedSumExact(DayTypes(net, g.zone, g.settlementDay));
  }

  lemma DayRowsGroup(net: seq<Sum<Period>>, g: ZoneDay)
    ensures Group(DailyMix(net), ZoneDayOfRow, g) == RowsOfDay(DailyMix(net), g.zone, g.settlementDay)
  {
    GroupIsFilter(DailyMix(net), ZoneDayOfRow, g, (x: DailyRow) => InDay(x.group, g.zone, g.settlementDay));
  }

  lemma RoundedSumExact(types: seq<Sum<DayType>>)
    ensures SumSeq(types, (r: Sum<DayType>) => Energy(r.total)) == Energy(SumSeq(types, Total))
            <==> -1 <= Count(types, 1) - Count(types, 2) <= 1
  {
    EnergiesAddUp(types);
    TotalResidue(types);
    EnergyResidue(SumSeq(types, Total));
    SameResidue(SumSeq(types, Total), Count(types, 1) - Count(types, 2));
  }

  lemma DayMinutesConserve(net: seq<Sum<Period>>, g: ZoneDay)
    ensures SumSeq(DayTypes(net, g.zone, g.settlementDay), Total) == PeriodMinutes(net, g)
  {
    var keep := (r: Sum<Period>) => ZoneDayOf(r) == g;
    MinutesPushdown(net, keep, (d: DayType) => InDay(d, g.zone, g.settlementDay),
                    (r: Sum<DayType>) => InDay(r.group, g.zone, g.settlementDay));
    GroupIsFilter(net, ZoneDayOf, g, keep);
    GroupSumConserves(Filter(net, keep), DayOf, Minutes);
    SumCongruence(DayMinutes(Filter(net, keep)), (r: Sum<DayType>) => r.total, Total);
  }

  /** At resolutions that are multiples of three minutes the test always passes. */
  lemma DailyEnergyTestPasses(current: seq<Version>)
    requires WholeThirds(current)
    ensures DailyEnergyTest(PeriodNet(current))
  {
    var net := PeriodNet(current);
    forall r | r in net ensures RoundingBalanced(net, ZoneDayOf(r)) {
      var types := DayTypes(net, r.group.zone, r.group.settlementDay);
      forall t | t in types ensures Residue(t.total) == 0 {
        EnergyResidue(t.total);
        DailyEnergyExact(current, t, Energy(t.total));
      }
      NothingRounded(types);
    }
    DailyEnergyTestExact(net);
  }

  /** A contract record of the given type, direction, quantity in kW and resolution, for the period at the epoch. */
  function Sample(productionType: string, direction: Direction, kilowatts: int, minutes: int): Candidate {
    Candidate(Key(Entsoe, "10YFR-RTE------C", productionType, direction, 0), 0, Decimal(kilowatts, 3), None,
              Some(""), "MW", minutes)
  }

  function SampleRow(productionType: string, direction: Direction, kilowatts: int, minutes: int): Row {
    Row(Key(Entsoe, "10YFR-RTE------C", productionType, direction, 0), 0, Value(kilowatts, None), Some(""), "MW",
        minutes)
  }

  /** Such a row does reach the lake. */
  lemma SampleAccepted(productionType: string, direction: Direction, kilowatts: int, minutes: int)
    requires productionType in PRODUCTION_TYPES && 0 <= kilowatts <= 1000 && 0 < minutes <= MAX_RESOLUTION_MINUTES
    ensures BuildRecord(Sample(productionType, direction, kilowatts, minutes))
            == Ok(SampleRow(productionType, direction, kilowatts, minutes))
  {
    SampleMeetsContract(productionType, direction, kilowatts, minutes);
    assert Pow10(0) == 1;
  }

  lemma SampleMeetsContract(productionType: string, direction: Direction, kilowatts: int, minutes: int)
    requires productionType in PRODUCTION_TYPES && 0 <= kilowatts <= 1000 && 0 < minutes <= MAX_RESOLUTION_MINUTES
    ensures MeetsContract(Sample(productionType, direction, kilowatts, minutes))
  {
    assert Pow10(1) == 10 && Pow10(2) == 100 && Pow10(3) == 1000;
    ZeroIsWhole(minutes * MINUTE);
  }

  lemma ZeroIsWhole(d: int)
    requires d != 0
    ensures 0 % d == 0
  {
  }

  lemma TwoCurrent(z: Zone, a: Row, b: Row)
    requires a.key != b.key
    ensures Current(Versions(z, [a, b])) == [Derived(z, a, None), Derived(z, b, None)]
  {
    var versions := Versions(z, [a, b]);
    assert versions == [Derived(z, a, None), Derived(z, b, None)];
    FilterAll(versions, (v: Version) => v.knownTo.None?);
  }

  /** The test can fail: one kilowatt for one minute, of each of two types, is rounded up twice and once down. */
  lemma SmallRowsFailDailyTest(z: Zone) returns (a: Row, b: Row)
    ensures a == SampleRow("B01", Generation, 1, 1) && b == SampleRow("B04", Generation, 1, 1)
    ensures BuildRecord(Sample("B01", Generation, 1, 1)) == Ok(a)
    ensures BuildRecord(Sample("B04", Generation, 1, 1)) == Ok(b)
    ensures !DailyEnergyTest(PeriodNet(Current(Versions(z, [a, b]))))
  {
    a, b := SampleRow("B01", Generation, 1, 1), SampleRow("B04", Generation, 1, 1);
    SampleAccepted("B01", Generation, 1, 1);
    SampleAccepted("B04", Generation, 1, 1);
    var u, v := Derived(z, a, None), Derived(z, b, None);
    TwoCurrent(z, a, b);
    GroupSumOfTwo(u, v, PeriodOf, Signed);
    var p, q := Sum(PeriodOf(u), 1), Sum(PeriodOf(v), 1);
    assert PeriodNet([u, v]) == [p, q];
    TwoTypesRoundedUp(p, q);
    DailyEnergyTestExact([p, q]);
    assert p in [p, q];
  }

  lemma CountOfTwo(r: Sum<DayType>, s: Sum<DayType>, residue: int)
    ensures Count([r, s], residue)
            == (if r.total % 3 == residue then 1 else 0) + if s.total % 3 == residue then 1 else 0
  {
    SumOfTwo(r, s, (x: Sum<DayType>) => if x.total % 3 == residue then 1 else 0);
  }

  lemma TwoDayTypes(p: Sum<Period>, q: Sum<Period>)
    requires ZoneDayOf(p) == ZoneDayOf(q) && DayOf(p) != DayOf(q)
    ensures DayTypes([p, q], p.group.zone, p.group.settlementDay)
            == [Sum(DayOf(p), Minutes(p)), Sum(DayOf(q), Minutes(q))]
  {
    GroupSumOfTwo(p, q, DayOf, Minutes);
    FilterAll(DayMinutes([p, q]), (r: Sum<DayType>) => InDay(r.group, p.group.zone, p.group.settlementDay));
  }

  lemma TwoTypesRoundedUp(p: Sum<Period>, q: Sum<Period>)
    requires ZoneDayOf(p) == ZoneDayOf(q) && DayOf(p) != DayOf(q) && Minutes(p) == Minutes(q) == 1
    ensures !RoundingBalanced([p, q], ZoneDayOf(p))
  {
    TwoDayTypes(p, q);
    CountOfTwo(Sum(DayOf(p), 1), Sum(DayOf(q), 1), 1);
    CountOfTwo(Sum(DayOf(p), 1), Sum(DayOf(q), 1), 2);
  }

  lemma SameResidue(total: int, d: int)
    requires (total - d) % 3 == 0
    ensures Residue(total) == d <==> -1 <= d <= 1
  {
  }

  lemma {:induction false} EnergiesAddUp(rows: seq<Sum<DayType>>)
    ensures 3 * SumSeq(rows, (r: Sum<DayType>) => Energy(r.total))
            == 50 * SumSeq(rows, Total) + Count(rows, 1) - Count(rows, 2)
  {
    if rows == [] {
    } else {
      EnergiesAddUp(rows[..|rows| - 1]);
      EnergyResidue(rows[|rows| - 1].total);
    }
  }

  lemma {:induction false} TotalResidue(rows: seq<Sum<DayType>>)
    ensures (SumSeq(rows, Total) - (Count(rows, 1) - Count(rows, 2))) % 3 == 0
  {
    if rows == [] {
    } else {
      TotalResidue(rows[..|rows| - 1]);
      var t := rows[|rows| - 1].total;
      assert (t - Residue(t)) % 3 == 0;
    }
  }

  /** Wherever a share is defined its divisor is the positive gross, and it is defined for every positive energy. */
  lemma ShareDefined(net: seq<Sum<Period>>, d: DailyRow)
    requires d in DailyMix(net)
    ensures d.share.Some? <==> d.energy > 0
    ensures d.energy > 0 ==>
              d.gross.Some? && d.gross.value >= d.energy && d.share == Some(Ratio(d.energy, d.gross.value))
  {
    var energies := Energies(net);
    var i :| 0 <= i < |energies| && DailyMix(net)[i] == d;
    var e := energies[i];
    if e.total > 0 {
      var up := Contributors(energies, e.group.zone, e.group.settlementDay);
      assert e in energies && e in up;
      SumCovers(up, e);
    }
  }

  lemma {:induction false} SumCovers(rows: seq<Sum<DayType>>, e: Sum<DayType>)
    requires forall r :: r in rows ==> r.total > 0
    ensures SumSeq(rows, Total) >= if e in rows then e.total else 0
  {
    if rows == [] {
    } else {
      SumCovers(rows[..|rows| - 1], e);
    }
  }

  function Numerator(d: DailyRow): int {
    match d.share { case None => 0 case Some(q) => q.numerator }
  }

  function RowsOfDay(rows: seq<DailyRow>, zone: string, day: int): seq<DailyRow> {
    Filter(rows, (d: DailyRow) => InDay(d.group, zone, day))
  }

  /**
   * The shares of a day on which anything is positive add up to one: they have one divisor, the
   * gross, and their numerators add up to it.
   */
  lemma SharesSumToOne(net: seq<Sum<Period>>, zone: string, day: int)
    requires Gross(Energies(net), zone, day).Some?
    ensures var gross := Gross(Energies(net), zone, day).value;
            && gross > 0
            && (forall d :: d in RowsOfDay(DailyMix(net), zone, day) && d.share.Some?
                            ==> d.share.value.divisor == gross)
            && SumSeq(RowsOfDay(DailyMix(net), zone, day), Numerator) == gross
  {
    var energies := Energies(net);
    var row := (e: Sum<DayType>) => DailyRowOf(energies, e);
    var inDay := (e: Sum<DayType>) => InDay(e.group, zone, day);
    var rows := Filter(energies, inDay);
    FilterMap(energies, row, (d: DailyRow) => InDay(d.group, zone, day), inDay);
    GrossOfDay(energies, zone, day);
    SumMap(rows, row, Numerator, Positive);
  }

  function Positive(e: Sum<DayType>): int { if e.total > 0 then e.total else 0 }

  lemma GrossOfDay(energies: seq<Sum<DayType>>, zone: string, day: int)
    requires Gross(energies, zone, day).Some?
    ensures Gross(energies, zone, day).value > 0
    ensures SumSeq(Filter(energies, (e: Sum<DayType>) => InDay(e.group, zone, day)), Positive)
            == Gross(energies, zone, day).value
  {
    var inDay := (e: Sum<DayType>) => InDay(e.group, zone, day);
    var up := (e: Sum<DayType>) => e.total > 0;
    SumCovers(Contributors(energies, zone, day), Contributors(energies, zone, day)[0]);
    FilterFilter(energies, inDay, up, (e: Sum<DayType>) => InDay(e.group, zone, day) && e.total > 0);
    SumFiltered(Filter(energies, inDay), up, Total, Positive);
  }

  /** The mart's rows of a zone and day whose energy is positive. */
  function PositiveRows(daily: seq<DailyRow>, zone: string, day: int): seq<DailyRow> {
    Filter(RowsOfDay(daily, zone, day), (d: DailyRow) => d.energy > 0)
  }

  /** Every row's gross is the sum of its day's positive energies as published, and null without any. */
  lemma GrossExact(net: seq<Sum<Period>>, d: DailyRow)
    requires d in DailyMix(net)
    ensures var up := PositiveRows(DailyMix(net), d.group.zone, d.group.settlementDay);
            d.gross == if up == [] then None else Some(SumSeq(up, EnergyOf))
  {
    var energies, zone, day := Energies(net), d.group.zone, d.group.settlementDay;
    var i :| 0 <= i < |energies| && DailyMix(net)[i] == d;
    PositiveRowsContribute(energies, zone, day);
  }

  lemma PositiveRowsContribute(energies: seq<Sum<DayType>>, zone: string, day: int)
    ensures var up := PositiveRows(Joined(energies), zone, day);
            && |up| == |Contributors(energies, zone, day)|
            && SumSeq(up, EnergyOf) == SumSeq(Contributors(energies, zone, day), Total)
  {
    var row := (e: Sum<DayType>) => DailyRowOf(energies, e);
    var both := (d: DailyRow) => InDay(d.group, zone, day) && d.energy > 0;
    FilterFilter(Joined(energies), (d: DailyRow) => InDay(d.group, zone, day), (d: DailyRow) => d.energy > 0, both);
    FilterMap(energies, row, both, (e: Sum<DayType>) => InDay(e.group, zone, day) && e.total > 0);
    SumMap(Contributors(energies, zone, day), row, EnergyOf, Total);
  }

  predicate SameGrain(a: Period, b: Period) {
    a.zone == b.zone && a.validTime == b.validTime && a.productionType == b.productionType
  }

  /** The dbt test net_is_one_row_per_type_and_period: no grain has two rows. */
  predicate GrainTest(net: seq<Sum<Period>>) {
    forall a, b :: a in net && b in net && SameGrain(a.group, b.group) ==> a == b
  }

  predicate OneResolution(current: seq<Version>) {
    forall v, u :: v in current && u in current && SameGrain(PeriodOf(v), PeriodOf(u))
                   ==> v.row.resolutionMinutes == u.row.resolutionMinutes
  }

  /**
   * The test passes exactly when the current rows of one zone,
   * period and type share one resolution (storage comes as two rows, and resolution is a group column).
   */
  lemma NetGrainExact(current: seq<Version>)
    requires forall v, u :: v in current && u in current && v.row.key.validTime == u.row.key.validTime
                            ==> v.settlementDay == u.settlementDay
    requires forall v :: v in current ==> v.isStorage == (v.row.key.productionType in STORAGE_TYPES)
    ensures GrainTest(PeriodNet(current)) <==> OneResolution(current)
  {
    if GrainTest(PeriodNet(current)) {
      forall v, u | v in current && u in current && SameGrain(PeriodOf(v), PeriodOf(u))
        ensures v.row.resolutionMinutes == u.row.resolutionMinutes
      {
        var a := NetRow(current, v);
        var b := NetRow(current, u);
        assert a.group == PeriodOf(v) && b.group == PeriodOf(u);
      }
    }
    if OneResolution(current) {
      forall a, b | a in PeriodNet(current) && b in PeriodNet(current) && SameGrain(a.group, b.group) ensures a == b {
        var v := NetSource(current, a);
        var u := NetSource(current, b);
        assert PeriodOf(v) == PeriodOf(u);
      }
    }
  }

  /** The grain test can fail: storage generating by the quarter hour and consuming by the hour nets to two rows. */
  lemma MixedStorageFailsGrainTest(z: Zone) returns (a: Row, b: Row)
    ensures a == SampleRow("B10", Generation, 1000, 15) && b == SampleRow("B10", Consumption, 1000, 60)
    ensures BuildRecord(Sample("B10", Generation, 1000, 15)) == Ok(a)
    ensures BuildRecord(Sample("B10", Consumption, 1000, 60)) == Ok(b)
    ensures !GrainTest(PeriodNet(Current(Versions(z, [a, b]))))
  {
    a, b := SampleRow("B10", Generation, 1000, 15), SampleRow("B10", Consumption, 1000, 60);
    SampleAccepted("B10", Generation, 1000, 15);
    SampleAccepted("B10", Consumption, 1000, 60);
    var u, v := Derived(z, a, None), Derived(z, b, None);
    TwoCurrent(z, a, b);
    NetGrainExact([u, v]);
    assert u in [u, v] && v in [u, v] && SameGrain(PeriodOf(u), PeriodOf(v));
  }

  /** Every current row has its group's row in the netted table, and every netted row comes from current ones. */
  lemma NetRow(current: seq<Version>, v: Version) returns (r: Sum<Period>)
    requires v in current
    ensures r in PeriodNet(current) && r.group == PeriodOf(v)
  {
    r := Sum(PeriodOf(v), SumSeq(Group(current, PeriodOf, PeriodOf(v)), Signed));
    GroupSumRow(current, PeriodOf, Signed, r);
  }

  lemma NetSource(current: seq<Version>, r: Sum<Period>) returns (v: Version)
    requires r in PeriodNet(current)
    ensures v in current && PeriodOf(v) == r.group
    ensures r == Sum(PeriodOf(v), SumSeq(Group(current, PeriodOf, PeriodOf(v)), Signed))
  {
    GroupSumRow(current, PeriodOf, Signed, r);
    v :| v in current && PeriodOf(v) == r.group;
  }
}
