/** A TimeSeries published with its zone out instead of in: what it generates becomes what it consumes. */
module Reversal {
  import opened Prelude
  import opened TimeAxis
  import opened Records
  import opened EntsoeParse
  import opened Gate
  import opened Bronze
  import opened Silver
  import opened Restatement
  import opened Gold
  import opened Marts

  function Exchanged(node: TimeSeries): TimeSeries { node.(inZone := node.outZone, outZone := node.inZone) }

  function Other(d: Direction): Direction { if d == Generation then Consumption else Generation }

  function OtherWay(s: Series): Series { s.(direction := Other(s.direction)) }

  function ReversedKey(k: Key): Key { k.(direction := Other(k.direction)) }

  function Reversed(r: Row): Row { r.(key := ReversedKey(r.key)) }

  lemma ExchangedSeries(node: TimeSeries)
    requires AcceptableSeries(node)
    ensures AcceptableSeries(Exchanged(node))
    ensures NodeSeries(Exchanged(node)) == Map(NodeSeries(node), OtherWay)
  {
    assert Exchanged(node).inZone + Exchanged(node).outZone == node.inZone + node.outZone;
  }

  lemma PointReversed(mrid: string, s: Series, o: Observation, knownAt: int)
    ensures Built(CandidateOf(mrid, OtherWay(s), o, knownAt)).records
            == Map(Built(CandidateOf(mrid, s, o, knownAt)).records, Reversed)
  {
  }

  lemma {:induction false} PointsReversed(mrid: string, s: Series, observations: seq<Observation>, knownAt: int)
    ensures GateObservations(mrid, OtherWay(s), observations, knownAt).records
            == Map(GateObservations(mrid, s, observations, knownAt).records, Reversed)
  {
    if observations == [] {
    } else {
      var init, o := observations[..|observations| - 1], observations[|observations| - 1];
      PointsReversed(mrid, s, init, knownAt);
      PointReversed(mrid, s, o, knownAt);
      MapConcat(GateObservations(mrid, s, init, knownAt).records,
                Built(CandidateOf(mrid, s, o, knownAt)).records, Reversed);
    }
  }

  lemma SeriesReversed(mrid: string, s: Series, knownAt: int)
    ensures GateSeries(mrid, OtherWay(s), knownAt).records == Map(GateSeries(mrid, s, knownAt).records, Reversed)
  {
    PointsReversed(mrid, s, s.observations, knownAt);
  }

  /** The gate accepts the same points either way. */
  lemma {:induction false} GateReversed(mrid: string, series: seq<Series>, knownAt: int)
    ensures GateAll(mrid, Map(series, OtherWay), knownAt).records
            == Map(GateAll(mrid, series, knownAt).records, Reversed)
  {
    if series == [] {
    } else {
      var init, last := series[..|series| - 1], series[|series| - 1];
      GateReversed(mrid, init, knownAt);
      SeriesReversed(mrid, last, knownAt);
      assert series == init + [last];
      MapSnoc(init, last, OtherWay);
      GateAllSnoc(mrid, Map(init, OtherWay), OtherWay(last), knownAt);
      MapConcat(GateAll(mrid, init, knownAt).records, GateSeries(mrid, last, knownAt).records, Reversed);
    }
  }

  lemma UniqueReversed(rows: seq<Row>)
    requires Unique(rows)
    ensures Unique(Map(rows, Reversed))
  {
  }

  lemma NewestReversed(rows: seq<Row>, r: Row)
    requires Unique(rows) && r in rows
    ensures Newest(Map(rows, Reversed), ReversedKey(r.key)) == Some(Reversed(r)) <==> Newest(rows, r.key) == Some(r)
  {
    var back := Map(rows, Reversed);
    UniqueReversed(rows);
    UniqueDistinct(rows);
    UniqueDistinct(back);
    MapMember(rows, Reversed, Reversed(r));
    var x, y := Newest(rows, r.key).value, Newest(back, ReversedKey(r.key)).value;
    MapMember(rows, Reversed, Reversed(x));
    MapMember(rows, Reversed, y);
    assert y.knownAt == x.knownAt;
    assert SameIdentity(y, Reversed(x));
    assert y == Reversed(x);
  }

  lemma NewestRowsReversed(rows: seq<Row>)
    requires Unique(rows)
    ensures NewestRows(Map(rows, Reversed)) == Map(NewestRows(rows), Reversed)
  {
    var back := Map(rows, Reversed);
    forall r | r in rows
      ensures Newest(back, Reversed(r).key) == Some(Reversed(r)) <==> Newest(rows, r.key) == Some(r)
    {
      NewestReversed(rows, r);
    }
    FilterMap(rows, Reversed, (r: Row) => Newest(back, r.key) == Some(r), (r: Row) => Newest(rows, r.key) == Some(r));
  }

  lemma FlowReversed(rows: seq<Row>, which: Row -> bool, direction: Direction, amount: Row -> int)
    requires forall r :: which(Reversed(r)) <==> which(r)
    requires forall r :: amount(Reversed(r)) == amount(r)
    ensures RowsFlowing(Map(rows, Reversed), which, direction, amount)
            == RowsFlowing(rows, which, Other(direction), amount)
  {
    var mine := (r: Row) => which(r) && r.key.direction == Other(direction);
    FilterMap(rows, Reversed, (r: Row) => which(r) && r.key.direction == direction, mine);
    SumMap(Filter(rows, mine), Reversed, amount, amount);
  }

  lemma NetPowerReversed(rows: seq<Row>, which: Row -> bool)
    requires forall r :: which(Reversed(r)) <==> which(r)
    ensures NetPower(Map(rows, Reversed), which) == -NetPower(rows, which)
    ensures Filter(Map(rows, Reversed), which) == [] <==> Filter(rows, which) == []
  {
    FlowReversed(rows, which, Generation, RowPower);
    FlowReversed(rows, which, Consumption, RowPower);
    FilterMap(rows, Reversed, which, which);
  }

  lemma NewestReversedNet(rows: seq<Row>, zone: string, at: int, productionType: string, resolution: int)
    requires Unique(rows)
    ensures var mine, newest := OfGrain(zone, at, productionType, resolution), NewestRows(rows);
            var back := NewestRows(Map(rows, Reversed));
            && NetPower(back, mine) == -NetPower(newest, mine)
            && (Filter(back, mine) == [] <==> Filter(newest, mine) == [])
  {
    NewestRowsReversed(rows);
    NetPowerReversed(NewestRows(rows), OfGrain(zone, at, productionType, resolution));
  }

  /** Both have the one row, with opposite totals, or neither has any. */
  predicate Negates(a: seq<Sum<Period>>, b: seq<Sum<Period>>) {
    if b == [] then a == [] else |a| == |b| == 1 && a[0].total == -b[0].total
  }

  /** Gold nets the reversed rows to the negation, period by period. */
  lemma BuildReversed(z: Zone, rows: seq<Row>, zone: string, at: int, productionType: string, resolution: int)
    requires Unique(rows)
    ensures var net := NetRows(BuildFrom(z, rows).net, zone, at, productionType, resolution);
            var back := NetRows(BuildFrom(z, Map(rows, Reversed)).net, zone, at, productionType, resolution);
            Negates(back, net)
  {
    BuildNetExact(z, rows, zone, at, productionType, resolution);
    UniqueReversed(rows);
    BuildNetExact(z, Map(rows, Reversed), zone, at, productionType, resolution);
    NewestReversedNet(rows, zone, at, productionType, resolution);
  }

  /**
   * The same Periods with the zone out instead of in: the same rows are accepted, each the other way, and
   * where bronze holds just those, the net power of every period is negated.
   */
  lemma ExchangedZonesNegate(z: Zone, node: TimeSeries, mrid: string, knownAt: int,
                             zone: string, at: int, productionType: string, resolution: int)
    requires AcceptableSeries(node) && NoOverlap(NodeSeries(node))
    ensures AcceptableSeries(Exchanged(node))
    ensures var rows := GateAll(mrid, NodeSeries(node), knownAt).records;
            var back := GateAll(mrid, NodeSeries(Exchanged(node)), knownAt).records;
            && back == Map(rows, Reversed)
            && var a := NetRows(BuildFrom(z, rows).net, zone, at, productionType, resolution);
               var b := NetRows(BuildFrom(z, back).net, zone, at, productionType, resolution);
               Negates(b, a)
  {
    var rows := GateAll(mrid, NodeSeries(node), knownAt).records;
    ExchangedSeries(node);
    GateReversed(mrid, NodeSeries(node), knownAt);
    NodeWellParsed(node);
    AcceptedDistinct(mrid, NodeSeries(node), knownAt);
    BuildReversed(z, rows, zone, at, productionType, resolution);
  }
}
