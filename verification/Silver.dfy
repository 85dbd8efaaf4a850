/** Versions as half-open intervals, and the reads that use them. */
module Silver {
  import opened Prelude
  import opened TimeAxis
  import opened Records
  import opened Bronze
  import opened Refinement
  import opened Runs

  /** A row of generation_versions: known from row.knownAt until `knownTo`, or still current. */
  datatype Version = Version(row: Row, settlementDay: int, isStorage: bool, knownTo: Option<int>)

  /** Later in the window of `lead`: same partition, ordered by known_at, table order breaking ties. */
  predicate Follows(rows: seq<Row>, i: nat, j: nat)
    requires i < |rows| && j < |rows|
  {
    && rows[i].key == rows[j].key
    && (rows[i].knownAt < rows[j].knownAt || (rows[i].knownAt == rows[j].knownAt && i < j))
  }

  /** lead(known_at): the known_at of the next row of the partition, looking at the first `n` rows. */
  function Lead(rows: seq<Row>, i: nat, n: nat): (r: Option<int>)
    requires i < |rows| && n <= |rows|
    ensures r.None? <==> forall j :: 0 <= j < n ==> !Follows(rows, i, j)
    ensures r.Some? ==> exists j :: 0 <= j < n && Follows(rows, i, j) && rows[j].knownAt == r.value
    ensures r.Some? ==> forall j :: 0 <= j < n && Follows(rows, i, j) ==> r.value <= rows[j].knownAt
  {
    if n == 0 then None
    else
      var next := Lead(rows, i, n - 1);
      if Follows(rows, i, n - 1) && (next.None? || rows[n - 1].knownAt < next.value) then Some(rows[n - 1].knownAt)
      else next
  }

  function Versions(z: Zone, rows: seq<Row>): (r: seq<Version>)
    ensures |r| == |rows|
    ensures forall i :: 0 <= i < |rows| ==> r[i] == Derived(z, rows[i], Lead(rows, i, |rows|))
  {
    seq(|rows|, i requires 0 <= i < |rows| => Derived(z, rows[i], Lead(rows, i, |rows|)))
  }

  /** The columns staging derives. */
  function Derived(z: Zone, r: Row, knownTo: Option<int>): Version {
    Version(r, LocalDate(z, r.key.validTime), r.key.productionType in STORAGE_TYPES, knownTo)
  }

  /** The as_of macro: known_from <= t and (t < known_to or known_to is null). */
  predicate KnownAt(v: Version, t: int) {
    v.row.knownAt <= t && (v.knownTo.None? || t < v.knownTo.value)
  }

  function AsOf(versions: seq<Version>, t: int): seq<Version> { Filter(versions, (v: Version) => KnownAt(v, t)) }

  function Current(versions: seq<Version>): seq<Version> { Filter(versions, (v: Version) => v.knownTo.None?) }

  function BronzeColumns(versions: seq<Version>): seq<Row> { Map(versions, (v: Version) => v.row) }

  /** A version as a function of its row alone: what `lead` computes when identities are unique. */
  function VersionOf(z: Zone, rows: seq<Row>, r: Row): Version {
    Derived(z, r, NextKnown(rows, r.key, r.knownAt))
  }

  /** Only strictly later versions follow the row. */
  predicate FollowsIfLater(rows: seq<Row>, i: nat)
    requires i < |rows|
  {
    forall j :: 0 <= j < |rows| ==>
                  (Follows(rows, i, j) <==> rows[j].key == rows[i].key && rows[i].knownAt < rows[j].knownAt)
  }

  lemma LeadAtMost(rows: seq<Row>, i: nat)
    requires i < |rows|
    requires FollowsIfLater(rows, i)
    ensures var next := NextKnown(rows, rows[i].key, rows[i].knownAt);
            next.Some? ==> Lead(rows, i, |rows|).Some? && Lead(rows, i, |rows|).value <= next.value
  {
    var next := NextKnown(rows, rows[i].key, rows[i].knownAt);
    if next.Some? {
      var x :| x in rows && x.key == rows[i].key && x.knownAt == next.value;
      var j :| 0 <= j < |rows| && rows[j] == x;
      assert Follows(rows, i, j);
    }
  }

  lemma LeadAtLeast(rows: seq<Row>, i: nat)
    requires i < |rows|
    requires FollowsIfLater(rows, i)
    ensures var next := NextKnown(rows, rows[i].key, rows[i].knownAt);
            Lead(rows, i, |rows|).Some? ==> next.Some? && next.value <= Lead(rows, i, |rows|).value
  {
    var lead := Lead(rows, i, |rows|);
    if lead.Some? {
      var j :| 0 <= j < |rows| && Follows(rows, i, j) && rows[j].knownAt == lead.value;
      assert rows[j] in rows;
    }
  }

  /** A row of the same identity stands later in the table. */
  predicate TiedLater(rows: seq<Row>, i: nat)
    requires i < |rows|
  {
    exists j :: i < j < |rows| && SameIdentity(rows[i], rows[j])
  }

  lemma LeadTied(rows: seq<Row>, i: nat)
    requires i < |rows| && TiedLater(rows, i)
    ensures Lead(rows, i, |rows|) == Some(rows[i].knownAt)
  {
    var j :| i < j < |rows| && SameIdentity(rows[i], rows[j]);
    assert Follows(rows, i, j);
  }

  lemma UntiedFollows(rows: seq<Row>, i: nat)
    requires i < |rows| && !TiedLater(rows, i)
    ensures FollowsIfLater(rows, i)
  {
  }

  lemma LeadUntied(rows: seq<Row>, i: nat)
    requires i < |rows| && !TiedLater(rows, i)
    ensures Lead(rows, i, |rows|) == NextKnown(rows, rows[i].key, rows[i].knownAt)
  {
    UntiedFollows(rows, i);
    LeadAtMost(rows, i);
    LeadAtLeast(rows, i);
  }

  /** `lead` on any table: the row's own known_at while a row of its identity follows, the next one after that. */
  lemma LeadExact(rows: seq<Row>, i: nat)
    requires i < |rows|
    ensures Lead(rows, i, |rows|)
            == if TiedLater(rows, i) then Some(rows[i].knownAt) else NextKnown(rows, rows[i].key, rows[i].knownAt)
  {
    if TiedLater(rows, i) {
      LeadTied(rows, i);
    } else {
      LeadUntied(rows, i);
    }
  }

  lemma LeadIsNextKnown(rows: seq<Row>, i: nat)
    requires Unique(rows) && i < |rows|
    ensures Lead(rows, i, |rows|) == NextKnown(rows, rows[i].key, rows[i].knownAt)
  {
    LeadUntied(rows, i);
  }

  /** The dbt test no_empty_version_intervals passes exactly when no identity appears twice. */
  lemma EmptyIntervalsExact(z: Zone, rows: seq<Row>)
    ensures (forall v :: v in Versions(z, rows) && v.knownTo.Some? ==> v.row.knownAt < v.knownTo.value)
            <==> Unique(rows)
  {
    if Unique(rows) {
      forall v | v in Versions(z, rows) && v.knownTo.Some? ensures v.row.knownAt < v.knownTo.value {
        var i :| 0 <= i < |rows| && Versions(z, rows)[i] == v;
        LeadIsNextKnown(rows, i);
      }
    } else {
      var i, j :| 0 <= i < j < |rows| && SameIdentity(rows[i], rows[j]);
      LeadTied(rows, i);
      assert Versions(z, rows)[i] in Versions(z, rows);
    }
  }

  lemma VersionsByRow(z: Zone, rows: seq<Row>)
    requires Unique(rows)
    ensures Versions(z, rows) == Map(rows, r => VersionOf(z, rows, r))
  {
    forall i | 0 <= i < |rows| ensures Versions(z, rows)[i] == VersionOf(z, rows, rows[i]) {
      LeadIsNextKnown(rows, i);
    }
  }

  lemma UniqueDistinct(rows: seq<Row>)
    requires Unique(rows)
    ensures Distinct(rows)
    ensures forall a, b :: a in rows && b in rows && SameIdentity(a, b) ==> a == b
  {
  }

  lemma UniquePrefix(rows: seq<Row>, more: seq<Row>)
    requires Unique(rows + more)
    ensures Unique(rows)
  {
    assert forall i :: 0 <= i < |rows| ==> (rows + more)[i] == rows[i];
  }

  lemma UniqueFilter(rows: seq<Row>, keep: Row -> bool)
    requires Unique(rows)
    ensures Unique(Filter(rows, keep))
  {
    UniqueAmongExact(rows, keep);
  }

  /** Who is known at t, one row at a time: the newest row with known_at <= t, and nobody else. */
  lemma KnownIsNewest(z: Zone, rows: seq<Row>, r: Row, t: int)
    requires Unique(rows) && r in rows
    ensures KnownAt(VersionOf(z, rows, r), t) <==> Newest(Bounded(rows, t), r.key) == Some(r)
  {
    UniqueDistinct(rows);
    var newest := Newest(Bounded(rows, t), r.key);
    if r.knownAt <= t {
      assert r in Bounded(rows, t);
      var next := NextKnown(rows, r.key, r.knownAt);
      if next.Some? && next.value <= t {
        var x :| x in rows && x.key == r.key && x.knownAt == next.value;
        assert x in Bounded(rows, t);
      } else {
        assert newest.value in rows && SameIdentity(newest.value, r);
      }
    }
  }

  /**
   * The intervals of one series and period tile the known_at axis from its first version on: the
   * range predicate finds exactly one version if any was known, the one that newest-by-known_at
   * picks, and none otherwise.
   */
  lemma IntervalsTile(z: Zone, rows: seq<Row>, key: Key, t: int)
    requires Unique(rows)
    ensures Filter(AsOf(Versions(z, rows), t), (v: Version) => v.row.key == key)
            == match Newest(Bounded(rows, t), key) { case None => [] case Some(r) => [VersionOf(z, rows, r)] }
  {
    var f := (r: Row) => VersionOf(z, rows, r);
    var hit := (v: Version) => KnownAt(v, t) && v.row.key == key;
    VersionsByRow(z, rows);
    assert Versions(z, rows) == Map(rows, f);
    FilterFilter(Versions(z, rows), (v: Version) => KnownAt(v, t), (v: Version) => v.row.key == key, hit);
    FilterMap(rows, f, hit, (r: Row) => hit(f(r)));
    KnownRows(z, rows, key, t, (r: Row) => hit(f(r)));
  }

  lemma KnownRows(z: Zone, rows: seq<Row>, key: Key, t: int, hit: Row -> bool)
    requires Unique(rows)
    requires forall r :: r in rows ==> (hit(r) <==> KnownAt(VersionOf(z, rows, r), t) && r.key == key)
    ensures Filter(rows, hit) == match Newest(Bounded(rows, t), key) { case None => [] case Some(r) => [r] }
  {
    var newest := Newest(Bounded(rows, t), key);
    forall r | r in rows ensures hit(r) <==> newest == Some(r) {
      KnownIsNewest(z, rows, r, t);
    }
    if newest.None? {
      FilterNone(rows, hit);
    } else {
      UniqueDistinct(rows);
      FilterSingle(rows, hit, newest.value);
    }
  }

  /** Read through silver, bronze after any orderly history says what the full log says. */
  lemma SilverReadsTheLog(z: Zone, steps: seq<Step>, key: Key, t: int)
    requires Orderly(steps)
    ensures var hits := Filter(AsOf(Versions(z, Run(steps)), t), (v: Version) => v.row.key == key);
            match Newest(Bounded(Log(steps), t), key) {
              case None => hits == []
              case Some(r) => |hits| == 1 && hits[0].row.value == r.value
            }
  {
    LogRefinement(steps);
    IntervalsTile(z, Run(steps), key, t);
    assert Believed(Run(steps), key, t) == Believed(Log(steps), key, t);
  }

  lemma ReadAsRows(z: Zone, rows: seq<Row>, p: Version -> bool, q: Row -> bool)
    requires Unique(rows)
    requires forall r :: r in rows ==> (p(VersionOf(z, rows, r)) <==> q(r))
    ensures BronzeColumns(Filter(Versions(z, rows), p)) == Filter(rows, q)
  {
    VersionsByRow(z, rows);
    FilterMap(rows, r => VersionOf(z, rows, r), p, q);
  }

  /** Rebuilding the current view from bronze bounded at t is reading the full versions as of t, row for row. */
  lemma RestatingIsReading(z: Zone, rows: seq<Row>, t: int)
    requires Unique(rows)
    ensures BronzeColumns(Current(Versions(z, Bounded(rows, t)))) == BronzeColumns(AsOf(Versions(z, rows), t))
  {
    var bounded := Bounded(rows, t);
    var within := (r: Row) => r.knownAt <= t;
    var last := (r: Row) => NextKnown(bounded, r.key, r.knownAt).None?;
    var known := (r: Row) => KnownAt(VersionOf(z, rows, r), t);
    UniqueFilter(rows, within);
    ReadAsRows(z, bounded, (v: Version) => v.knownTo.None?, last);
    ReadAsRows(z, rows, (v: Version) => KnownAt(v, t), known);
    forall r | r in rows ensures known(r) <==> within(r) && last(r) {
      BoundedNext(rows, r.key, r.knownAt, t);
    }
    FilterFilter(rows, within, last, known);
  }

  lemma BoundedNext(rows: seq<Row>, key: Key, k: int, t: int)
    ensures NextKnown(Bounded(rows, t), key, k).None?
            <==> NextKnown(rows, key, k).None? || NextKnown(rows, key, k).value > t
  {
    var n := NextKnown(rows, key, k);
    if n.Some? {
      var x :| x in rows && x.key == key && x.knownAt == n.value;
      assert x in Bounded(rows, t) <==> n.value <= t;
    }
  }

  /** A version is believed at t exactly when it is known by then and nothing that follows it is. */
  lemma BelievedExact(z: Zone, rows: seq<Row>, i: nat, t: int)
    requires i < |rows|
    ensures KnownAt(Versions(z, rows)[i], t)
            <==> rows[i].knownAt <= t && forall j :: 0 <= j < |rows| && Follows(rows, i, j) ==> t < rows[j].knownAt
  {
    var next := Lead(rows, i, |rows|);
    if next.Some? {
      var j :| 0 <= j < |rows| && Follows(rows, i, j) && rows[j].knownAt == next.value;
    }
  }

  lemma {:induction false} AlikeReads(a: seq<Version>, b: seq<Version>, keep: Version -> bool)
    requires |a| == |b| && forall i :: 0 <= i < |a| ==> a[i].row == b[i].row && (keep(a[i]) <==> keep(b[i]))
    ensures BronzeColumns(Filter(a, keep)) == BronzeColumns(Filter(b, keep))
  {
    if a == [] {
    } else {
      var n := |a| - 1;
      AlikeReads(a[..n], b[..n], keep);
      MapSnoc(Filter(a[..n], keep), a[n], (v: Version) => v.row);
      MapSnoc(Filter(b[..n], keep), b[n], (v: Version) => v.row);
    }
  }

  lemma OldRowsAlike(z: Zone, rows: seq<Row>, later: seq<Row>, t: int, i: nat)
    requires i < |rows| && forall r :: r in later ==> r.knownAt > t
    ensures KnownAt(Versions(z, rows + later)[i], t) <==> KnownAt(Versions(z, rows)[i], t)
  {
    var all := rows + later;
    BelievedExact(z, rows, i, t);
    BelievedExact(z, all, i, t);
    forall j | 0 <= j < |all| ensures j < |rows| ==> (Follows(all, i, j) <==> Follows(rows, i, j)) {
    }
    forall j | |rows| <= j < |all| ensures t < all[j].knownAt {
      assert all[j] == later[j - |rows|] && later[j - |rows|] in later;
    }
  }

  lemma OldReadsAlike(z: Zone, rows: seq<Row>, later: seq<Row>, t: int, kept: seq<Version>)
    requires (forall r :: r in later ==> r.knownAt > t) && kept == Versions(z, rows + later)[..|rows|]
    ensures BronzeColumns(AsOf(kept, t)) == BronzeColumns(AsOf(Versions(z, rows), t))
  {
    forall i | 0 <= i < |rows| ensures KnownAt(kept[i], t) <==> KnownAt(Versions(z, rows)[i], t) {
      OldRowsAlike(z, rows, later, t, i);
    }
    AlikeReads(kept, Versions(z, rows), (v: Version) => KnownAt(v, t));
  }

  lemma NewRowUnread(z: Zone, rows: seq<Row>, later: seq<Row>, t: int, j: nat)
    requires j < |later| && later[j].knownAt > t
    ensures !KnownAt(Versions(z, rows + later)[|rows| + j], t)
  {
    assert (rows + later)[|rows| + j] == later[j];
  }

  lemma NewRowsUnread(z: Zone, rows: seq<Row>, later: seq<Row>, t: int, added: seq<Version>)
    requires (forall r :: r in later ==> r.knownAt > t) && added == Versions(z, rows + later)[|rows|..]
    ensures AsOf(added, t) == []
  {
    forall j | 0 <= j < |later| ensures !KnownAt(added[j], t) {
      assert later[j] in later;
      NewRowUnread(z, rows, later, t, j);
    }
    assert forall v :: v in added ==> !KnownAt(v, t);
    FilterNone(added, (v: Version) => KnownAt(v, t));
  }

  /** What was read as of t stays what it was: no append with a newer known_at, of whatever rows, can reach it. */
  lemma LaterAppendsUnseen(z: Zone, rows: seq<Row>, later: seq<Row>, t: int)
    requires forall r :: r in later ==> r.knownAt > t
    ensures BronzeColumns(AsOf(Versions(z, rows + later), t)) == BronzeColumns(AsOf(Versions(z, rows), t))
  {
    var all := Versions(z, rows + later);
    var kept, added := all[..|rows|], all[|rows|..];
    assert all == kept + added;
    FilterConcat(kept, added, (v: Version) => KnownAt(v, t));
    OldReadsAlike(z, rows, later, t, kept);
    NewRowsUnread(z, rows, later, t, added);
    assert AsOf(kept, t) + [] == AsOf(kept, t);
  }

  /** A window on valid_time commutes with `lead`, whose partitions it never splits. */
  lemma VersionsWithin(z: Zone, rows: seq<Row>, w: Interval)
    requires Unique(rows)
    ensures Filter(Versions(z, rows), (v: Version) => w.Holds(v.row.key.validTime)) == Versions(z, Within(rows, w))
  {
    var keep := (r: Row) => w.Holds(r.key.validTime);
    var inside := Within(rows, w);
    UniqueFilter(rows, keep);
    VersionsByRow(z, rows);
    VersionsByRow(z, inside);
    FilterMap(rows, r => VersionOf(z, rows, r), (v: Version) => w.Holds(v.row.key.validTime), keep);
    forall r | r in inside ensures VersionOf(z, rows, r) == VersionOf(z, inside, r) {
      NextKnownFilter(rows, r.key, r.knownAt, keep);
    }
  }

  lemma NextKnownFilter(rows: seq<Row>, key: Key, k: int, keep: Row -> bool)
    requires forall r :: r in rows && r.key == key ==> keep(r)
    ensures NextKnown(Filter(rows, keep), key, k) == NextKnown(rows, key, k)
  {
    NextKnownSame(Filter(rows, keep), rows, key, k);
  }

  lemma NextKnownSame(a: seq<Row>, b: seq<Row>, key: Key, k: int)
    requires forall x: Row :: x.key == key ==> (x in a <==> x in b)
    ensures NextKnown(a, key, k) == NextKnown(b, key, k)
  {
    NextKnownAtMost(a, b, key, k);
    NextKnownAtMost(b, a, key, k);
  }

  /** The versions table depends on which rows bronze holds, not on their order. */
  lemma VersionsSame(z: Zone, a: seq<Row>, b: seq<Row>)
    requires Unique(a) && Unique(b)
    ensures Same(Versions(z, a), Versions(z, b)) <==> Same(a, b)
    ensures Distinct(Versions(z, a))
  {
    VersionsByRow(z, a);
    VersionsByRow(z, b);
    UniqueDistinct(a);
    if Same(a, b) {
      forall r: Row ensures VersionOf(z, a, r) == VersionOf(z, b, r) {
        NextKnownSame(a, b, r.key, r.knownAt);
      }
      VersionsInclude(z, a, b);
      VersionsInclude(z, b, a);
    }
    if Same(Versions(z, a), Versions(z, b)) {
      RowsInclude(z, a, b);
      RowsInclude(z, b, a);
    }
  }

  /** No two different rows share an identity; the same row may be there twice. */
  predicate OneRowPerIdentity(rows: seq<Row>) {
    forall x, y :: x in rows && y in rows && SameIdentity(x, y) ==> x == y
  }

  /** The versions table holds the same rows whatever order bronze's are in. */
  ghost predicate OrderFree(z: Zone, rows: seq<Row>) {
    forall other :: multiset(other) == multiset(rows) ==> Same(Versions(z, other), Versions(z, rows))
  }

  /** A row with a copy after it has its own known_at as lead; its last copy has the next one. */
  predicate VersionHeld(rows: seq<Row>, r: Row, knownTo: Option<int>) {
    || (multiset(rows)[r] >= 2 && knownTo == Some(r.knownAt))
    || (r in rows && knownTo == NextKnown(rows, r.key, r.knownAt))
  }

  lemma CopiesFollow(rows: seq<Row>, i: nat, j: nat)
    requires i < j < |rows| && rows[i] == rows[j]
    ensures multiset(rows)[rows[i]] >= 2
  {
    assert rows == rows[..j] + rows[j..];
    assert rows[i] in rows[..j] && rows[j] in rows[j..];
  }

  lemma {:induction false} LastCopy(rows: seq<Row>, r: Row) returns (i: nat)
    requires r in rows
    ensures i < |rows| && rows[i] == r && forall j :: i < j < |rows| ==> rows[j] != r
  {
    var n := |rows| - 1;
    if rows[n] == r {
      i := n;
    } else {
      i := LastCopy(rows[..n], r);
    }
  }

  lemma EarlierCopy(rows: seq<Row>, r: Row, last: nat) returns (i: nat)
    requires multiset(rows)[r] >= 2 && last < |rows| && rows[last] == r
    requires forall j :: last < j < |rows| ==> rows[j] != r
    ensures i < last && rows[i] == r
  {
    assert rows == rows[..last] + [rows[last]] + rows[last + 1..];
    assert r !in rows[last + 1..];
    assert multiset(rows[last + 1..])[r] == 0;
    assert r in rows[..last];
    i :| 0 <= i < last && rows[i] == r;
  }

  lemma VersionsHeld(z: Zone, rows: seq<Row>, v: Version)
    requires OneRowPerIdentity(rows)
    ensures v in Versions(z, rows) <==> v == Derived(z, v.row, v.knownTo) && VersionHeld(rows, v.row, v.knownTo)
  {
    if v in Versions(z, rows) {
      var i :| 0 <= i < |rows| && Versions(z, rows)[i] == v;
      LeadExact(rows, i);
      if j :| i < j < |rows| && SameIdentity(rows[i], rows[j]) {
        assert rows[i] in rows && rows[j] in rows;
        CopiesFollow(rows, i, j);
      }
    }
    if v == Derived(z, v.row, v.knownTo) && VersionHeld(rows, v.row, v.knownTo) {
      var last := LastCopy(rows, v.row);
      LeadExact(rows, last);
      if v.knownTo != NextKnown(rows, v.row.key, v.row.knownAt) {
        var i := EarlierCopy(rows, v.row, last);
        LeadExact(rows, i);
        assert Versions(z, rows)[i] == v;
      } else {
        assert Versions(z, rows)[last] == v;
      }
    }
  }

  lemma SameBagSameRows(a: seq<Row>, b: seq<Row>)
    requires multiset(a) == multiset(b)
    ensures Same(a, b)
  {
    forall r ensures r in a <==> r in b {
      assert r in a <==> r in multiset(a);
      assert r in b <==> r in multiset(b);
    }
  }

  lemma HeldInAnyOrder(a: seq<Row>, b: seq<Row>, r: Row, knownTo: Option<int>)
    requires multiset(a)[r] == multiset(b)[r] && Same(a, b)
    ensures VersionHeld(a, r, knownTo) <==> VersionHeld(b, r, knownTo)
  {
    NextKnownSame(a, b, r.key, r.knownAt);
  }

  lemma OrderFreeHeld(z: Zone, rows: seq<Row>)
    requires OneRowPerIdentity(rows)
    ensures OrderFree(z, rows)
  {
    forall other | multiset(other) == multiset(rows) ensures Same(Versions(z, other), Versions(z, rows)) {
      SameBagSameRows(other, rows);
      forall v: Version ensures v in Versions(z, other) <==> v in Versions(z, rows) {
        VersionsHeld(z, other, v);
        VersionsHeld(z, rows, v);
        HeldInAnyOrder(other, rows, v.row, v.knownTo);
      }
    }
  }

  lemma TiedIsEmpty(z: Zone, rows: seq<Row>, i: nat, last: Row)
    requires i < |rows| && rows[|rows| - 1] == last && SameIdentity(rows[i], last) && rows[i] != last
    ensures Versions(z, rows)[i] == Derived(z, rows[i], Some(rows[i].knownAt))
  {
    assert i < |rows| - 1 && SameIdentity(rows[i], rows[|rows| - 1]);
    LeadTied(rows, i);
  }

  lemma FirstOfTieLoses(z: Zone, rows: seq<Row>, x: Row, knownTo: Option<int>)
    requires rows != [] && SameIdentity(x, rows[|rows| - 1]) && x != rows[|rows| - 1] && knownTo != Some(x.knownAt)
    ensures Derived(z, x, knownTo) !in Versions(z, rows)
  {
    var v := Derived(z, x, knownTo);
    forall i | 0 <= i < |rows| ensures Versions(z, rows)[i] != v {
      if rows[i] == x {
        TiedIsEmpty(z, rows, i, rows[|rows| - 1]);
      } else {
        assert Versions(z, rows)[i].row != x;
      }
    }
  }

  lemma LastOfTieWins(z: Zone, rows: seq<Row>)
    requires rows != []
    ensures var y := rows[|rows| - 1]; Derived(z, y, NextKnown(rows, y.key, y.knownAt)) in Versions(z, rows)
  {
    LeadUntied(rows, |rows| - 1);
    assert Versions(z, rows)[|rows| - 1] in Versions(z, rows);
  }

  lemma TieSplits(z: Zone, rest: seq<Row>, x: Row, y: Row)
    requires SameIdentity(x, y) && x != y
    ensures var a, b := rest + [x] + [y], rest + [y] + [x];
            multiset(a) == multiset(b) && !Same(Versions(z, a), Versions(z, b))
  {
    var a, b := rest + [x] + [y], rest + [y] + [x];
    var next := NextKnown(a, y.key, y.knownAt);
    assert multiset(a) == multiset(b);
    SameBagSameRows(a, b);
    LastOfTieWins(z, a);
    FirstOfTieLoses(z, b, y, next);
    assert Derived(z, y, next) in Versions(z, a);
  }

  lemma TiedRowsNotFree(z: Zone, rows: seq<Row>, x: Row, y: Row)
    requires x in rows && y in rows && SameIdentity(x, y) && x != y
    ensures !OrderFree(z, rows)
  {
    var rest := WithoutTwo(rows, x, y);
    var a, b := rest + [x] + [y], rest + [y] + [x];
    assert a == rest + [x, y];
    assert multiset(a) == multiset(rows) && multiset(b) == multiset(rows);
    if OrderFree(z, rows) {
      OrderFreePairs(z, rows, a, b);
      TieSplits(z, rest, x, y);
    }
  }

  lemma OrderFreePairs(z: Zone, rows: seq<Row>, a: seq<Row>, b: seq<Row>)
    requires OrderFree(z, rows) && multiset(a) == multiset(b) == multiset(rows)
    ensures Same(Versions(z, a), Versions(z, b))
  {
    assert Same(Versions(z, a), Versions(z, rows)) && Same(Versions(z, b), Versions(z, rows));
  }

  /** Table order shows in the versions exactly when two different rows share an identity. */
  lemma OrderMattersExact(z: Zone, rows: seq<Row>)
    ensures OrderFree(z, rows) <==> OneRowPerIdentity(rows)
  {
    if OneRowPerIdentity(rows) {
      OrderFreeHeld(z, rows);
    } else {
      var x, y :| x in rows && y in rows && SameIdentity(x, y) && x != y;
      TiedRowsNotFree(z, rows, x, y);
    }
  }

  lemma TakeOut(rows: seq<Row>, x: Row) returns (rest: seq<Row>)
    requires x in multiset(rows)
    ensures multiset(rows) == multiset(rest) + multiset{x}
  {
    var i :| 0 <= i < |rows| && rows[i] == x;
    SeqRemove(rows, i);
    rest := rows[..i] + rows[i + 1..];
  }

  lemma WithoutTwo(rows: seq<Row>, x: Row, y: Row) returns (rest: seq<Row>)
    requires x in rows && y in rows && x != y
    ensures multiset(rest + [x, y]) == multiset(rows)
  {
    var without := TakeOut(rows, x);
    assert y in multiset(rows);
    rest := TakeOut(without, y);
    assert multiset([x, y]) == multiset{x} + multiset{y};
  }

  lemma VersionsInclude(z: Zone, a: seq<Row>, b: seq<Row>)
    requires Unique(a) && Unique(b)
    requires forall r :: r in a ==> r in b && VersionOf(z, a, r) == VersionOf(z, b, r)
    ensures forall v :: v in Versions(z, a) ==> v in Versions(z, b)
  {
    VersionsByRow(z, a);
    VersionsByRow(z, b);
    forall v | v in Versions(z, a) ensures v in Versions(z, b) {
      var i :| 0 <= i < |a| && Versions(z, a)[i] == v;
      var j :| 0 <= j < |b| && b[j] == a[i];
      assert Versions(z, b)[j] == v;
    }
  }

  lemma RowsInclude(z: Zone, a: seq<Row>, b: seq<Row>)
    requires forall v :: v in Versions(z, a) ==> v in Versions(z, b)
    ensures forall r :: r in a ==> r in b
  {
    forall r | r in a ensures r in b {
      var i :| 0 <= i < |a| && a[i] == r;
      assert Versions(z, a)[i] in Versions(z, b);
    }
  }
}
