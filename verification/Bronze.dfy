/** The append-only bronze table and the MERGE that is the only thing to change it. */
module Bronze {
  import opened Prelude
  import opened TimeAxis
  import opened Records

  predicate SameIdentity(a: Row, b: Row) { a.key == b.key && a.knownAt == b.knownAt }

  /** No two rows carry the same bitemporal identity. */
  predicate Unique(rows: seq<Row>) {
    forall i, j :: 0 <= i < j < |rows| ==> !SameIdentity(rows[i], rows[j])
  }

  /** WHERE valid_time >= window_start AND valid_time < window_end. */
  function Within(rows: seq<Row>, w: Interval): seq<Row> {
    Filter(rows, (r: Row) => w.Holds(r.key.validTime))
  }

  /** row_number() ... ORDER BY known_at DESC = 1: the newest version held of one series and period. */
  function Newest(rows: seq<Row>, key: Key): (r: Option<Row>)
    ensures r.None? <==> forall x :: x in rows ==> x.key != key
    ensures r.Some? ==> r.value in rows && r.value.key == key
    ensures r.Some? ==> forall x :: x in rows && x.key == key ==> x.knownAt <= r.value.knownAt
  {
    if rows == [] then None
    else
      var init, last := rows[..|rows| - 1], rows[|rows| - 1];
      assert rows == init + [last];
      Newer(Newest(init, key), if last.key == key then Some(last) else None)
  }

  function Newer(a: Option<Row>, b: Option<Row>): Option<Row> {
    if b.Some? && (a.None? || a.value.knownAt <= b.value.knownAt) then b else a
  }

  /** The staged row differs from the newest version among `held`. */
  predicate Changed(held: seq<Row>, s: Row) {
    var latest := Newest(held, s.key);
    latest.None? || latest.value.value.quantity != s.value.quantity || latest.value.value.updatedAt != s.value.updatedAt
  }

  predicate Matched(held: seq<Row>, s: Row) { exists t :: t in held && SameIdentity(t, s) }

  predicate Insertable(held: seq<Row>, s: Row) { Changed(held, s) && !Matched(held, s) }

  /** The rows a MERGE appends: every decision reads the table as it was before the statement. */
  function Inserted(held: seq<Row>, staged: seq<Row>): seq<Row> {
    Filter(staged, s => Insertable(held, s))
  }

  /** The statement as written: both lookups are bounded by the window. */
  function Merge(bronze: seq<Row>, staged: seq<Row>, w: Interval): seq<Row> {
    bronze + Inserted(Within(bronze, w), staged)
  }

  /** The statement one would write without the window. */
  function MergeUnbounded(bronze: seq<Row>, staged: seq<Row>): seq<Row> {
    bronze + Inserted(bronze, staged)
  }

  predicate InWindow(staged: seq<Row>, w: Interval) {
    forall s :: s in staged ==> w.Holds(s.key.validTime)
  }

  /** One fetch: a single known_at, and at most one row per series and period. */
  predicate IsBatch(staged: seq<Row>, knownAt: int) {
    && (forall s :: s in staged ==> s.knownAt == knownAt)
    && forall i, j :: 0 <= i < j < |staged| ==> staged[i].key != staged[j].key
  }

  lemma NewerAssociative(a: Option<Row>, b: Option<Row>, c: Option<Row>)
    ensures Newer(Newer(a, b), c) == Newer(a, Newer(b, c))
  {
  }

  lemma {:induction false} NewestConcat(a: seq<Row>, b: seq<Row>, key: Key)
    ensures Newest(a + b, key) == Newer(Newest(a, key), Newest(b, key))
  {
    if b == [] {
      assert a + b == a;
    } else {
      var init, last := b[..|b| - 1], b[|b| - 1];
      NewestConcat(a, init, key);
      assert (a + b)[..|a + b| - 1] == a + init && (a + b)[|a + b| - 1] == last;
      NewerAssociative(Newest(a, key), Newest(init, key), if last.key == key then Some(last) else None);
    }
  }

  /** Rows with other keys never matter to a lookup. */
  lemma {:induction false} NewestFilter(rows: seq<Row>, key: Key, keep: Row -> bool)
    requires forall r :: r in rows && r.key == key ==> keep(r)
    ensures Newest(Filter(rows, keep), key) == Newest(rows, key)
  {
    if rows == [] {
    } else {
      var init, last := rows[..|rows| - 1], rows[|rows| - 1];
      assert rows == init + [last];
      NewestFilter(init, key, keep);
      if keep(last) {
        NewestConcat(Filter(init, keep), [last], key);
        assert [last][..0] == [];
      }
    }
  }

  lemma InsertableWithin(rows: seq<Row>, s: Row, w: Interval)
    requires w.Holds(s.key.validTime)
    ensures Insertable(Within(rows, w), s) <==> Insertable(rows, s)
  {
    NewestFilter(rows, s.key, (r: Row) => w.Holds(r.key.validTime));
  }

  /** The window only prunes: on rows staged inside it the bounded statement is the unbounded one. */
  lemma WindowPushdown(bronze: seq<Row>, staged: seq<Row>, w: Interval)
    requires InWindow(staged, w)
    ensures Merge(bronze, staged, w) == MergeUnbounded(bronze, staged)
  {
    forall s | s in staged ensures Insertable(Within(bronze, w), s) <==> Insertable(bronze, s) {
      InsertableWithin(bronze, s, w);
    }
    FilterCongruence(staged, s => Insertable(Within(bronze, w), s), s => Insertable(bronze, s));
  }

  /** The staged rows a window misses. */
  function Outside(staged: seq<Row>, w: Interval): seq<Row> {
    Filter(staged, (s: Row) => !w.Holds(s.key.validTime))
  }

  /** On the table a batch was just merged into, only rows the window misses can still be inserted. */
  lemma InsertableAgain(bronze: seq<Row>, staged: seq<Row>, w: Interval, s: Row)
    requires s in staged && forall r :: r in staged ==> r.knownAt == s.knownAt
    ensures Insertable(Within(Merge(bronze, staged, w), w), s) <==> !w.Holds(s.key.validTime)
  {
    var added := Inserted(Within(bronze, w), staged);
    if w.Holds(s.key.validTime) {
      InsertableWithin(bronze, s, w);
      InsertableWithin(bronze + added, s, w);
      if x :| x in added && x.key == s.key {
        assert x in bronze + added && SameIdentity(x, s);
      } else {
        NewestConcat(bronze, added, s.key);
        assert Newest(added, s.key).None?;
        assert s !in added;
        if t :| t in bronze && SameIdentity(t, s) {
          assert t in bronze + added;
        }
      }
    }
  }

  /** Running a batch again inserts exactly the rows its window misses, once more each. */
  lemma OutsideWindowReinserts(bronze: seq<Row>, staged: seq<Row>, w: Interval, knownAt: int)
    requires forall s :: s in staged ==> s.knownAt == knownAt
    ensures var after := Merge(bronze, staged, w); Merge(after, staged, w) == after + Outside(staged, w)
  {
    var held := Within(Merge(bronze, staged, w), w);
    forall s | s in staged ensures Insertable(held, s) <==> !w.Holds(s.key.validTime) {
      InsertableAgain(bronze, staged, w, s);
    }
    FilterCongruence(staged, s => Insertable(held, s), (s: Row) => !w.Holds(s.key.validTime));
  }

  /** A retry inserts nothing exactly when every staged row lies in the window. */
  lemma MergeIdempotent(bronze: seq<Row>, staged: seq<Row>, w: Interval, knownAt: int)
    requires forall s :: s in staged ==> s.knownAt == knownAt
    ensures Merge(Merge(bronze, staged, w), staged, w) == Merge(bronze, staged, w) <==> InWindow(staged, w)
  {
    var after := Merge(bronze, staged, w);
    OutsideWindowReinserts(bronze, staged, w, knownAt);
    assert |after + Outside(staged, w)| == |after| + |Outside(staged, w)|;
    if InWindow(staged, w) {
      FilterNone(staged, (s: Row) => !w.Holds(s.key.validTime));
      assert after + [] == after;
    } else {
      var s :| s in staged && !w.Holds(s.key.validTime);
      assert s in Outside(staged, w);
    }
  }

  /** A staged row the statement has no reason to insert: held under its identity, or the newest version unchanged. */
  predicate NothingNew(bronze: seq<Row>, s: Row) { Matched(bronze, s) || !Changed(bronze, s) }

  /** On any table, a merge inserts nothing exactly when each staged row lies in the window and has nothing new. */
  lemma MergeInsertsNothingExact(bronze: seq<Row>, staged: seq<Row>, w: Interval)
    ensures Merge(bronze, staged, w) == bronze
            <==> forall s :: s in staged ==> w.Holds(s.key.validTime) && NothingNew(bronze, s)
  {
    var held := Within(bronze, w);
    var added := Inserted(held, staged);
    assert |bronze + added| == |bronze| + |added|;
    forall s | s in staged ensures Insertable(held, s) <==> !(w.Holds(s.key.validTime) && NothingNew(bronze, s)) {
      if w.Holds(s.key.validTime) {
        InsertableWithin(bronze, s, w);
      }
    }
    if added == [] {
      forall s | s in staged ensures !Insertable(held, s) {
        assert s !in added;
      }
    } else {
      assert added[0] in added;
    }
  }

  lemma UniqueConcat(a: seq<Row>, b: seq<Row>)
    ensures Unique(a + b) <==> Unique(a) && Unique(b) && forall x, y :: x in a && y in b ==> !SameIdentity(x, y)
  {
    if Unique(a + b) {
      assert forall i :: 0 <= i < |a| ==> (a + b)[i] == a[i];
      assert forall j :: 0 <= j < |b| ==> (a + b)[|a| + j] == b[j];
    }
  }

  lemma UniqueSnoc(rows: seq<Row>, last: Row)
    ensures Unique(rows + [last]) <==> Unique(rows) && forall x :: x in rows ==> !SameIdentity(x, last)
  {
    UniqueConcat(rows, [last]);
  }

  /** No two of the rows kept carry the same identity. */
  predicate UniqueAmong(rows: seq<Row>, keep: Row -> bool) {
    forall i, j :: 0 <= i < j < |rows| && keep(rows[i]) && keep(rows[j]) ==> !SameIdentity(rows[i], rows[j])
  }

  lemma {:induction false} UniqueAmongExact(rows: seq<Row>, keep: Row -> bool)
    ensures Unique(Filter(rows, keep)) <==> UniqueAmong(rows, keep)
  {
    if rows == [] {
    } else {
      var init, last := rows[..|rows| - 1], rows[|rows| - 1];
      UniqueAmongExact(init, keep);
      assert rows == init + [last];
      UniqueAmongStep(init, last, keep);
    }
  }

  lemma UniqueAmongStep(init: seq<Row>, last: Row, keep: Row -> bool)
    requires Unique(Filter(init, keep)) <==> UniqueAmong(init, keep)
    ensures Unique(Filter(init + [last], keep)) <==> UniqueAmong(init + [last], keep)
  {
    FilterSnoc(init, last, keep);
    UniqueAmongSnoc(init, last, keep);
    if keep(last) {
      UniqueSnoc(Filter(init, keep), last);
    } else {
      assert Filter(init, keep) + [] == Filter(init, keep);
    }
  }

  lemma UniqueAmongSnoc(init: seq<Row>, last: Row, keep: Row -> bool)
    ensures UniqueAmong(init + [last], keep)
            <==> UniqueAmong(init, keep) && (keep(last) ==> forall x :: x in init && keep(x) ==> !SameIdentity(x, last))
  {
    var rows := init + [last];
    assert forall i :: 0 <= i < |init| ==> rows[i] == init[i];
    assert rows[|init|] == last;
    if UniqueAmong(rows, keep) && keep(last) {
      forall x | x in init && keep(x) ensures !SameIdentity(x, last) {
        var i :| 0 <= i < |init| && init[i] == x;
        assert !SameIdentity(rows[i], rows[|init|]);
      }
    }
  }

  /** What keeps identities unique: no two rows to be inserted share one, and no row the window misses is held. */
  predicate InsertsUniquely(bronze: seq<Row>, staged: seq<Row>, w: Interval) {
    && UniqueAmong(staged, s => Insertable(Within(bronze, w), s))
    && forall s :: s in staged && !w.Holds(s.key.validTime) ==> !Matched(bronze, s)
  }

  /**
   * Append-only: old rows stay where they are. No identity comes to appear twice exactly when the rows
   * the statement inserts repeat none among themselves, and the window misses none that is already held.
   */
  lemma MergeKeepsHistory(bronze: seq<Row>, staged: seq<Row>, w: Interval)
    ensures bronze <= Merge(bronze, staged, w)
    ensures Unique(Merge(bronze, staged, w)) <==> Unique(bronze) && InsertsUniquely(bronze, staged, w)
  {
    var held := Within(bronze, w);
    var added := Inserted(held, staged);
    UniqueAmongExact(staged, s => Insertable(held, s));
    UniqueConcat(bronze, added);
    forall s | s in added ensures Matched(bronze, s) ==> !w.Holds(s.key.validTime) {
      assert Insertable(held, s);
    }
    forall s | s in staged && !w.Holds(s.key.validTime) ensures s in added {
      assert Insertable(held, s);
    }
  }

  /** A batch, which has one row per series and period, always does. */
  lemma BatchInsertsUniquely(bronze: seq<Row>, staged: seq<Row>, w: Interval, knownAt: int)
    requires IsBatch(staged, knownAt) && InWindow(staged, w)
    ensures InsertsUniquely(bronze, staged, w)
  {
  }

  /** What one statement appends is decided by its own window: merges elsewhere cannot be seen. */
  lemma MergesElsewhereUnseen(bronze: seq<Row>, other: seq<Row>, w: Interval)
    requires forall r :: r in other ==> !w.Holds(r.key.validTime)
    ensures Within(bronze + other, w) == Within(bronze, w)
  {
    FilterConcat(bronze, other, (r: Row) => w.Holds(r.key.validTime));
    FilterNone(other, (r: Row) => w.Holds(r.key.validTime));
  }

  datatype LoadError = BadBatchId | NotUtc | EmptyWindow | QueryFailed

  /** A window bound as the caller passes it: an instant, and the offset it is expressed in if any. */
  datatype Moment = Moment(instant: int, offset: Option<int>)

  predicate IsUtc(m: Moment) { m.offset == Some(0) }

  /** str.isalnum on a nonempty string; which characters are letters or digits is Unicode's to say. */
  predicate IsBatchId(id: string, alphanumeric: char -> bool) {
    id != "" && forall c :: c in id ==> alphanumeric(c)
  }

  function Remember(latest: map<Key, Row>, row: Row): map<Key, Row> {
    if row.key !in latest || latest[row.key].knownAt <= row.knownAt then latest[row.key := row] else latest
  }

  /** The left join's side of the statement: the newest version of each series and period held. */
  function LatestOf(held: seq<Row>): map<Key, Row> {
    if held == [] then map[] else Remember(LatestOf(held[..|held| - 1]), held[|held| - 1])
  }

  /** The ON clause's side: the identities held. */
  function IdentitiesOf(held: seq<Row>): set<(Key, int)> {
    if held == [] then {}
    else IdentitiesOf(held[..|held| - 1]) + {(held[|held| - 1].key, held[|held| - 1].knownAt)}
  }

  ghost predicate IndexesNewest(latest: map<Key, Row>, held: seq<Row>) {
    forall k :: Newest(held, k) == if k in latest then Some(latest[k]) else None
  }

  ghost predicate IndexesIdentities(identities: set<(Key, int)>, held: seq<Row>) {
    forall s: Row :: (s.key, s.knownAt) in identities <==> Matched(held, s)
  }

  lemma {:induction false} LatestExact(held: seq<Row>)
    ensures IndexesNewest(LatestOf(held), held)
  {
    if held == [] {
    } else {
      LatestExact(held[..|held| - 1]);
    }
  }

  lemma {:induction false} IdentitiesExact(held: seq<Row>)
    ensures IndexesIdentities(IdentitiesOf(held), held)
  {
    if held == [] {
    } else {
      var init, last := held[..|held| - 1], held[|held| - 1];
      IdentitiesExact(init);
      assert held == init + [last];
      forall s ensures Matched(held, s) <==> Matched(init, s) || SameIdentity(last, s) {
        assert forall t :: t in held <==> t in init || t == last;
      }
    }
  }

  lemma LatestSnoc(held: seq<Row>, row: Row)
    ensures LatestOf(held + [row]) == Remember(LatestOf(held), row)
    ensures IdentitiesOf(held + [row]) == IdentitiesOf(held) + {(row.key, row.knownAt)}
  {
    assert (held + [row])[..|held|] == held;
  }

  predicate IndexedInsertable(latest: map<Key, Row>, identities: set<(Key, int)>, s: Row) {
    && (|| s.key !in latest
        || latest[s.key].value.quantity != s.value.quantity
        || latest[s.key].value.updatedAt != s.value.updatedAt)
    && (s.key, s.knownAt) !in identities
  }

  /** What the indexes say of a staged row is what the lookups say. */
  lemma IndexDecides(held: seq<Row>, s: Row)
    ensures Insertable(held, s) <==> IndexedInsertable(LatestOf(held), IdentitiesOf(held), s)
  {
    LatestExact(held);
    IdentitiesExact(held);
    assert Newest(held, s.key) == if s.key in LatestOf(held) then Some(LatestOf(held)[s.key]) else None;
  }

  lemma InsertedSnoc(held: seq<Row>, staged: seq<Row>, s: Row)
    ensures Inserted(held, staged + [s])
            == if Insertable(held, s) then Inserted(held, staged) + [s] else Inserted(held, staged)
  {
    FilterSnoc(staged, s, x => Insertable(held, x));
  }

  class Lake {
    var bronze: seq<Row>

    constructor ()
      ensures bronze == []
    {
      bronze := [];
    }

    /** The statement's two lookups, built in one pass over the table. */
    static method Index(rows: seq<Row>, w: Interval) returns (latest: map<Key, Row>, identities: set<(Key, int)>)
      ensures IndexesNewest(latest, Within(rows, w))
      ensures IndexesIdentities(identities, Within(rows, w))
      ensures latest == LatestOf(Within(rows, w)) && identities == IdentitiesOf(Within(rows, w))
    {
      latest, identities := map[], {};
      ghost var held: seq<Row> := [];
      for i := 0 to |rows|
        invariant held == Within(rows[..i], w)
        invariant latest == LatestOf(held) && identities == IdentitiesOf(held)
      {
        assert rows[..i + 1] == rows[..i] + [rows[i]];
        FilterSnoc(rows[..i], rows[i], (r: Row) => w.Holds(r.key.validTime));
        if w.Holds(rows[i].key.validTime) {
          LatestSnoc(held, rows[i]);
          held := held + [rows[i]];
          latest := Remember(latest, rows[i]);
          identities := identities + {(rows[i].key, rows[i].knownAt)};
        }
      }
      assert rows[..|rows|] == rows;
      LatestExact(Within(rows, w));
      IdentitiesExact(Within(rows, w));
    }

    /** The staged rows that differ from the newest version indexed and match no identity. */
    static method Select(latest: map<Key, Row>, identities: set<(Key, int)>, staged: seq<Row>, ghost held: seq<Row>)
      returns (added: seq<Row>)
      requires latest == LatestOf(held) && identities == IdentitiesOf(held)
      ensures added == Inserted(held, staged)
    {
      added := [];
      for i := 0 to |staged|
        invariant added == Inserted(held, staged[..i])
      {
        var s := staged[i];
        assert staged[..i + 1] == staged[..i] + [s];
        InsertedSnoc(held, staged[..i], s);
        IndexDecides(held, s);
        if IndexedInsertable(latest, identities, s) {
          added := added + [s];
        }
      }
      assert staged[..|staged|] == staged;
    }

    method MergeRows(staged: seq<Row>, w: Interval)
      modifies this
      ensures bronze == Merge(old(bronze), staged, w)
    {
      var latest, identities := Index(bronze, w);
      var added := Select(latest, identities, staged, Within(bronze, w));
      bronze := bronze + added;
    }

    /** merge_batch: refuse bad arguments, run the statement, and report an engine failure. */
    method MergeBatch(batchId: string, alphanumeric: char -> bool, staged: seq<Row>, start: Moment, end: Moment,
                      engineSucceeds: bool)
      returns (r: Result<(), LoadError>)
      modifies this
      ensures r == Err(BadBatchId) <==> batchId == "" || exists c :: c in batchId && !alphanumeric(c)
      ensures r == Err(NotUtc)
              <==> IsBatchId(batchId, alphanumeric) && (start.offset != Some(0) || end.offset != Some(0))
      ensures r == Err(EmptyWindow)
              <==> IsBatchId(batchId, alphanumeric) && IsUtc(start) && IsUtc(end) && end.instant <= start.instant
      ensures r == Err(QueryFailed)
              <==> && IsBatchId(batchId, alphanumeric) && IsUtc(start) && IsUtc(end) && start.instant < end.instant
                   && !engineSucceeds
      ensures r.Ok?
              <==> && IsBatchId(batchId, alphanumeric) && IsUtc(start) && IsUtc(end) && start.instant < end.instant
                   && engineSucceeds
      ensures r.Ok? ==> bronze == Merge(old(bronze), staged, Interval(start.instant, end.instant))
      ensures r.Err? ==> bronze == old(bronze)
    {
      if !IsBatchId(batchId, alphanumeric) { return Err(BadBatchId); }
      if !IsUtc(start) || !IsUtc(end) { return Err(NotUtc); }
      if end.instant <= start.instant { return Err(EmptyWindow); }
      if !engineSucceeds { return Err(QueryFailed); }
      MergeRows(staged, Interval(start.instant, end.instant));
      return Ok(());
    }
  }
}
