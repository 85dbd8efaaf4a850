/** What bronze answers, compared with a log of every row ever staged. */
module Refinement {
  import opened Prelude
  import opened TimeAxis
  import opened Records
  import opened Bronze

  /** WHERE known_at <= t. */
  function Bounded(rows: seq<Row>, t: int): seq<Row> {
    Filter(rows, (r: Row) => r.knownAt <= t)
  }

  /** What a table of versions says about one series and period, as known at `t`. */
  function Believed(rows: seq<Row>, key: Key, t: int): Option<Value> {
    var r := Newest(Bounded(rows, t), key);
    if r.Some? then Some(r.value.value) else None
  }

  /** The deduplicated table and the plain log give one answer to every as-of question. */
  ghost predicate Refines(bronze: seq<Row>, log: seq<Row>) {
    forall key, t :: Believed(bronze, key, t) == Believed(log, key, t)
  }

  /** The known_at of the next version after `k`, if there is one. */
  function NextKnown(rows: seq<Row>, key: Key, k: int): (r: Option<int>)
    ensures r.None? <==> forall x :: x in rows && x.key == key ==> x.knownAt <= k
    ensures r.Some? ==> exists x :: x in rows && x.key == key && x.knownAt == r.value > k
    ensures r.Some? ==> forall x :: x in rows && x.key == key && x.knownAt > k ==> r.value <= x.knownAt
  {
    if rows == [] then None
    else
      var init, x := rows[..|rows| - 1], rows[|rows| - 1];
      assert rows == init + [x];
      var next := NextKnown(init, key, k);
      if x.key == key && x.knownAt > k && (next.None? || x.knownAt < next.value) then Some(x.knownAt) else next
  }

  /** The last row of a log that concerns a series and period. */
  function LastLogged(log: seq<Row>, key: Key): Option<Row> {
    if log == [] then None
    else if log[|log| - 1].key == key then Some(log[|log| - 1])
    else LastLogged(log[..|log| - 1], key)
  }

  predicate Ascends(log: seq<Row>) {
    forall i, j :: 0 <= i < j < |log| ==> log[i].knownAt <= log[j].knownAt
  }

  /** In a log that runs forward in known_at, the newest version is simply the last row written. */
  lemma {:induction false} NewestIsLastLogged(log: seq<Row>, key: Key)
    requires Ascends(log)
    ensures Newest(log, key) == LastLogged(log, key)
  {
    if log == [] {
    } else {
      NewestIsLastLogged(log[..|log| - 1], key);
    }
  }

  /** Nothing about a series and period becomes known after `k` and up to `t`. */
  predicate Quiet(rows: seq<Row>, key: Key, k: int, t: int) {
    forall r :: r in rows && r.key == key ==> !(k < r.knownAt <= t)
  }

  lemma NewestUpTo(rows: seq<Row>, key: Key, k: int, t: int)
    requires k <= t && Quiet(rows, key, k, t)
    ensures Newest(Bounded(rows, t), key) == Newest(Bounded(rows, k), key)
  {
    FilterFilter(rows, (r: Row) => r.knownAt <= t, (r: Row) => r.knownAt <= k, (r: Row) => r.knownAt <= k);
    NewestFilter(Bounded(rows, t), key, (r: Row) => r.knownAt <= k);
  }

  lemma NewestUnbounded(rows: seq<Row>, key: Key, k: int)
    requires forall r :: r in rows && r.key == key ==> r.knownAt <= k
    ensures Newest(Bounded(rows, k), key) == Newest(rows, key)
  {
    NewestFilter(rows, key, (r: Row) => r.knownAt <= k);
  }

  /** Appending rows of one known_at changes an answer only from then on, and only where they are the newest. */
  lemma BelievedConcat(rows: seq<Row>, more: seq<Row>, k: int, key: Key, t: int)
    requires forall r :: r in more ==> r.knownAt == k
    ensures var x, s := Newest(Bounded(rows, t), key), Newest(more, key);
            Believed(rows + more, key, t)
            == if t < k || s.None? || (x.Some? && x.value.knownAt > k) then Believed(rows, key, t)
               else Some(s.value.value)
  {
    FilterConcat(rows, more, (r: Row) => r.knownAt <= t);
    NewestConcat(Bounded(rows, t), Bounded(more, t), key);
    if t < k {
      FilterNone(more, (r: Row) => r.knownAt <= t);
    } else {
      FilterAll(more, (r: Row) => r.knownAt <= t);
    }
  }

  lemma BatchRow(staged: seq<Row>, k: int, s: Row)
    requires IsBatch(staged, k) && s in staged
    ensures Newest(staged, s.key) == Some(s)
  {
  }

  lemma InsertedRow(held: seq<Row>, staged: seq<Row>, k: int, s: Row)
    requires IsBatch(staged, k) && s in staged
    ensures Newest(Inserted(held, staged), s.key) == if Insertable(held, s) then Some(s) else None
  {
    BatchRow(staged, k, s);
    assert forall x :: x in staged && x.key == s.key ==> x == s;
    assert Insertable(held, s) ==> s in Inserted(held, staged);
  }

  /**
   * The test staging row `s` has to pass: either it says nothing new about its own known_at, or it will
   * be inserted and no later observation of its period was suppressed before the next version bronze
   * holds. The last clause reads the log, which bronze does not keep: no test of bronze alone can replace
   * it (Runs.BronzeCannotTell). Someone who stages in known_at order passes it without looking.
   */
  predicate Harmless(bronze: seq<Row>, log: seq<Row>, s: Row) {
    || Believed(bronze, s.key, s.knownAt) == Some(s.value)
    || (Insertable(bronze, s) && NextKnown(log, s.key, s.knownAt) == NextKnown(bronze, s.key, s.knownAt))
  }

  /** One MERGE, in any known_at order, keeps the refinement exactly when every staged row passes that test. */
  lemma MergeRefinesExactly(bronze: seq<Row>, log: seq<Row>, staged: seq<Row>, w: Interval, k: int)
    requires Refines(bronze, log) && (forall r :: r in bronze ==> r in log)
    requires IsBatch(staged, k) && InWindow(staged, w)
    ensures Refines(Merge(bronze, staged, w), log + staged) <==> forall s :: s in staged ==> Harmless(bronze, log, s)
  {
    WindowPushdown(bronze, staged, w);
    if forall s :: s in staged ==> Harmless(bronze, log, s) {
      HarmlessSuffices(bronze, log, staged, k);
    }
    if Refines(bronze + Inserted(bronze, staged), log + staged) {
      RefinementNeedsHarmless(bronze, log, staged, k);
    }
  }

  lemma HarmlessSuffices(bronze: seq<Row>, log: seq<Row>, staged: seq<Row>, k: int)
    requires Refines(bronze, log) && (forall r :: r in bronze ==> r in log) && IsBatch(staged, k)
    requires forall s :: s in staged ==> Harmless(bronze, log, s)
    ensures Refines(bronze + Inserted(bronze, staged), log + staged)
  {
    var after := bronze + Inserted(bronze, staged);
    forall key, t ensures Believed(after, key, t) == Believed(log + staged, key, t) {
      BelievedConcat(bronze, Inserted(bronze, staged), k, key, t);
      BelievedConcat(log, staged, k, key, t);
      if s :| s in staged && s.key == key {
        BatchRow(staged, k, s);
        InsertedRow(bronze, staged, k, s);
        if t >= k {
          HarmlessAt(bronze, log, s, t);
        }
      }
    }
  }

  lemma RefinementNeedsHarmless(bronze: seq<Row>, log: seq<Row>, staged: seq<Row>, k: int)
    requires Refines(bronze, log) && (forall r :: r in bronze ==> r in log) && IsBatch(staged, k)
    requires Refines(bronze + Inserted(bronze, staged), log + staged)
    ensures forall s :: s in staged ==> Harmless(bronze, log, s)
  {
    forall s | s in staged ensures Harmless(bronze, log, s) {
      BatchRow(staged, k, s);
      InsertedRow(bronze, staged, k, s);
      var added, next := Inserted(bronze, staged), NextKnown(log, s.key, s.knownAt);
      assert Believed(bronze + added, s.key, s.knownAt) == Believed(log + staged, s.key, s.knownAt);
      if next.Some? {
        assert Believed(bronze, s.key, next.value) == Believed(log, s.key, next.value);
        assert Believed(bronze + added, s.key, next.value) == Believed(log + staged, s.key, next.value);
      }
      HarmlessNeeded(bronze, log, added, staged, s, next);
    }
  }

  lemma HarmlessAt(bronze: seq<Row>, log: seq<Row>, s: Row, t: int)
    requires Refines(bronze, log) && (forall r :: r in bronze ==> r in log)
    requires Harmless(bronze, log, s) && t >= s.knownAt
    ensures var x, y := Newest(Bounded(bronze, t), s.key), Newest(Bounded(log, t), s.key);
            (if !Insertable(bronze, s) || (x.Some? && x.value.knownAt > s.knownAt) then Believed(bronze, s.key, t)
             else Some(s.value))
            == if y.Some? && y.value.knownAt > s.knownAt then Believed(log, s.key, t) else Some(s.value)
  {
    var key, k := s.key, s.knownAt;
    var x, y := Newest(Bounded(bronze, t), key), Newest(Bounded(log, t), key);
    if x.None? || x.value.knownAt <= k {
      NewestUpTo(bronze, key, k, t) by {
        forall r | r in bronze && r.key == key ensures !(k < r.knownAt <= t) {
          if r.knownAt <= t { assert r in Bounded(bronze, t); }
        }
      }
    }
    if y.None? || y.value.knownAt <= k {
      NewestUpTo(log, key, k, t) by {
        forall r | r in log && r.key == key ensures !(k < r.knownAt <= t) {
          if r.knownAt <= t { assert r in Bounded(log, t); }
        }
      }
    }
    assert Believed(bronze, key, k) == Believed(log, key, k);
    assert Believed(bronze, key, t) == Believed(log, key, t);
    if Believed(bronze, key, k) != Some(s.value) {
      if y.Some? && y.value.knownAt > k {
        var next := NextKnown(bronze, key, k);
        var r :| r in bronze && r.key == key && r.knownAt == next.value > k;
        assert r in Bounded(bronze, t);
      }
    }
  }

  /** The test is needed: it follows from the answers at the row's own known_at and at its successor's in the log. */
  lemma HarmlessNeeded(bronze: seq<Row>, log: seq<Row>, added: seq<Row>, staged: seq<Row>, s: Row, next: Option<int>)
    requires forall r :: r in bronze ==> r in log
    requires forall r :: r in added || r in staged ==> r.knownAt == s.knownAt
    requires Newest(staged, s.key) == Some(s)
    requires Newest(added, s.key) == if Insertable(bronze, s) then Some(s) else None
    requires next == NextKnown(log, s.key, s.knownAt)
    requires Believed(bronze + added, s.key, s.knownAt) == Believed(log + staged, s.key, s.knownAt)
    requires next.Some? ==> Believed(bronze, s.key, next.value) == Believed(log, s.key, next.value)
    requires next.Some? ==> Believed(bronze + added, s.key, next.value) == Believed(log + staged, s.key, next.value)
    ensures Harmless(bronze, log, s)
  {
    InsertionNeeded(bronze, log, added, staged, s);
    if Believed(bronze, s.key, s.knownAt) != Some(s.value) {
      SuccessorAgrees(bronze, log, added, staged, s, next);
    }
  }

  lemma SuccessorAgrees(bronze: seq<Row>, log: seq<Row>, added: seq<Row>, staged: seq<Row>, s: Row, next: Option<int>)
    requires forall r :: r in bronze ==> r in log
    requires forall r :: r in added || r in staged ==> r.knownAt == s.knownAt
    requires Newest(staged, s.key) == Newest(added, s.key) == Some(s)
    requires next == NextKnown(log, s.key, s.knownAt) && Believed(bronze, s.key, s.knownAt) != Some(s.value)
    requires next.Some? ==> Believed(bronze, s.key, next.value) == Believed(log, s.key, next.value)
    requires next.Some? ==> Believed(bronze + added, s.key, next.value) == Believed(log + staged, s.key, next.value)
    ensures next == NextKnown(bronze, s.key, s.knownAt)
  {
    if next != NextKnown(bronze, s.key, s.knownAt) {
      var r := NextInLogOnly(bronze, log, s.key, s.knownAt);
      SuccessorInLogOnly(bronze, log, added, staged, s, r);
    }
  }

  /** When the inserted row's successor is in the log alone, the row can only be harmless by saying nothing new. */
  lemma SuccessorInLogOnly(bronze: seq<Row>, log: seq<Row>, added: seq<Row>, staged: seq<Row>, s: Row, r: Row)
    requires forall x :: x in added || x in staged ==> x.knownAt == s.knownAt
    requires Newest(staged, s.key) == Newest(added, s.key) == Some(s) && s.knownAt < r.knownAt
    requires r in log && r.key == s.key && Quiet(bronze, s.key, s.knownAt, r.knownAt)
    requires Believed(bronze, s.key, r.knownAt) == Believed(log, s.key, r.knownAt)
    requires Believed(bronze + added, s.key, r.knownAt) == Believed(log + staged, s.key, r.knownAt)
    ensures Believed(bronze, s.key, s.knownAt) == Some(s.value)
  {
    LaterObservation(bronze, log, added, staged, s, r);
    NewestUpTo(bronze, s.key, s.knownAt, r.knownAt);
  }

  /** A row that says something new about its own known_at has to be inserted. */
  lemma InsertionNeeded(bronze: seq<Row>, log: seq<Row>, added: seq<Row>, staged: seq<Row>, s: Row)
    requires forall r :: r in added || r in staged ==> r.knownAt == s.knownAt
    requires Newest(staged, s.key) == Some(s)
    requires Newest(added, s.key) == if Insertable(bronze, s) then Some(s) else None
    requires Believed(bronze + added, s.key, s.knownAt) == Believed(log + staged, s.key, s.knownAt)
    ensures Believed(bronze, s.key, s.knownAt) == Some(s.value) || Insertable(bronze, s)
  {
    BelievedConcat(bronze, added, s.knownAt, s.key, s.knownAt);
    BelievedConcat(log, staged, s.knownAt, s.key, s.knownAt);
  }

  /** The log's next version, when bronze has none until after it. */
  lemma NextInLogOnly(bronze: seq<Row>, log: seq<Row>, key: Key, k: int) returns (r: Row)
    requires forall x :: x in bronze ==> x in log
    requires NextKnown(log, key, k) != NextKnown(bronze, key, k)
    ensures r in log && r.key == key && k < r.knownAt && NextKnown(log, key, k) == Some(r.knownAt)
    ensures Quiet(bronze, key, k, r.knownAt)
  {
    NextKnownAtMost(bronze, log, key, k);
    var n := NextKnown(log, key, k);
    r :| r in log && r.key == key && r.knownAt == n.value > k;
    QuietBeforeNext(bronze, key, k, r.knownAt);
  }

  lemma QuietBeforeNext(rows: seq<Row>, key: Key, k: int, t: int)
    requires NextKnown(rows, key, k).None? || t < NextKnown(rows, key, k).value
    ensures Quiet(rows, key, k, t)
  {
    forall r | r in rows && r.key == key && k < r.knownAt ensures t < r.knownAt {
      NextIsFirst(rows, key, k, r);
    }
  }

  lemma NextIsFirst(rows: seq<Row>, key: Key, k: int, r: Row)
    requires r in rows && r.key == key && k < r.knownAt
    ensures NextKnown(rows, key, k).Some? && NextKnown(rows, key, k).value <= r.knownAt
  {
  }

  /** More rows can only bring the next version closer. */
  lemma NextKnownAtMost(a: seq<Row>, b: seq<Row>, key: Key, k: int)
    requires forall x :: x in a && x.key == key ==> x in b
    ensures NextKnown(a, key, k).Some?
            ==> NextKnown(b, key, k).Some? && NextKnown(b, key, k).value <= NextKnown(a, key, k).value
  {
    var n := NextKnown(a, key, k);
    if n.Some? {
      var x :| x in a && x.key == key && x.knownAt == n.value > k;
      assert x in b;
    }
  }

  /** At the log's next observation the log has moved on, while bronze would still show the inserted row. */
  lemma LaterObservation(bronze: seq<Row>, log: seq<Row>, added: seq<Row>, staged: seq<Row>, s: Row, r: Row)
    requires forall x :: x in added || x in staged ==> x.knownAt == s.knownAt
    requires Newest(staged, s.key) == Newest(added, s.key) == Some(s) && s.knownAt < r.knownAt
    requires r in log && r.key == s.key && Quiet(bronze, s.key, s.knownAt, r.knownAt)
    ensures Believed(log + staged, s.key, r.knownAt) == Believed(log, s.key, r.knownAt)
    ensures Believed(bronze + added, s.key, r.knownAt) == Some(s.value)
  {
    assert r in Bounded(log, r.knownAt);
    BelievedConcat(bronze, added, s.knownAt, s.key, r.knownAt);
    BelievedConcat(log, staged, s.knownAt, s.key, r.knownAt);
  }
}
