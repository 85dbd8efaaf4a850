/** Whole histories of merges: first fetches in known_at order, with retries of any of them anywhere. */
module Runs {
  import opened Prelude
  import opened TimeAxis
  import opened Records
  import opened Bronze
  import opened Refinement

  datatype Step = Step(staged: seq<Row>, knownAt: int, window: Interval)

  function Run(steps: seq<Step>): seq<Row> {
    if steps == [] then []
    else
      var last := steps[|steps| - 1];
      Merge(Run(steps[..|steps| - 1]), last.staged, last.window)
  }

  /** Every row ever staged, in the order it was staged, with nothing dropped. */
  function Log(steps: seq<Step>): seq<Row> {
    if steps == [] then [] else Log(steps[..|steps| - 1]) + steps[|steps| - 1].staged
  }

  /** Two fetches that share a known_at are the same fetch. */
  ghost predicate Agrees(log: seq<Row>, step: Step) {
    forall s, r :: s in step.staged && r in log && SameIdentity(r, s) ==> r.value == s.value
  }

  ghost predicate Forward(log: seq<Row>, step: Step) {
    forall r :: r in log ==> r.knownAt <= step.knownAt
  }

  ghost predicate Replay(log: seq<Row>, step: Step) {
    forall s :: s in step.staged ==> exists r :: r in log && SameIdentity(r, s)
  }

  ghost predicate Admissible(log: seq<Row>, step: Step) {
    && IsBatch(step.staged, step.knownAt) && InWindow(step.staged, step.window)
    && Agrees(log, step)
    && (Forward(log, step) || Replay(log, step))
  }

  ghost predicate Orderly(steps: seq<Step>) {
    steps == []
    || (Orderly(steps[..|steps| - 1]) && Admissible(Log(steps[..|steps| - 1]), steps[|steps| - 1]))
  }

  /** No retries: every fetch is at least as new as everything before it. */
  ghost predicate ForwardOnly(steps: seq<Step>) {
    steps == []
    || (ForwardOnly(steps[..|steps| - 1]) && Forward(Log(steps[..|steps| - 1]), steps[|steps| - 1]))
  }

  /** A row that repeats a logged identity says what the log already says. */
  lemma LoggedIsBelieved(log: seq<Row>, s: Row, r: Row)
    requires r in log && SameIdentity(r, s)
    requires forall x :: x in log && SameIdentity(x, s) ==> x.value == s.value
    ensures Believed(log, s.key, s.knownAt) == Some(s.value)
  {
    assert r in Bounded(log, s.knownAt);
    var y := Newest(Bounded(log, s.knownAt), s.key).value;
    assert y in log && SameIdentity(y, s);
  }

  lemma ForwardIsHarmless(bronze: seq<Row>, log: seq<Row>, s: Row)
    requires forall r :: r in bronze ==> r in log
    requires forall r :: r in log ==> r.knownAt <= s.knownAt && !SameIdentity(r, s)
    ensures Harmless(bronze, log, s)
  {
    NewestUnbounded(bronze, s.key, s.knownAt);
    assert !Matched(bronze, s);
    assert NextKnown(log, s.key, s.knownAt).None? && NextKnown(bronze, s.key, s.knownAt).None?;
  }

  lemma AdmissibleIsHarmless(bronze: seq<Row>, log: seq<Row>, step: Step, s: Row)
    requires Refines(bronze, log) && (forall r :: r in bronze ==> r in log)
    requires Admissible(log, step) && s in step.staged
    ensures Harmless(bronze, log, s)
  {
    if r :| r in log && SameIdentity(r, s) {
      LoggedIsBelieved(log, s, r);
      assert Believed(bronze, s.key, s.knownAt) == Believed(log, s.key, s.knownAt);
    } else {
      assert Forward(log, step);
      ForwardIsHarmless(bronze, log, s);
    }
  }

  /** Every step is one fetch of periods in its own window; nothing is said of when or how often it runs. */
  predicate Fetches(steps: seq<Step>) {
    forall i :: 0 <= i < |steps| ==>
                  IsBatch(steps[i].staged, steps[i].knownAt) && InWindow(steps[i].staged, steps[i].window)
  }

  /** No merge of the run inserts an identity twice, or one that its window keeps it from seeing. */
  predicate InsertsUniquelyThroughout(steps: seq<Step>) {
    steps == []
    || (var init, last := steps[..|steps| - 1], steps[|steps| - 1];
        InsertsUniquelyThroughout(init) && InsertsUniquely(Run(init), last.staged, last.window))
  }

  /** Over any run, in any order, identities stay unique exactly when every merge keeps them so. */
  lemma {:induction false} RunUniqueExact(steps: seq<Step>)
    ensures Unique(Run(steps)) <==> InsertsUniquelyThroughout(steps)
  {
    if steps == [] {
    } else {
      var init, last := steps[..|steps| - 1], steps[|steps| - 1];
      RunUniqueExact(init);
      MergeKeepsHistory(Run(init), last.staged, last.window);
    }
  }

  /** So no identity ever appears twice under fetches merged in any order whatever. */
  lemma {:induction false} RunUnique(steps: seq<Step>)
    requires Fetches(steps)
    ensures Unique(Run(steps))
  {
    if steps == [] {
    } else {
      var init, last := steps[..|steps| - 1], steps[|steps| - 1];
      RunUnique(init);
      BatchInsertsUniquely(Run(init), last.staged, last.window, last.knownAt);
      MergeKeepsHistory(Run(init), last.staged, last.window);
    }
  }

  lemma {:induction false} RunIsLogged(steps: seq<Step>)
    ensures forall r :: r in Run(steps) ==> r in Log(steps)
  {
    if steps == [] {
    } else {
      RunIsLogged(steps[..|steps| - 1]);
    }
  }

  /** Bronze answers as the log does after every step of the run. */
  ghost predicate RefinesThroughout(steps: seq<Step>) {
    forall n :: 0 <= n <= |steps| ==> Refines(Run(steps[..n]), Log(steps[..n]))
  }

  /** Every staged row passes the test on the state its step finds. */
  ghost predicate HarmlessThroughout(steps: seq<Step>) {
    forall n, s :: 0 <= n < |steps| && s in steps[n].staged ==> Harmless(Run(steps[..n]), Log(steps[..n]), s)
  }

  /** One step of a run, in terms of the states around it. */
  lemma StepRefinesExactly(steps: seq<Step>, n: nat)
    requires Fetches(steps) && n < |steps| && Refines(Run(steps[..n]), Log(steps[..n]))
    ensures Refines(Run(steps[..n + 1]), Log(steps[..n + 1]))
            <==> forall s :: s in steps[n].staged ==> Harmless(Run(steps[..n]), Log(steps[..n]), s)
  {
    assert steps[..n + 1][..n] == steps[..n];
    RunIsLogged(steps[..n]);
    MergeRefinesExactly(Run(steps[..n]), Log(steps[..n]), steps[n].staged, steps[n].window, steps[n].knownAt);
  }

  /** Over any run in any order: bronze keeps the log's answers after every step exactly when no row ever does harm. */
  lemma RunRefinesExactly(steps: seq<Step>)
    requires Fetches(steps)
    ensures RefinesThroughout(steps) <==> HarmlessThroughout(steps)
  {
    if RefinesThroughout(steps) {
      forall n, s | 0 <= n < |steps| && s in steps[n].staged
        ensures Harmless(Run(steps[..n]), Log(steps[..n]), s)
      {
        StepRefinesExactly(steps, n);
      }
    }
    if HarmlessThroughout(steps) {
      forall n | 0 <= n <= |steps| ensures Refines(Run(steps[..n]), Log(steps[..n])) {
        HarmlessRunRefines(steps, n);
      }
    }
  }

  lemma {:induction false} HarmlessRunRefines(steps: seq<Step>, n: nat)
    requires Fetches(steps) && HarmlessThroughout(steps) && n <= |steps|
    ensures Refines(Run(steps[..n]), Log(steps[..n]))
  {
    if n == 0 {
      assert steps[..0] == [];
    } else {
      HarmlessRunRefines(steps, n - 1);
      StepRefinesExactly(steps, n - 1);
    }
  }

  /** Over every orderly history bronze, though it drops what it already knows, answers as the full log does. */
  lemma {:induction false} LogRefinement(steps: seq<Step>)
    requires Orderly(steps)
    ensures Refines(Run(steps), Log(steps))
    ensures Unique(Run(steps))
    ensures forall r :: r in Run(steps) ==> r in Log(steps)
  {
    if steps == [] {
    } else {
      var init, last := steps[..|steps| - 1], steps[|steps| - 1];
      LogRefinement(init);
      forall s | s in last.staged ensures Harmless(Run(init), Log(init), s) {
        AdmissibleIsHarmless(Run(init), Log(init), last, s);
      }
      MergeRefinesExactly(Run(init), Log(init), last.staged, last.window, last.knownAt);
      MergeKeepsHistory(Run(init), last.staged, last.window);
      BatchInsertsUniquely(Run(init), last.staged, last.window, last.knownAt);
    }
  }

  lemma {:induction false} ForwardLogAscends(steps: seq<Step>)
    requires Orderly(steps) && ForwardOnly(steps)
    ensures Ascends(Log(steps))
  {
    if steps == [] {
    } else {
      var before, last := Log(steps[..|steps| - 1]), steps[|steps| - 1];
      ForwardLogAscends(steps[..|steps| - 1]);
      assert IsBatch(last.staged, last.knownAt) && Forward(before, last);
      AscendsConcat(before, last.staged, last.knownAt);
    }
  }

  lemma AscendsConcat(a: seq<Row>, b: seq<Row>, k: int)
    requires Ascends(a) && (forall r :: r in a ==> r.knownAt <= k) && forall r :: r in b ==> r.knownAt == k
    ensures Ascends(a + b)
  {
    assert forall i :: 0 <= i < |a| ==> a[i] in a;
    assert forall i :: 0 <= i < |b| ==> b[i] in b;
  }

  /**
   * Log refinement in its plainest form: with no retries, what bronze says as of t is the last row of the
   * log, of that series and period, whose known_at is no later than t.
   */
  lemma ForwardRunsReadTheLastRow(steps: seq<Step>, key: Key, t: int)
    requires Orderly(steps) && ForwardOnly(steps)
    ensures Believed(Run(steps), key, t)
            == match LastLogged(Bounded(Log(steps), t), key) { case None => None case Some(r) => Some(r.value) }
  {
    LogRefinement(steps);
    ForwardLogAscends(steps);
    BoundedAscends(Log(steps), t);
    NewestIsLastLogged(Bounded(Log(steps), t), key);
    assert Believed(Run(steps), key, t) == Believed(Log(steps), key, t);
  }

  lemma {:induction false} BoundedAscends(log: seq<Row>, t: int)
    requires Ascends(log)
    ensures Ascends(Bounded(log, t))
  {
    if log == [] {
    } else {
      var init, last := log[..|log| - 1], log[|log| - 1];
      BoundedAscends(init, t);
      var b := Bounded(init, t);
      forall i | 0 <= i < |b| ensures b[i].knownAt <= last.knownAt {
        assert b[i] in init;
        var j :| 0 <= j < |init| && init[j] == b[i];
        assert log[j] == b[i];
      }
    }
  }

  /** Rows merged long ago are all still there, in place. */
  lemma {:induction false} RunsOnlyAppend(steps: seq<Step>, n: nat)
    requires n <= |steps|
    ensures Run(steps[..n]) <= Run(steps)
  {
    if n < |steps| {
      RunsOnlyAppend(steps[..|steps| - 1], n);
      assert steps[..|steps| - 1][..n] == steps[..n];
    } else {
      assert steps[..n] == steps;
    }
  }

  /** Replaying an old batch after newer revisions have landed changes no as-of answer, past or present. */
  lemma LateRetryInvisible(steps: seq<Step>, i: nat, key: Key, t: int)
    requires Orderly(steps) && i < |steps|
    ensures Believed(Merge(Run(steps), steps[i].staged, steps[i].window), key, t) == Believed(Run(steps), key, t)
  {
    var bronze, log, step := Run(steps), Log(steps), steps[i];
    LogRefinement(steps);
    StepIsLogged(steps, i);
    WindowPushdown(bronze, step.staged, step.window);
    BelievedConcat(bronze, Inserted(bronze, step.staged), step.knownAt, key, t);
    var x := Newest(Bounded(bronze, t), key);
    if s :| s in Inserted(bronze, step.staged) && s.key == key {
      InsertedRow(bronze, step.staged, step.knownAt, s);
      if t >= s.knownAt && (x.None? || x.value.knownAt <= s.knownAt) {
        var y := Newest(Bounded(log, s.knownAt), key);
        assert s in Bounded(log, s.knownAt);
        LogAgrees(steps, y.value, s);
        assert Believed(bronze, key, s.knownAt) == Believed(log, key, s.knownAt) == Some(s.value);
        forall r | r in bronze && r.key == key ensures !(s.knownAt < r.knownAt <= t) {
          if r.knownAt <= t { assert r in Bounded(bronze, t); }
        }
        NewestUpTo(bronze, key, s.knownAt, t);
      }
    }
  }

  /** Merging a step of a run once more, at any later point, inserts nothing exactly when it has nothing new by then. */
  lemma ReplayInsertsNothingExact(steps: seq<Step>, i: nat)
    requires i < |steps| && InWindow(steps[i].staged, steps[i].window)
    ensures Merge(Run(steps), steps[i].staged, steps[i].window) == Run(steps)
            <==> forall s :: s in steps[i].staged ==> NothingNew(Run(steps), s)
  {
    MergeInsertsNothingExact(Run(steps), steps[i].staged, steps[i].window);
  }

  lemma {:induction false} StepIsLogged(steps: seq<Step>, i: nat)
    requires Orderly(steps) && i < |steps|
    ensures forall s :: s in steps[i].staged ==> s in Log(steps)
    ensures IsBatch(steps[i].staged, steps[i].knownAt) && InWindow(steps[i].staged, steps[i].window)
  {
    if i == |steps| - 1 {
    } else {
      StepIsLogged(steps[..|steps| - 1], i);
    }
  }

  /** Every logged row of one identity carries one value, because retries repeat what they first said. */
  lemma {:induction false} LogAgrees(steps: seq<Step>, a: Row, b: Row)
    requires Orderly(steps) && a in Log(steps) && b in Log(steps) && SameIdentity(a, b)
    ensures a.value == b.value
  {
    var init, last := steps[..|steps| - 1], steps[|steps| - 1];
    if a in last.staged && b in last.staged {
      BatchRow(last.staged, last.knownAt, a);
      BatchRow(last.staged, last.knownAt, b);
    } else if a in Log(init) && b in Log(init) {
      LogAgrees(init, a, b);
    }
  }

  lemma LogSnoc(steps: seq<Step>, last: Step)
    ensures Log(steps + [last]) == Log(steps) + last.staged
  {
    assert (steps + [last])[..|steps|] == steps;
  }

  lemma OrderlySnoc(steps: seq<Step>, last: Step)
    requires Orderly(steps) && Admissible(Log(steps), last)
    ensures Orderly(steps + [last]) && Log(steps + [last]) == Log(steps) + last.staged
    ensures Run(steps + [last]) == Merge(Run(steps), last.staged, last.window)
    ensures ForwardOnly(steps) && Forward(Log(steps), last) ==> ForwardOnly(steps + [last])
  {
    assert (steps + [last])[..|steps|] == steps;
  }

  lemma OneMoreStep(steps: seq<Step>, s: Row, w: Interval) returns (more: seq<Step>)
    requires Orderly(steps) && w.Holds(s.key.validTime) && forall r :: r in Log(steps) ==> r.knownAt < s.knownAt
    ensures more == steps + [Step([s], s.knownAt, w)]
    ensures Orderly(more) && Log(more) == Log(steps) + [s]
    ensures Run(more) == if Insertable(Run(steps), s) then Run(steps) + [s] else Run(steps)
  {
    var step := Step([s], s.knownAt, w);
    more := steps + [step];
    assert Forward(Log(steps), step) && Agrees(Log(steps), step);
    OrderlySnoc(steps, step);
    SingleStep(Run(steps), s, w);
  }

  /**
   * The retry may well insert: the middle of three fetches was suppressed because it repeated the first,
   * and replaying it after the third, which differs, finds nothing to match.
   */
  lemma LateRetryMayInsert(first: Row, second: Row, third: Row, w: Interval) returns (steps: seq<Step>)
    requires first.key == second.key == third.key && w.Holds(first.key.validTime)
    requires first.knownAt < second.knownAt < third.knownAt && first.value == second.value != third.value
    ensures Orderly(steps) && |steps| == 3 && steps[1] == Step([second], second.knownAt, w)
    ensures Run(steps) == [first, third] && Merge(Run(steps), [second], w) == [first, third, second]
  {
    OneRowTables(first, second, third);
    var two := TwoFetches(first, second, w);
    steps := OneMoreStep(two, third, w);
    SingleStep([first, third], second, w);
  }

  lemma TwoFetches(first: Row, second: Row, w: Interval) returns (steps: seq<Step>)
    requires first.key == second.key && w.Holds(first.key.validTime) && first.knownAt < second.knownAt
    requires first.value == second.value
    ensures Orderly(steps) && |steps| == 2 && steps[1] == Step([second], second.knownAt, w)
    ensures Run(steps) == [first] && Log(steps) == [first, second]
  {
    NewestOfOne(first);
    var one := OneFetch(first, w);
    steps := OneMoreStep(one, second, w);
  }

  /**
   * The refinement does fail on a backdated value: fetch a quantity, fetch it again unchanged, then merge
   * another one backdated between the two. The suppressed second fetch should have ended its interval.
   * And no look at bronze can foretell it: without the second fetch bronze is the same and all is well.
   */
  lemma BronzeCannotTell(first: Row, second: Row, late: Row, w: Interval) returns (once: seq<Step>, twice: seq<Step>)
    requires first.key == second.key == late.key && w.Holds(first.key.validTime)
    requires first.knownAt < late.knownAt < second.knownAt && first.value == second.value != late.value
    ensures Orderly(once) && Orderly(twice) && Run(once) == Run(twice) == [first]
    ensures Refines(Merge(Run(once), [late], w), Log(once) + [late])
    ensures !Refines(Merge(Run(twice), [late], w), Log(twice) + [late])
  {
    once := OneFetch(first, w);
    twice := TwoFetches(first, second, w);
    LogRefinement(once);
    LogRefinement(twice);
    NewestOfOne(first);
    MergeRefinesExactly([first], [first], [late], w, late.knownAt);
    MergeRefinesExactly([first], [first, second], [late], w, late.knownAt);
    LateIsHarmful(first, second, late);
  }

  lemma LateIsHarmful(first: Row, second: Row, late: Row)
    requires first.key == second.key == late.key
    requires first.knownAt < late.knownAt < second.knownAt && first.value == second.value != late.value
    ensures Harmless([first], [first], late) && !Harmless([first], [first, second], late)
  {
    NewestOfOne(first);
    NewestUnbounded([first], late.key, late.knownAt);
    assert second in [first, second];
  }

  lemma OneFetch(first: Row, w: Interval) returns (steps: seq<Step>)
    requires w.Holds(first.key.validTime)
    ensures Orderly(steps) && |steps| == 1 && Run(steps) == [first] && Log(steps) == [first]
  {
    steps := OneMoreStep([], first, w);
    assert [] + [first] == [first];
  }

  lemma OneRowTables(first: Row, second: Row, third: Row)
    requires first.key == second.key == third.key && first.knownAt < second.knownAt < third.knownAt
    requires first.value == second.value != third.value
    ensures Insertable([], first) && !Insertable([first], second) && Insertable([first], third)
    ensures Insertable([first, third], second)
    ensures [] + [first] == [first] && [first] + [third] == [first, third]
  {
    NewestOfOne(first);
    NewestOfOne(third);
    NewestConcat([first], [third], first.key);
    assert [first] + [third] == [first, third];
  }

  lemma NewestOfOne(r: Row)
    ensures Newest([r], r.key) == Some(r)
  {
  }

  lemma SingleStep(bronze: seq<Row>, s: Row, w: Interval)
    requires w.Holds(s.key.validTime)
    ensures Merge(bronze, [s], w) == if Insertable(bronze, s) then bronze + [s] else bronze
  {
    WindowPushdown(bronze, [s], w);
    assert [s][..0] == [];
  }

  /** A later version always says something its predecessor did not. */
  ghost predicate EveryVersionChanges(rows: seq<Row>) {
    forall a, b :: a in rows && b in rows && a.key == b.key && NextKnown(rows, a.key, a.knownAt) == Some(b.knownAt)
                   ==> a.value != b.value
  }

  /** A row between two versions says something that neither of them says. */
  predicate DiffersFromNeighbours(bronze: seq<Row>, s: Row) {
    && Believed(bronze, s.key, s.knownAt) != Some(s.value)
    && var next := NextKnown(bronze, s.key, s.knownAt);
       next.Some? ==> Believed(bronze, s.key, next.value) != Some(s.value)
  }

  /** What a merge appends: rows of one known_at, one per series and period, none of them held. */
  predicate Appendable(bronze: seq<Row>, added: seq<Row>, k: int) {
    && (forall r :: r in added ==> r.knownAt == k && !Matched(bronze, r))
    && forall x, y :: x in added && y in added && x.key == y.key ==> x == y
  }

  lemma InsertedAppendable(bronze: seq<Row>, staged: seq<Row>, k: int)
    requires IsBatch(staged, k)
    ensures Appendable(bronze, Inserted(bronze, staged), k)
  {
    var added := Inserted(bronze, staged);
    forall x, y | x in added && y in added && x.key == y.key ensures x == y {
      assert x in staged && y in staged;
    }
    forall r | r in added ensures r.knownAt == k && !Matched(bronze, r) {
      assert Insertable(bronze, r);
    }
  }

  /**
   * One merge, in any known_at order, keeps every version a change exactly when each row it inserts differs
   * from both its neighbours.
   */
  lemma MergeRecordsChangesExact(bronze: seq<Row>, staged: seq<Row>, w: Interval, k: int)
    requires Unique(bronze) && EveryVersionChanges(bronze) && IsBatch(staged, k) && InWindow(staged, w)
    ensures EveryVersionChanges(Merge(bronze, staged, w))
            <==> forall s :: s in Inserted(bronze, staged) ==> DiffersFromNeighbours(bronze, s)
  {
    WindowPushdown(bronze, staged, w);
    InsertedAppendable(bronze, staged, k);
    AppendRecordsChangesExact(bronze, Inserted(bronze, staged), k);
  }

  lemma AppendRecordsChangesExact(bronze: seq<Row>, added: seq<Row>, k: int)
    requires Unique(bronze) && EveryVersionChanges(bronze) && Appendable(bronze, added, k)
    ensures EveryVersionChanges(bronze + added) <==> forall s :: s in added ==> DiffersFromNeighbours(bronze, s)
  {
    var after := bronze + added;
    if EveryVersionChanges(after) {
      forall s | s in added ensures DiffersFromNeighbours(bronze, s) {
        DiffersFromPredecessor(bronze, added, k, s);
        DiffersFromSuccessor(bronze, added, k, s);
      }
    }
    if forall s :: s in added ==> DiffersFromNeighbours(bronze, s) {
      forall a, b | a in after && b in after && a.key == b.key
                    && NextKnown(after, a.key, a.knownAt) == Some(b.knownAt)
        ensures a.value != b.value
      {
        if b in added {
          AfterPredecessor(bronze, added, k, a, b);
        } else {
          BeforeSuccessor(bronze, added, k, a, b);
        }
      }
    }
  }

  lemma NextKnownIs(rows: seq<Row>, key: Key, k: int, r: Row)
    requires r in rows && r.key == key && k < r.knownAt && Quiet(rows, key, k, r.knownAt - 1)
    ensures NextKnown(rows, key, k) == Some(r.knownAt)
  {
    NextIsFirst(rows, key, k, r);
    var x :| x in rows && x.key == key && x.knownAt == NextKnown(rows, key, k).value > k;
  }

  /** A version is what was believed at its own known_at. */
  lemma UniqueBelieved(rows: seq<Row>, r: Row)
    requires Unique(rows) && r in rows
    ensures Newest(Bounded(rows, r.knownAt), r.key) == Some(r)
  {
    assert r in Bounded(rows, r.knownAt);
    var x := Newest(Bounded(rows, r.knownAt), r.key).value;
    assert x in rows && SameIdentity(x, r);
  }

  lemma DiffersFromPredecessor(bronze: seq<Row>, added: seq<Row>, k: int, s: Row)
    requires Appendable(bronze, added, k) && s in added && EveryVersionChanges(bronze + added)
    ensures Believed(bronze, s.key, s.knownAt) != Some(s.value)
  {
    var p := Newest(Bounded(bronze, k), s.key);
    if p.Some? {
      assert !SameIdentity(p.value, s);
      forall x | x in bronze + added && x.key == s.key ensures !(p.value.knownAt < x.knownAt <= k - 1) {
        assert x in bronze && x.knownAt <= k ==> x in Bounded(bronze, k);
      }
      NextKnownIs(bronze + added, s.key, p.value.knownAt, s);
      assert p.value in bronze + added && s in bronze + added;
    }
  }

  lemma DiffersFromSuccessor(bronze: seq<Row>, added: seq<Row>, k: int, s: Row)
    requires Unique(bronze) && Appendable(bronze, added, k) && s in added && EveryVersionChanges(bronze + added)
    ensures var next := NextKnown(bronze, s.key, s.knownAt);
            next.Some? ==> Believed(bronze, s.key, next.value) != Some(s.value)
  {
    var next := NextKnown(bronze, s.key, k);
    if next.Some? {
      var q :| q in bronze && q.key == s.key && q.knownAt == next.value > k;
      UniqueBelieved(bronze, q);
      NextKnownIs(bronze + added, s.key, k, q);
      assert q in bronze + added && s in bronze + added;
    }
  }

  lemma AfterPredecessor(bronze: seq<Row>, added: seq<Row>, k: int, a: Row, b: Row)
    requires Unique(bronze) && Appendable(bronze, added, k) && a in bronze + added && b in added
    requires DiffersFromNeighbours(bronze, b)
    requires a.key == b.key && NextKnown(bronze + added, a.key, a.knownAt) == Some(b.knownAt)
    ensures a.value != b.value
  {
    assert a in bronze;
    forall x | x in bronze && x.key == a.key ensures !(a.knownAt < x.knownAt <= k) {
      if a.knownAt < x.knownAt {
        assert x in bronze + added && !SameIdentity(x, b);
      }
    }
    NewestUpTo(bronze, a.key, a.knownAt, k);
    UniqueBelieved(bronze, a);
  }

  lemma BeforeSuccessor(bronze: seq<Row>, added: seq<Row>, k: int, a: Row, b: Row)
    requires Unique(bronze) && EveryVersionChanges(bronze) && Appendable(bronze, added, k)
    requires a in bronze + added && b in bronze && (a in added ==> DiffersFromNeighbours(bronze, a))
    requires a.key == b.key && NextKnown(bronze + added, a.key, a.knownAt) == Some(b.knownAt)
    ensures a.value != b.value
  {
    NextKnownShrinks(bronze, added, a.key, a.knownAt, b);
    if a in added {
      UniqueBelieved(bronze, b);
    }
  }

  /** Fetches in known_at order, without retries, only ever record changes. */
  lemma {:induction false} ForwardRunsRecordOnlyChanges(steps: seq<Step>)
    requires Fetches(steps) && ForwardOnly(steps)
    ensures EveryVersionChanges(Run(steps))
  {
    if steps == [] {
    } else {
      var init, last := steps[..|steps| - 1], steps[|steps| - 1];
      ForwardRunsRecordOnlyChanges(init);
      RunUnique(init);
      RunIsLogged(init);
      MergeRecordsChangesExact(Run(init), last.staged, last.window, last.knownAt);
      forall s | s in Inserted(Run(init), last.staged) ensures DiffersFromNeighbours(Run(init), s) {
        assert Insertable(Run(init), s);
        ForwardDiffers(Run(init), s);
      }
    }
  }

  lemma ForwardDiffers(bronze: seq<Row>, s: Row)
    requires Changed(bronze, s) && forall r :: r in bronze ==> r.knownAt <= s.knownAt
    ensures DiffersFromNeighbours(bronze, s)
  {
    NewestUnbounded(bronze, s.key, s.knownAt);
  }

  /** The late retry shown above breaks it: the replayed row repeats the version before it. */
  lemma LateRetryRepeats(first: Row, second: Row, third: Row)
    requires first.key == second.key == third.key && first.knownAt < second.knownAt < third.knownAt
    requires first.value == second.value != third.value
    ensures EveryVersionChanges([first, third]) && !EveryVersionChanges([first, third, second])
  {
    TwoVersionsChange(first, third);
    var rows := [first, third, second];
    NextKnownIs(rows, first.key, first.knownAt, second);
    assert first in rows && second in rows;
  }

  lemma TwoVersionsChange(first: Row, third: Row)
    requires first.key == third.key && first.knownAt < third.knownAt && first.value != third.value
    ensures EveryVersionChanges([first, third])
  {
    var rows := [first, third];
    assert forall x :: x in rows <==> x == first || x == third;
    assert NextKnown(rows, first.key, third.knownAt).None?;
    NextKnownIs(rows, first.key, first.knownAt, third);
  }

  lemma NextKnownShrinks(bronze: seq<Row>, added: seq<Row>, key: Key, k: int, b: Row)
    requires b in bronze && b.key == key && NextKnown(bronze + added, key, k) == Some(b.knownAt)
    ensures NextKnown(bronze, key, k) == Some(b.knownAt) && k < b.knownAt
  {
    var n := NextKnown(bronze, key, k);
    assert b in bronze + added;
    if n.Some? {
      var x :| x in bronze && x.key == key && x.knownAt == n.value > k;
      assert x in bronze + added;
    }
  }
}
