/** Tables as sequences of rows: selection, duplicate-free comparison, and sums. */
module Prelude {
  datatype Option<+T> = None | Some(value: T)

  datatype Result<+T, +E> = Ok(value: T) | Err(error: E)

  /** SELECT ... WHERE keep: the rows kept, in table order. */
  function Filter<T(!new)>(s: seq<T>, keep: T -> bool): (r: seq<T>)
    ensures |r| <= |s|
    ensures forall x :: x in r <==> x in s && keep(x)
  {
    if s == [] then []
    else
      var rest := Filter(s[..|s| - 1], keep);
      assert s == s[..|s| - 1] + [s[|s| - 1]];
      if keep(s[|s| - 1]) then rest + [s[|s| - 1]] else rest
  }

  function Map<T, U>(s: seq<T>, f: T -> U): (r: seq<U>)
    ensures |r| == |s| && forall i :: 0 <= i < |s| ==> r[i] == f(s[i])
  {
    seq(|s|, i requires 0 <= i < |s| => f(s[i]))
  }

  predicate Distinct<T(==)>(s: seq<T>) {
    forall i, j :: 0 <= i < j < |s| ==> s[i] != s[j]
  }

  /** Two tables hold the same rows, counting no repetition. */
  ghost predicate Same<T(!new)>(a: seq<T>, b: seq<T>) {
    forall x :: x in a <==> x in b
  }

  lemma Pick<T(!new)>(s: set<T>) returns (x: T)
    requires s != {}
    ensures x in s
  {
    x :| x in s;
  }

  function SumSeq<T>(s: seq<T>, f: T -> int): int {
    if s == [] then 0 else SumSeq(s[..|s| - 1], f) + f(s[|s| - 1])
  }

  lemma {:induction false} FilterConcat<T(!new)>(a: seq<T>, b: seq<T>, keep: T -> bool)
    ensures Filter(a + b, keep) == Filter(a, keep) + Filter(b, keep)
  {
    if b == [] {
      assert a + b == a;
    } else {
      assert (a + b)[..|a + b| - 1] == a + b[..|b| - 1];
      FilterConcat(a, b[..|b| - 1], keep);
    }
  }

  lemma {:induction false} FilterAll<T(!new)>(s: seq<T>, keep: T -> bool)
    requires forall x :: x in s ==> keep(x)
    ensures Filter(s, keep) == s
  {
    if s == [] {
    } else {
      FilterAll(s[..|s| - 1], keep);
    }
  }

  lemma {:induction false} FilterNone<T(!new)>(s: seq<T>, keep: T -> bool)
    requires forall x :: x in s ==> !keep(x)
    ensures Filter(s, keep) == []
  {
    if s == [] {
    } else {
      FilterNone(s[..|s| - 1], keep);
    }
  }

  lemma FilterSnoc<T(!new)>(s: seq<T>, x: T, keep: T -> bool)
    ensures Filter(s + [x], keep) == Filter(s, keep) + if keep(x) then [x] else []
  {
    assert (s + [x])[..|s|] == s;
  }

  lemma FilterOfTwo<T(!new)>(x: T, y: T, keep: T -> bool)
    ensures Filter([x, y], keep) == (if keep(x) then [x] else []) + (if keep(y) then [y] else [])
  {
    assert [x, y] == [x] + [y];
    FilterSnoc([x], y, keep);
    assert [x][..0] == [];
  }

  /** Selecting with `p` then `q` is selecting with any `r` that agrees with both. */
  lemma {:induction false} FilterFilter<T(!new)>(s: seq<T>, p: T -> bool, q: T -> bool, r: T -> bool)
    requires forall x :: x in s ==> (r(x) <==> p(x) && q(x))
    ensures Filter(Filter(s, p), q) == Filter(s, r)
  {
    if s == [] {
    } else {
      var init, x := s[..|s| - 1], s[|s| - 1];
      FilterFilter(init, p, q, r);
      assert Filter(s, p) == Filter(init, p) + if p(x) then [x] else [];
      if p(x) {
        FilterConcat(Filter(init, p), [x], q);
        assert [x][..0] == [];
      }
    }
  }

  lemma {:induction false} FilterCongruence<T(!new)>(s: seq<T>, p: T -> bool, q: T -> bool)
    requires forall x :: x in s ==> (p(x) <==> q(x))
    ensures Filter(s, p) == Filter(s, q)
  {
    if s == [] {
    } else {
      FilterCongruence(s[..|s| - 1], p, q);
    }
  }

  lemma MapMember<T(!new), U>(s: seq<T>, f: T -> U, y: U)
    ensures y in Map(s, f) <==> exists x :: x in s && f(x) == y
  {
    if y in Map(s, f) {
      var i :| 0 <= i < |s| && Map(s, f)[i] == y;
      assert s[i] in s;
    }
    if x :| x in s && f(x) == y {
      var i :| 0 <= i < |s| && s[i] == x;
      assert Map(s, f)[i] == y;
    }
  }

  lemma MapSnoc<T, U>(s: seq<T>, x: T, f: T -> U)
    ensures Map(s + [x], f) == Map(s, f) + [f(x)]
  {
  }

  lemma {:induction false} FilterMap<T(!new), U(!new)>(s: seq<T>, f: T -> U, p: U -> bool, q: T -> bool)
    requires forall x :: x in s ==> (p(f(x)) <==> q(x))
    ensures Filter(Map(s, f), p) == Map(Filter(s, q), f)
  {
    if s == [] {
      assert Map(s, f) == [];
    } else {
      var init, x := s[..|s| - 1], s[|s| - 1];
      assert s == init + [x];
      FilterMap(init, f, p, q);
      MapSnoc(init, x, f);
      MapSnoc(Filter(init, q), x, f);
      FilterSnoc(Map(init, f), f(x), p);
      assert p(f(x)) <==> q(x) by { assert x in s; }
    }
  }

  lemma {:induction false} FilterDistinct<T(!new)>(s: seq<T>, keep: T -> bool)
    requires Distinct(s)
    ensures Distinct(Filter(s, keep))
  {
    if s == [] {
    } else {
      FilterDistinct(s[..|s| - 1], keep);
    }
  }

  lemma {:induction false} FilterSingle<T(!new)>(s: seq<T>, keep: T -> bool, x: T)
    requires Distinct(s) && x in s && forall y :: y in s ==> (keep(y) <==> y == x)
    ensures Filter(s, keep) == [x]
  {
    var init := s[..|s| - 1];
    if s[|s| - 1] == x {
      FilterNone(init, keep);
    } else {
      FilterSingle(init, keep, x);
    }
  }

  lemma SeqRemove<T>(s: seq<T>, i: nat)
    requires i < |s|
    ensures multiset(s[..i] + s[i + 1..]) == multiset(s) - multiset{s[i]}
  {
    assert s == s[..i] + [s[i]] + s[i + 1..];
  }

  /** Duplicate-free tables with the same rows are equal as bags. */
  lemma {:induction false} DistinctSameBag<T(!new)>(a: seq<T>, b: seq<T>)
    requires Distinct(a) && Distinct(b) && Same(a, b)
    ensures multiset(a) == multiset(b) && |a| == |b|
  {
    BagOfDistinct(a);
    BagOfDistinct(b);
    forall x ensures multiset(a)[x] == multiset(b)[x] {
      assert x in a <==> x in b;
    }
    assert |multiset(a)| == |a| && |multiset(b)| == |b|;
  }

  lemma {:induction false} BagOfDistinct<T(!new)>(s: seq<T>)
    requires Distinct(s)
    ensures forall x :: multiset(s)[x] == if x in s then 1 else 0
  {
    if s == [] {
    } else {
      BagOfDistinct(s[..|s| - 1]);
      assert s == s[..|s| - 1] + [s[|s| - 1]];
    }
  }

  lemma {:induction false} SumConcat<T>(a: seq<T>, b: seq<T>, f: T -> int)
    ensures SumSeq(a + b, f) == SumSeq(a, f) + SumSeq(b, f)
  {
    if b == [] {
      assert a + b == a;
    } else {
      assert (a + b)[..|a + b| - 1] == a + b[..|b| - 1];
      SumConcat(a, b[..|b| - 1], f);
    }
  }

  lemma SumOfTwo<T>(x: T, y: T, f: T -> int)
    ensures SumSeq([x, y], f) == f(x) + f(y)
  {
    assert [x, y] == [x] + [y] && [x][..0] == [] && [y][..0] == [];
    SumConcat([x], [y], f);
  }

  /** A sum does not depend on the order in which workers add the rows. */
  lemma {:induction false} SumAnyOrder<T>(a: seq<T>, b: seq<T>, f: T -> int)
    requires multiset(a) == multiset(b)
    ensures SumSeq(a, f) == SumSeq(b, f)
    decreases |a|
  {
    assert |multiset(a)| == |a| && |multiset(b)| == |b|;
    if a == [] {
    } else {
      var init, x := a[..|a| - 1], a[|a| - 1];
      assert a == init + [x];
      assert multiset(init) == multiset(b) - multiset{x} && x in multiset(b);
      var i :| 0 <= i < |b| && b[i] == x;
      SeqRemove(b, i);
      SumRemove(b, i, f);
      SumAnyOrder(init, b[..i] + b[i + 1..], f);
    }
  }

  lemma SumPrefix<T>(s: seq<T>, i: nat, f: T -> int)
    requires i < |s|
    ensures SumSeq(s[..i + 1], f) == SumSeq(s[..i], f) + f(s[i])
  {
    assert s[..i + 1][..i] == s[..i];
  }

  lemma SumRemove<T>(s: seq<T>, i: nat, f: T -> int)
    requires i < |s|
    ensures SumSeq(s, f) == SumSeq(s[..i] + s[i + 1..], f) + f(s[i])
  {
    assert s == s[..i + 1] + s[i + 1..];
    SumConcat(s[..i + 1], s[i + 1..], f);
    SumPrefix(s, i, f);
    SumConcat(s[..i], s[i + 1..], f);
  }

  lemma {:induction false} SumCongruence<T>(s: seq<T>, f: T -> int, g: T -> int)
    requires forall x :: x in s ==> f(x) == g(x)
    ensures SumSeq(s, f) == SumSeq(s, g)
  {
    if s == [] {
    } else {
      SumCongruence(s[..|s| - 1], f, g);
    }
  }

  /** GROUP BY: the groups present, in order of first appearance. */
  function Groups<T, G(==)>(s: seq<T>, of: T -> G): (r: seq<G>)
    ensures Distinct(r)
    ensures forall x :: x in s ==> of(x) in r
    ensures forall g :: g in r ==> exists x :: x in s && of(x) == g
  {
    if s == [] then []
    else
      var rest := Groups(s[..|s| - 1], of);
      var g := of(s[|s| - 1]);
      assert s == s[..|s| - 1] + [s[|s| - 1]];
      if g in rest then rest else rest + [g]
  }

  /** The rows of one group. */
  function Group<T(!new), G(==)>(s: seq<T>, of: T -> G, g: G): seq<T> {
    Filter(s, x => of(x) == g)
  }

  lemma GroupIsFilter<T(!new), G>(s: seq<T>, of: T -> G, g: G, keep: T -> bool)
    requires forall x :: x in s ==> (keep(x) <==> of(x) == g)
    ensures Group(s, of, g) == Filter(s, keep)
  {
    FilterCongruence(s, x => of(x) == g, keep);
  }

  datatype Sum<G> = Sum(group: G, total: int)

  /** SELECT of, sum(f) ... GROUP BY of. */
  function GroupSum<T(!new), G(==)>(s: seq<T>, of: T -> G, f: T -> int): (r: seq<Sum<G>>)
    ensures |r| == |Groups(s, of)|
    ensures forall i :: 0 <= i < |r| ==> r[i] == Sum(Groups(s, of)[i], SumSeq(Group(s, of, Groups(s, of)[i]), f))
    ensures Distinct(r)
  {
    Map(Groups(s, of), g => Sum(g, SumSeq(Group(s, of, g), f)))
  }

  /** Rows that all fall in one group make one row. */
  lemma {:induction false} OneGroup<T(!new), G>(s: seq<T>, of: T -> G, g: G)
    requires s != [] && forall x :: x in s ==> of(x) == g
    ensures Groups(s, of) == [g]
  {
    var init := s[..|s| - 1];
    assert of(s[|s| - 1]) == g;
    if init == [] {
      assert Groups(init, of) == [];
    } else {
      OneGroup(init, of, g);
    }
  }

  lemma OneGroupSum<T(!new), G>(s: seq<T>, of: T -> G, f: T -> int, g: G)
    requires s != [] && forall x :: x in s ==> of(x) == g
    ensures GroupSum(s, of, f) == [Sum(g, SumSeq(s, f))]
  {
    OneGroup(s, of, g);
    FilterAll(s, x => of(x) == g);
  }

  lemma GroupSumOfTwo<T(!new), G>(x: T, y: T, of: T -> G, f: T -> int)
    requires of(x) != of(y)
    ensures GroupSum([x, y], of, f) == [Sum(of(x), f(x)), Sum(of(y), f(y))]
  {
    var s := [x, y];
    assert s[..|s| - 1] == [x] && [x][..0] == [];
    assert Groups([x], of) == [of(x)];
    assert Groups(s, of) == [of(x), of(y)];
    FilterOfTwo(x, y, r => of(r) == of(x));
    FilterOfTwo(x, y, r => of(r) == of(y));
    assert Group(s, of, of(x)) == [x] && Group(s, of, of(y)) == [y];
    assert SumSeq([x], f) == f(x) && SumSeq([y], f) == f(y) by { assert [y][..0] == []; }
  }

  lemma GroupSumRow<T(!new), G>(s: seq<T>, of: T -> G, f: T -> int, r: Sum<G>)
    ensures r in GroupSum(s, of, f) <==>
            (exists x :: x in s && of(x) == r.group) && r.total == SumSeq(Group(s, of, r.group), f)
  {
    var gs := Groups(s, of);
    if r.group in gs {
      var i :| 0 <= i < |gs| && gs[i] == r.group;
      assert GroupSum(s, of, f)[i].group == r.group;
    }
  }

  /** A grouped sum is the same table whatever order its input arrives in. */
  lemma GroupSumSame<T(!new), G(!new)>(a: seq<T>, b: seq<T>, of: T -> G, f: T -> int)
    requires Distinct(a) && Distinct(b) && Same(a, b)
    ensures Same(GroupSum(a, of, f), GroupSum(b, of, f))
  {
    forall r: Sum<G> ensures r in GroupSum(a, of, f) <==> r in GroupSum(b, of, f) {
      GroupSumRow(a, of, f, r);
      GroupSumRow(b, of, f, r);
      var keep := x => of(x) == r.group;
      FilterDistinct(a, keep);
      FilterDistinct(b, keep);
      assert Same(Group(a, of, r.group), Group(b, of, r.group));
      DistinctSameBag(Group(a, of, r.group), Group(b, of, r.group));
      SumAnyOrder(Group(a, of, r.group), Group(b, of, r.group), f);
    }
  }

  /** A filter on whole groups commutes with the grouping and its sums. */
  lemma GroupPushdown<T(!new), G(!new)>(
      s: seq<T>, of: T -> G, f: T -> int, keep: T -> bool, keepGroup: G -> bool, keepSum: Sum<G> -> bool)
    requires forall x :: x in s ==> (keep(x) <==> keepGroup(of(x)))
    requires forall r :: keepSum(r) <==> keepGroup(r.group)
    ensures Filter(GroupSum(s, of, f), keepSum) == GroupSum(Filter(s, keep), of, f)
  {
    var kept := Filter(s, keep);
    GroupsPushdown(s, of, keep, keepGroup);
    var total := (g: G) => Sum(g, SumSeq(Group(s, of, g), f));
    FilterMap(Groups(s, of), total, keepSum, keepGroup);
    forall g | g in Groups(kept, of) ensures Group(s, of, g) == Group(kept, of, g) {
      FilterFilter(s, keep, x => of(x) == g, x => of(x) == g);
    }
    assert GroupSum(s, of, f) == Map(Groups(s, of), total);
    assert Map(Groups(kept, of), total) == GroupSum(kept, of, f);
  }

  lemma {:induction false} GroupsPushdown<T(!new), G(!new)>(
      s: seq<T>, of: T -> G, keep: T -> bool, keepGroup: G -> bool)
    requires forall x :: x in s ==> (keep(x) <==> keepGroup(of(x)))
    ensures Filter(Groups(s, of), keepGroup) == Groups(Filter(s, keep), of)
  {
    if s == [] {
    } else {
      var init, x := s[..|s| - 1], s[|s| - 1];
      GroupsPushdown(init, of, keep, keepGroup);
      if of(x) !in Groups(init, of) {
        FilterConcat(Groups(init, of), [of(x)], keepGroup);
        assert [of(x)][..0] == [];
      }
    }
  }

  function GroupTotal<T(!new), G(==)>(s: seq<T>, of: T -> G, f: T -> int): G -> int {
    g => SumSeq(Group(s, of, g), f)
  }

  /** Grouping conserves: the group totals add up to the total of the rows. */
  lemma {:induction false} GroupSumConserves<T(!new), G(!new)>(s: seq<T>, of: T -> G, f: T -> int)
    ensures SumSeq(GroupSum(s, of, f), (r: Sum<G>) => r.total) == SumSeq(s, f)
  {
    var total := GroupTotal(s, of, f);
    var row := (g: G) => Sum(g, total(g));
    SumMap(Groups(s, of), row, (r: Sum<G>) => r.total, total);
    assert GroupSum(s, of, f) == Map(Groups(s, of), row);
    GroupTotals(s, of, f);
  }

  lemma {:induction false} SumMap<T, U>(s: seq<T>, g: T -> U, f: U -> int, h: T -> int)
    requires forall x :: x in s ==> f(g(x)) == h(x)
    ensures SumSeq(Map(s, g), f) == SumSeq(s, h)
  {
    if s == [] {
    } else {
      SumMap(s[..|s| - 1], g, f, h);
      assert Map(s, g)[..|s| - 1] == Map(s[..|s| - 1], g);
    }
  }

  lemma {:induction false} GroupTotals<T(!new), G(!new)>(s: seq<T>, of: T -> G, f: T -> int)
    ensures SumSeq(Groups(s, of), GroupTotal(s, of, f)) == SumSeq(s, f)
  {
    if s == [] {
    } else {
      var init, x := s[..|s| - 1], s[|s| - 1];
      GroupTotals(init, of, f);
      GroupTotalGrows(s, of, f);
      GroupAbsent(init, of, f, of(x));
      TotalsGrow(Groups(init, of), of(x), GroupTotal(init, of, f), GroupTotal(s, of, f), f(x));
    }
  }

  lemma GroupAbsent<T(!new), G(!new)>(s: seq<T>, of: T -> G, f: T -> int, g: G)
    ensures g !in Groups(s, of) ==> GroupTotal(s, of, f)(g) == 0
  {
    var rows := Group(s, of, g);
    if rows != [] {
      assert rows[0] in rows && of(rows[0]) == g;
    }
  }

  lemma GroupTotalGrows<T(!new), G(!new)>(s: seq<T>, of: T -> G, f: T -> int)
    requires s != []
    ensures var x := s[|s| - 1];
            forall g :: GroupTotal(s, of, f)(g) == GroupTotal(s[..|s| - 1], of, f)(g) + if g == of(x) then f(x) else 0
  {
  }

  lemma TotalsGrow<G>(gs: seq<G>, g: G, before: G -> int, total: G -> int, amount: int)
    requires Distinct(gs)
    requires forall h :: h in gs ==> total(h) == before(h) + if h == g then amount else 0
    ensures SumSeq(gs, total) == SumSeq(gs, before) + if g in gs then amount else 0
  {
    if g in gs {
      var i :| 0 <= i < |gs| && gs[i] == g;
      SumOneChanged(gs, i, before, total);
    } else {
      SumCongruence(gs, before, total);
    }
  }

  lemma {:induction false} SumOneChanged<T>(s: seq<T>, i: nat, f: T -> int, g: T -> int)
    requires i < |s| && forall j :: 0 <= j < |s| && j != i ==> f(s[j]) == g(s[j])
    ensures SumSeq(s, g) == SumSeq(s, f) + g(s[i]) - f(s[i])
  {
    var init := s[..|s| - 1];
    if i == |s| - 1 {
      SumCongruence(init, f, g);
    } else {
      SumOneChanged(init, i, f, g);
    }
  }

  lemma {:induction false} SumScale<T>(s: seq<T>, f: T -> int, g: T -> int, w: int)
    requires forall x :: x in s ==> g(x) == f(x) * w
    ensures SumSeq(s, g) == SumSeq(s, f) * w
  {
    if s == [] {
    } else {
      SumScale(s[..|s| - 1], f, g, w);
      assert SumSeq(s, f) * w == SumSeq(s[..|s| - 1], f) * w + f(s[|s| - 1]) * w;
    }
  }

  /** Weighting each group total by something constant on the group is weighting each row by it. */
  lemma {:induction false} WeightedGroupsConserve<T(!new), G(!new)>(
      s: seq<T>, of: T -> G, f: T -> int, weight: G -> int, weighted: Sum<G> -> int, each: T -> int)
    requires forall r :: weighted(r) == r.total * weight(r.group)
    requires forall x :: each(x) == f(x) * weight(of(x))
    ensures SumSeq(GroupSum(s, of, f), weighted) == SumSeq(s, each)
  {
    var total := GroupTotal(s, of, each);
    var row := (g: G) => Sum(g, SumSeq(Group(s, of, g), f));
    forall g ensures weighted(row(g)) == total(g) {
      SumScale(Group(s, of, g), f, each, weight(g));
    }
    SumMap(Groups(s, of), row, weighted, total);
    assert GroupSum(s, of, f) == Map(Groups(s, of), row);
    GroupTotals(s, of, each);
  }

  lemma {:induction false} SumFiltered<T(!new)>(s: seq<T>, keep: T -> bool, f: T -> int, g: T -> int)
    requires forall x :: g(x) == if keep(x) then f(x) else 0
    ensures SumSeq(Filter(s, keep), f) == SumSeq(s, g)
  {
    if s == [] {
    } else {
      SumFiltered(s[..|s| - 1], keep, f, g);
    }
  }

  lemma {:induction false} SumMinus<T>(s: seq<T>, f: T -> int, g: T -> int, h: T -> int)
    requires forall x :: h(x) == f(x) - g(x)
    ensures SumSeq(s, h) == SumSeq(s, f) - SumSeq(s, g)
  {
    if s == [] {
    } else {
      SumMinus(s[..|s| - 1], f, g, h);
    }
  }

  function Elements<T(==)>(s: seq<T>): set<T> { set x | x in s }

  lemma {:induction false} ElementsCount<T(!new)>(s: seq<T>)
    ensures |Elements(s)| <= |s|
    ensures |Elements(s)| == |s| <==> Distinct(s)
  {
    if s == [] {
      assert Elements(s) == {};
    } else {
      var init, x := s[..|s| - 1], s[|s| - 1];
      ElementsCount(init);
      assert Elements(s) == Elements(init) + {x};
      if x in init {
        assert Elements(s) == Elements(init);
      }
    }
  }

  /** A duplicate-free selection of some rows is as long as all of them exactly when all are distinct and selected. */
  lemma SelectionCount<T(!new)>(selected: seq<T>, all: seq<T>)
    requires Distinct(selected) && forall x :: x in selected ==> x in all
    ensures |selected| <= |all|
    ensures |selected| == |all| <==> Distinct(all) && Same(selected, all)
  {
    var a, b := Elements(selected), Elements(all);
    ElementsCount(selected);
    ElementsCount(all);
    assert a <= b && |b - a| == |b| - |a|;
    if |selected| == |all| {
      assert b - a == {};
      assert forall x :: x in all ==> x in b;
    } else if Same(selected, all) {
      assert a == b;
    }
  }
}
