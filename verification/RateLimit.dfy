/** The request limiter: a token bucket whose balance may go negative, over whole runs of callers. */
module RateLimit {
  import opened Prelude

  datatype Limits = Limits(rate: real, burst: int)

  predicate Sound(l: Limits) { l.rate > 0.0 && l.burst >= 1 }

  /** The same limits in seconds: what one token costs, and what a full bucket holds. */
  datatype Pace = Pace(period: real, capacity: real)

  predicate Steady(p: Pace) { 0.0 < p.period <= p.capacity }

  function PaceOf(l: Limits): (p: Pace)
    requires Sound(l)
    ensures Steady(p)
  {
    assert l.burst as real / l.rate >= 1.0 / l.rate by {
      assert l.burst as real * (1.0 / l.rate) >= 1.0 * (1.0 / l.rate);
    }
    Pace(1.0 / l.rate, l.burst as real / l.rate)
  }

  /** `clock` is the readings taken by acquire, one per caller, after the bucket was created at `start`. */
  predicate Monotone(start: real, clock: seq<real>) {
    && (forall i :: 0 <= i < |clock| ==> start <= clock[i])
    && forall i, j :: 0 <= i < j < |clock| ==> clock[i] <= clock[j]
  }

  function Min(a: real, b: real): real { if b < a then b else a }

  /** The balance the i-th caller finds before taking its token, in seconds. */
  function Credit(p: Pace, start: real, clock: seq<real>, i: nat): real
    requires i < |clock|
  {
    if i == 0 then Min(p.capacity, p.capacity + (clock[0] - start))
    else Min(p.capacity, Credit(p, start, clock, i - 1) - p.period + (clock[i] - clock[i - 1]))
  }

  function Shortfall(p: Pace, credit: real): real { if credit < p.period then p.period - credit else 0.0 }

  /** When the i-th caller is let through. */
  function Release(p: Pace, start: real, clock: seq<real>, i: nat): real
    requires i < |clock|
  {
    clock[i] + Shortfall(p, Credit(p, start, clock, i))
  }

  function Releases(p: Pace, start: real, clock: seq<real>): (r: seq<real>)
    ensures |r| == |clock| && forall i :: 0 <= i < |clock| ==> r[i] == Release(p, start, clock, i)
  {
    seq(|clock|, i requires 0 <= i < |clock| => Release(p, start, clock, i))
  }

  /** The credit left once the i-th caller has gone through, never negative. */
  function Slack(p: Pace, start: real, clock: seq<real>, i: nat): (r: real)
    requires i < |clock|
    ensures Steady(p) ==> 0.0 <= r <= p.capacity - p.period
  {
    var c := Credit(p, start, clock, i);
    if c < p.period then 0.0 else c - p.period
  }

  /** The cost of n tokens. */
  function Cost(p: Pace, n: nat): real {
    if n == 0 then 0.0 else Cost(p, n - 1) + p.period
  }

  lemma {:induction false} CostIsProduct(p: Pace, n: nat)
    ensures Cost(p, n) == n as real * p.period
  {
    if n == 0 {
    } else {
      CostIsProduct(p, n - 1);
      assert n as real * p.period == (n - 1) as real * p.period + p.period;
    }
  }

  lemma {:induction false} CostMonotone(p: Pace, m: nat, n: nat)
    requires Steady(p) && m <= n
    ensures Cost(p, m) <= Cost(p, n)
  {
    if m == n {
    } else {
      CostMonotone(p, m, n - 1);
    }
  }

  /** From caller i to caller j, the time that passes pays for every token in between. */
  lemma {:induction false} SlackBetween(p: Pace, start: real, clock: seq<real>, i: nat, j: nat)
    requires Steady(p) && Monotone(start, clock) && i <= j < |clock|
    ensures var from, to := Release(p, start, clock, i), Release(p, start, clock, j);
            from <= to && Slack(p, start, clock, j) + Cost(p, j - i) <= Slack(p, start, clock, i) + (to - from)
    decreases j - i
  {
    if i == j {
    } else {
      SlackBetween(p, start, clock, i, j - 1);
      assert clock[j - 1] <= clock[j];
    }
  }

  /** In seconds: any stretch of callers is spread over at least the time their tokens cost beyond a full bucket. */
  ghost predicate Spaced(p: Pace, times: seq<real>) {
    forall i, j :: 0 <= i <= j < |times| ==> Cost(p, j - i + 1) <= p.capacity + (times[j] - times[i])
  }

  /** Nobody is let through early, nobody overtakes, and every stretch of callers keeps the pace. */
  lemma ReleasesSpaced(p: Pace, start: real, clock: seq<real>)
    requires Steady(p) && Monotone(start, clock)
    ensures var r := Releases(p, start, clock);
            && (forall i :: 0 <= i < |clock| ==> clock[i] <= r[i])
            && (forall i, j :: 0 <= i <= j < |clock| ==> r[i] <= r[j])
            && Spaced(p, r)
  {
    var r := Releases(p, start, clock);
    forall i, j | 0 <= i <= j < |clock| ensures r[i] <= r[j] && Cost(p, j - i + 1) <= p.capacity + (r[j] - r[i]) {
      SlackBetween(p, start, clock, i, j);
    }
  }

  lemma {:induction false} RangeCount(i: int, j: int, s: set<int>)
    requires i <= j + 1 && forall k :: k in s ==> i <= k <= j
    ensures |s| <= j - i + 1
    decreases j - i
  {
    if i == j + 1 {
      forall k ensures k !in s {}
      assert s == {};
    } else {
      RangeCount(i, j - 1, s - {j});
    }
  }

  lemma {:induction false} Extreme(s: set<int>, k: int, sign: int) returns (m: int)
    requires k in s
    ensures m in s && forall x :: x in s ==> sign * m <= sign * x
    decreases s
  {
    m := k;
    if y :| y in s && sign * y < sign * k {
      assert s == (s - {k}) + {k};
      m := Extreme(s - {k}, y, sign);
    }
  }

  function Hits(times: seq<real>, from: real, to: real): set<int> {
    set k | 0 <= k < |times| && from <= times[k] <= to
  }

  lemma HitsCost(p: Pace, times: seq<real>, from: real, to: real)
    requires Steady(p) && Spaced(p, times) && from <= to
    ensures Cost(p, |Hits(times, from, to)|) <= p.capacity + (to - from)
  {
    var hits := Hits(times, from, to);
    if hits != {} {
      var k := Pick(hits);
      var i := Extreme(hits, k, 1);
      var j := Extreme(hits, k, -1);
      RangeCount(i, j, hits);
      CostMonotone(p, |hits|, j - i + 1);
    }
  }

  lemma InTokens(l: Limits, n: nat, length: real)
    requires Sound(l)
    ensures Cost(PaceOf(l), n) <= PaceOf(l).capacity + length <==> n as real <= l.burst as real + l.rate * length
  {
    CostIsProduct(PaceOf(l), n);
    Rescale(l.rate, n as real, l.burst as real, length);
  }

  lemma Rescale(rate: real, n: real, b: real, length: real)
    requires rate > 0.0
    ensures n * (1.0 / rate) <= b / rate + length <==> n <= b + rate * length
  {
    var period := 1.0 / rate;
    assert rate * period == 1.0;
    assert b / rate == b * period;
    var excess := n - b - rate * length;
    assert excess * period == n * period - b * period - length * (rate * period);
    if excess > 0.0 {
      assert excess * period > 0.0;
    } else {
      assert -excess * period >= 0.0;
    }
  }

  /** In any closed stretch of time at most burst + rate * length callers are let through. */
  lemma RateBound(l: Limits, start: real, clock: seq<real>, from: real, to: real)
    requires Sound(l) && Monotone(start, clock) && from <= to
    ensures |Hits(Releases(PaceOf(l), start, clock), from, to)| as real <= l.burst as real + l.rate * (to - from)
  {
    HitsOfRun(PaceOf(l), start, clock, from, to);
    InTokens(l, |Hits(Releases(PaceOf(l), start, clock), from, to)|, to - from);
  }

  lemma HitsOfRun(p: Pace, start: real, clock: seq<real>, from: real, to: real)
    requires Steady(p) && Monotone(start, clock) && from <= to
    ensures Cost(p, |Hits(Releases(p, start, clock), from, to)|) <= p.capacity + (to - from)
  {
    ReleasesSpaced(p, start, clock);
    HitsCost(p, Releases(p, start, clock), from, to);
  }

  /** Two callers in a row that both wait are let through exactly one period apart. */
  lemma WaitersOnePeriodApart(p: Pace, start: real, clock: seq<real>, i: nat)
    requires Steady(p) && Monotone(start, clock) && i + 1 < |clock|
    requires Release(p, start, clock, i) > clock[i] && Release(p, start, clock, i + 1) > clock[i + 1]
    ensures Release(p, start, clock, i + 1) - Release(p, start, clock, i) == p.period
  {
  }

  /** The last caller up to j that found a full bucket fixes what caller j finds. */
  lemma {:induction false} LastFull(p: Pace, start: real, clock: seq<real>, j: nat) returns (i: nat)
    requires Steady(p) && Monotone(start, clock) && j < |clock|
    ensures i <= j && Credit(p, start, clock, i) == p.capacity
    ensures Credit(p, start, clock, j) == p.capacity - Cost(p, j - i) + (clock[j] - clock[i])
  {
    if Credit(p, start, clock, j) == p.capacity {
      i := j;
    } else {
      i := LastFull(p, start, clock, j - 1);
    }
  }

  /**
   * The bucket makes nobody wait longer than the pace forces: of all schedules that let no caller
   * through before it asked and keep the pace, its own is earliest for everyone.
   */
  lemma EarliestSchedule(p: Pace, start: real, clock: seq<real>, times: seq<real>, j: nat)
    requires Steady(p) && Monotone(start, clock) && j < |clock| == |times|
    requires (forall i :: 0 <= i < |clock| ==> clock[i] <= times[i]) && Spaced(p, times)
    ensures Release(p, start, clock, j) <= times[j]
  {
    if Credit(p, start, clock, j) < p.period {
      var i := LastFull(p, start, clock, j);
      assert Cost(p, j - i + 1) <= p.capacity + (times[j] - times[i]);
      assert Cost(p, j - i + 1) == Cost(p, j - i) + p.period;
    }
  }

  datatype ConfigError = RateNotPositive | BurstBelowOne

  class TokenBucket {
    const limits: Limits
    var tokens: real
    var updated: real
    ghost const start: real
    ghost var clock: seq<real>

    ghost predicate Valid()
      reads this
    {
      Sound(limits) && Consistent(limits, PaceOf(limits), tokens, updated, start, clock)
    }

    constructor (l: Limits, now: real)
      requires Sound(l)
      ensures Valid() && limits == l && start == now && clock == []
    {
      limits, tokens, updated, start, clock := l, l.burst as real, now, now, [];
    }

    static method Create(rate: real, burst: int, now: real) returns (r: Result<TokenBucket, ConfigError>)
      ensures r.Ok? ==> fresh(r.value) && r.value.Valid() && r.value.limits == Limits(rate, burst)
                        && r.value.start == now && r.value.clock == []
      ensures r == Err(RateNotPositive) <==> rate <= 0.0
      ensures r == Err(BurstBelowOne) <==> rate > 0.0 && burst < 1
    {
      if rate <= 0.0 { return Err(RateNotPositive); }
      if burst < 1 { return Err(BurstBelowOne); }
      var bucket := new TokenBucket(Limits(rate, burst), now);
      return Ok(bucket);
    }

    /** Take one token; the caller sleeps for the returned shortfall, to its release time. */
    method Acquire(now: real) returns (shortfall: real)
      requires Valid() && updated <= now
      modifies this
      ensures Valid() && clock == old(clock) + [now]
      ensures now + shortfall == Release(PaceOf(limits), start, clock, |clock| - 1)
    {
      tokens, shortfall := Take(limits, tokens, updated, now, start, clock);
      updated := now;
      clock := clock + [now];
    }
  }

  /** The arithmetic of one acquire: the balance it leaves, and how long its caller waits. */
  method Take(l: Limits, tokens: real, updated: real, now: real, ghost start: real, ghost clock: seq<real>)
    returns (left: real, shortfall: real)
    requires Sound(l) && Consistent(l, PaceOf(l), tokens, updated, start, clock) && updated <= now
    ensures Consistent(l, PaceOf(l), left, now, start, clock + [now])
    ensures now + shortfall == Release(PaceOf(l), start, clock + [now], |clock|)
  {
    PaceInTokens(l);
    AcquireStep(l, PaceOf(l), tokens, updated, start, clock, now);
    left := Min(l.burst as real, tokens + (now - updated) * l.rate);
    shortfall := if (1.0 - left) / l.rate > 0.0 then (1.0 - left) / l.rate else 0.0;
    left := left - 1.0;
  }

  /** max(0.0, (1.0 - tokens) / rate). */
  function Wait(l: Limits, tokens: real): real
    requires l.rate > 0.0
  {
    var wait := (1.0 - tokens) / l.rate;
    if wait > 0.0 then wait else 0.0
  }

  /** One period refills one token, and a full bucket is the burst. */
  predicate Matches(l: Limits, p: Pace) { l.rate * p.period == 1.0 && l.rate * p.capacity == l.burst as real }

  /** A credit in seconds, at `rate` tokens a second. */
  function Tokens(l: Limits, credit: real): real { l.rate * credit }

  /** The balance in tokens is the credit the run so far has left, at `rate` tokens a second. */
  ghost predicate Tracks(l: Limits, p: Pace, tokens: real, updated: real, start: real, clock: seq<real>) {
    && tokens == Tokens(l, CreditLeft(p, start, clock))
    && updated == if clock == [] then start else clock[|clock| - 1]
  }

  ghost predicate Consistent(l: Limits, p: Pace, tokens: real, updated: real, start: real, clock: seq<real>) {
    Monotone(start, clock) && Tracks(l, p, tokens, updated, start, clock)
  }

  lemma AcquireStep(l: Limits, p: Pace, tokens: real, updated: real, start: real, clock: seq<real>, now: real)
    requires l.rate > 0.0 && Matches(l, p) && Consistent(l, p, tokens, updated, start, clock) && updated <= now
    ensures var filled := Min(l.burst as real, tokens + (now - updated) * l.rate);
            && Consistent(l, p, filled - 1.0, now, start, clock + [now])
            && now + Wait(l, filled) == Release(p, start, clock + [now], |clock|)
  {
    CreditLeftSnoc(p, start, clock, updated, now);
    ReleaseSnoc(p, start, clock, updated, now);
    RefillScales(l, p, tokens, CreditLeft(p, start, clock), updated, now, CreditLeft(p, start, clock + [now]));
  }

  function CreditLeft(p: Pace, start: real, clock: seq<real>): real {
    if clock == [] then p.capacity else Credit(p, start, clock, |clock| - 1) - p.period
  }

  lemma PaceInTokens(l: Limits)
    requires Sound(l)
    ensures Matches(l, PaceOf(l))
  {
    Quotient(1.0, l.rate);
    Quotient(l.burst as real, l.rate);
  }

  lemma Quotient(a: real, b: real)
    requires b > 0.0
    ensures b * (a / b) == a
  {
  }

  /** Refilling means the same in tokens as in seconds. */
  lemma FillScales(rate: real, burst: real, capacity: real, tokens: real, credit: real, elapsed: real)
    requires rate > 0.0 && rate * capacity == burst && tokens == rate * credit
    ensures Min(burst, tokens + elapsed * rate) == rate * Min(capacity, credit + elapsed)
  {
    Distribute(rate, credit, elapsed);
    Scaled(rate, capacity, credit + elapsed);
  }

  /** So do taking a token, and waiting. */
  lemma RefillScales(l: Limits, p: Pace, tokens: real, credit: real, updated: real, now: real, left: real)
    requires l.rate > 0.0 && Matches(l, p) && tokens == Tokens(l, credit)
    requires left == Min(p.capacity, credit + (now - updated)) - p.period
    ensures var filled := Min(l.burst as real, tokens + (now - updated) * l.rate);
            && filled - 1.0 == Tokens(l, left)
            && Wait(l, filled) == Shortfall(p, Min(p.capacity, credit + (now - updated)))
  {
    FillScales(l.rate, l.burst as real, p.capacity, tokens, credit, now - updated);
    var filled := Min(l.burst as real, tokens + (now - updated) * l.rate);
    var after := Min(p.capacity, credit + (now - updated));
    TakeScales(l.rate, p.period, filled, after);
    WaitScales(l, p, filled, after);
  }

  lemma TakeScales(rate: real, period: real, filled: real, after: real)
    requires rate * period == 1.0 && filled == rate * after
    ensures filled - 1.0 == rate * (after - period)
  {
  }

  lemma Distribute(a: real, b: real, c: real)
    ensures a * (b + c) == a * b + c * a
  {
  }

  lemma WaitScales(l: Limits, p: Pace, filled: real, after: real)
    requires l.rate > 0.0 && l.rate * p.period == 1.0 && filled == l.rate * after
    ensures Wait(l, filled) == Shortfall(p, after)
  {
    Distribute(l.rate, p.period - after, after);
    Divided(1.0 - filled, l.rate, p.period - after);
  }

  lemma Divided(a: real, b: real, q: real)
    requires b > 0.0 && a == b * q
    ensures a / b == q
  {
    Quotient(a, b);
    Scaled(b, a / b, q);
    Scaled(b, q, a / b);
  }

  lemma Scaled(rate: real, a: real, b: real)
    requires rate > 0.0
    ensures rate * a <= rate * b <==> a <= b
  {
    if a > b {
      assert rate * (a - b) > 0.0;
    } else {
      assert rate * (b - a) >= 0.0;
    }
  }

  lemma CreditLeftSnoc(p: Pace, start: real, clock: seq<real>, updated: real, now: real)
    requires updated == if clock == [] then start else clock[|clock| - 1]
    ensures CreditLeft(p, start, clock + [now])
            == Min(p.capacity, CreditLeft(p, start, clock) + (now - updated)) - p.period
  {
    if clock != [] {
      CreditPrefix(p, start, clock, clock + [now], |clock| - 1);
    }
  }

  lemma ReleaseSnoc(p: Pace, start: real, clock: seq<real>, updated: real, now: real)
    requires updated == if clock == [] then start else clock[|clock| - 1]
    ensures Release(p, start, clock + [now], |clock|)
            == now + Shortfall(p, Min(p.capacity, CreditLeft(p, start, clock) + (now - updated)))
  {
    CreditLeftSnoc(p, start, clock, updated, now);
  }

  lemma {:induction false} CreditPrefix(p: Pace, start: real, a: seq<real>, b: seq<real>, i: nat)
    requires i < |a| && a <= b
    ensures Credit(p, start, a, i) == Credit(p, start, b, i)
  {
    if i == 0 {
    } else {
      CreditPrefix(p, start, a, b, i - 1);
    }
  }
}
