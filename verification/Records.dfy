/** The contract a generation record has to meet before it may reach the lake. */
module Records {
  import opened Prelude
  import opened TimeAxis

  const ZONES: set<string> := {
    "10YFR-RTE------C", "10YBE----------2", "10YNL----------L", "10Y1001A1001A82H", "10YES-REE------0",
    "10YPT-REN------W", "10YCH-SWISSGRIDZ", "10YAT-APG------L", "10YGB----------A"
  }

  const PRODUCTION_TYPES: set<string> := {
    "B01", "B02", "B03", "B04", "B05", "B06", "B07", "B08", "B09", "B10", "B11", "B12", "B13",
    "B14", "B15", "B16", "B17", "B18", "B19", "B20", "B21", "B22", "B23", "B24", "B25"
  }

  const STORAGE_TYPES: set<string> := {"B10", "B25"}

  const MAX_QUANTITY_MW: int := 150_000
  const MAX_SCALE: int := 3
  const MAX_RESOLUTION_MINUTES: int := 1440

  /** B01 to B25. */
  function TypeCode(n: int): string
    requires 1 <= n <= 25
  {
    ['B', '0' + (n / 10) as char, '0' + (n % 10) as char]
  }

  datatype Source = Entsoe | Rte

  datatype Direction = Generation | Consumption

  /** The series and settlement period a row describes. */
  datatype Key = Key(source: Source, zone: string, productionType: string, direction: Direction, validTime: int)

  /** What a revision changes: the quantity, in thousandths of a MW, and the source's own stamp. */
  datatype Value = Value(quantity: int, updatedAt: Option<int>)

  /** One version of one settlement period, as it was known at `knownAt`. */
  datatype Row = Row(
    key: Key, knownAt: int, value: Value, documentId: Option<string>, unit: string, resolutionMinutes: int)

  /** coefficient / 10^scale, keeping the digits the source wrote. */
  datatype Decimal = Decimal(coefficient: int, scale: int)

  datatype Candidate = Candidate(
    key: Key, knownAt: int, quantity: Decimal, updatedAt: Option<int>,
    documentId: Option<string>, unit: string, resolutionMinutes: int)

  datatype Violation =
    | Contract(candidate: Candidate)
    | SubMinuteResolution(start: int, points: nat)
    | UnknownProductionType(name: string)
    | MixedResolution(name: string)

  /** The known types are exactly these codes. */
  lemma TypesExact(t: string)
    ensures t in PRODUCTION_TYPES <==> exists n :: 1 <= n <= 25 && t == TypeCode(n)
  {
    forall n | 1 <= n <= 25 ensures TypeCode(n) in PRODUCTION_TYPES {
      TypeCodeKnown(n);
    }
    if t in PRODUCTION_TYPES {
      assert |t| == 3 && '0' <= t[1] <= '2' && '0' <= t[2] <= '9';
      var n := 10 * (t[1] - '0') as int + (t[2] - '0') as int;
      assert 1 <= n <= 25 && t == TypeCode(n);
    }
  }

  lemma TypeCodeKnown(n: int)
    requires 1 <= n <= 25
    ensures TypeCode(n) in PRODUCTION_TYPES
  {
  }

  function Pow10(n: nat): (r: int)
    ensures r >= 1
  {
    if n == 0 then 1 else 10 * Pow10(n - 1)
  }

  predicate Plausible(q: Decimal) {
    && 0 <= q.coefficient
    && (if q.scale >= 0 then q.coefficient <= MAX_QUANTITY_MW * Pow10(q.scale)
        else q.coefficient * Pow10(-q.scale) <= MAX_QUANTITY_MW)
    && q.scale <= MAX_SCALE
  }

  predicate MeetsContract(c: Candidate) {
    && c.key.zone in ZONES
    && c.key.productionType in PRODUCTION_TYPES
    && c.unit == "MW"
    && 0 < c.resolutionMinutes <= MAX_RESOLUTION_MINUTES
    && Plausible(c.quantity)
    && (c.key.validTime % DAY) % (c.resolutionMinutes * MINUTE) == 0
    && c.knownAt >= c.key.validTime
  }

  function Thousandths(q: Decimal): int
    requires q.scale <= MAX_SCALE
  {
    q.coefficient * Pow10(MAX_SCALE - q.scale)
  }

  function BuildRecord(c: Candidate): Result<Row, Violation> {
    if MeetsContract(c) then
      Ok(Row(c.key, c.knownAt, Value(Thousandths(c.quantity), c.updatedAt), c.documentId, c.unit, c.resolutionMinutes))
    else Err(Contract(c))
  }

  lemma {:induction false} Pow10Add(a: nat, b: nat)
    ensures Pow10(a + b) == Pow10(a) * Pow10(b)
  {
    if a == 0 {
    } else {
      Pow10Add(a - 1, b);
      TenTimes(Pow10(a - 1), Pow10(b));
    }
  }

  lemma TenTimes(x: int, y: int)
    ensures (10 * x) * y == 10 * (x * y)
  {
  }

  /**
   * The lake's decimal(12, 3) holds every accepted quantity exactly: nothing is rounded, and
   * nothing comes near twelve digits.
   */
  lemma AcceptedQuantityIsExact(c: Candidate)
    requires BuildRecord(c).Ok?
    ensures var q := BuildRecord(c).value.value.quantity;
            && 0 <= q <= 1000 * MAX_QUANTITY_MW < Pow10(12)
            && (if c.quantity.scale >= 0 then q * Pow10(c.quantity.scale) == 1000 * c.quantity.coefficient
                else q == 1000 * (c.quantity.coefficient * Pow10(-c.quantity.scale)))
  {
    TwelveDigits();
    if c.quantity.scale >= 0 {
      SmallScale(c.quantity.coefficient, c.quantity.scale);
    } else {
      NegativeScale(c.quantity.coefficient, -c.quantity.scale);
    }
  }

  lemma TwelveDigits()
    ensures Pow10(3) == 1000 && Pow10(12) > 1000 * MAX_QUANTITY_MW
  {
    assert Pow10(3) == 1000;
    Pow10Add(3, 3);
    Pow10Add(6, 6);
  }

  lemma SmallScale(n: int, s: int)
    requires 0 <= s <= 3 && 0 <= n <= MAX_QUANTITY_MW * Pow10(s)
    ensures (n * Pow10(3 - s)) * Pow10(s) == 1000 * n
    ensures 0 <= n * Pow10(3 - s) <= 1000 * MAX_QUANTITY_MW
  {
    assert Pow10(0) == 1 && Pow10(1) == 10 && Pow10(2) == 100 && Pow10(3) == 1000;
    if s == 0 {
    } else if s == 1 {
    } else if s == 2 {
    } else {
    }
  }

  lemma NegativeScale(n: int, s: nat)
    ensures n * Pow10(3 + s) == 1000 * (n * Pow10(s))
  {
    assert Pow10(3) == 1000;
    Pow10Add(3, s);
    assert n * (1000 * Pow10(s)) == 1000 * (n * Pow10(s));
  }

  /** So many times so much. */
  predicate Multiple(n: int, each: int, total: int) { n * each == total }

  ghost predicate WholeNumberOf(each: int, total: int) { exists n :: Multiple(n, each, total) }

  /** A whole number of periods past midnight. */
  ghost predicate OnBoundary(at: int, minutes: int) { WholeNumberOf(minutes * MINUTE, at - at / DAY * DAY) }

  lemma BoundaryExact(at: int, minutes: int)
    requires minutes > 0
    ensures (at % DAY) % (minutes * MINUTE) == 0 <==> OnBoundary(at, minutes)
  {
    var d, x := minutes * MINUTE, at - at / DAY * DAY;
    assert x == at % DAY;
    WholeExact(x, d);
    if n :| Multiple(n, d, x) {
      assert n * d == x;
    }
    if n: int :| n * d == x {
      assert Multiple(n, d, x);
    }
  }

  lemma PlausibleExact(q: Decimal)
    ensures Plausible(q) <==> q.scale <= 3 && 0 <= Thousandths(q) <= 150_000_000
  {
    if q.scale > 3 {
    } else if q.scale >= 0 {
      ScaledBounds(q.coefficient, q.scale);
    } else {
      NegativeScale(q.coefficient, -q.scale);
      SameSign(q.coefficient, Pow10(-q.scale));
    }
  }

  lemma ScaledBounds(n: int, s: int)
    requires 0 <= s <= 3
    ensures 0 <= n <= MAX_QUANTITY_MW * Pow10(s) <==> 0 <= n * Pow10(3 - s) <= 150_000_000
  {
    assert Pow10(0) == 1 && Pow10(1) == 10 && Pow10(2) == 100 && Pow10(3) == 1000;
    if s == 0 {
    } else if s == 1 {
    } else if s == 2 {
    } else {
    }
  }

  lemma SameSign(n: int, m: int)
    requires m > 0
    ensures 0 <= n <==> 0 <= n * m
  {
    if n < 0 {
      assert -n * m > 0;
    } else {
      assert n * m >= 0;
    }
  }

  /**
   * Exactly what becomes a record: a known zone and type, megawatts, a resolution of at most a day that the
   * instant is a whole number of past midnight, at most 150 000 MW in at most three decimals, and a value not
   * known before its period begins.
   */
  lemma ContractExact(c: Candidate)
    ensures BuildRecord(c).Ok?
            <==> && c.key.zone in ZONES && c.key.productionType in PRODUCTION_TYPES && c.unit == "MW"
                 && 1 <= c.resolutionMinutes <= 1440 && OnBoundary(c.key.validTime, c.resolutionMinutes)
                 && c.quantity.scale <= 3 && 0 <= Thousandths(c.quantity) <= 150_000_000
                 && c.key.validTime <= c.knownAt
  {
    PlausibleExact(c.quantity);
    if c.resolutionMinutes > 0 {
      BoundaryExact(c.key.validTime, c.resolutionMinutes);
    }
  }
}
