/**
 The Snowflake estimate: what is observed of the pinned warehouse, which statements may run while it
 is suspended, and the price. The connector's answers are arbitrary; the statements issued are a list.
 */
module SnowflakeGuard {
  import opened Outcomes
  import opened SqlScope
  import opened SqlKeywords
  import opened BigQueryCaps
  import opened SnowflakePricing

  // ----- answers and statements

  /** A SHOW WAREHOUSES row as it is read: None where a column is missing, NULL or not recognised. */
  datatype ShowRow = ShowRow(
    name: Option<string>, standard: bool, size: Option<Size>, generation: Option<Generation>, started: bool)

  /** A QUERY_HISTORY row: is its text the query's, and its numbers where they are numbers. */
  datatype HistoryRow = HistoryRow(sameText: bool, elapsedMs: Option<real>, bytesScanned: Option<real>)

  datatype CurrentAnswer = CurrentFailed | NotText | Named(name: string)

  /** None stands for a statement that failed; a plan's bytes are None when they are no byte count. */
  datatype Answers = Answers(
    connects: bool,
    use: bool,
    plan: Option<Option<nat>>,
    current: CurrentAnswer,
    show: Option<seq<ShowRow>>,
    region: Option<Option<Cloud>>,
    history: Option<seq<HistoryRow>>)

  datatype Statement =
    | UseWarehouse(name: string)
    | Explain
    | CurrentWarehouse
    | ShowWarehouses(like: string)
    | CurrentRegion
    | QueryHistory

  class Connection {
    const answers: Answers
    var issued: seq<Statement>

    constructor (answers: Answers)
      ensures this.answers == answers && issued == []
    {
      this.answers, issued := answers, [];
    }

    method Execute(s: Statement)
      modifies this
      ensures issued == old(issued) + [s]
    {
      issued := issued + [s];
    }
  }

  // ----- names

  predicate IsNameStart(c: char) { IsAsciiLetter(c) || c == '_' }

  /** A name that may be sent: 1 to 255 characters, each of which needs no quotes, the first no digit. */
  predicate IsAllowedName(name: string) {
    && 1 <= |name| <= 255 && IsNameStart(name[0])
    && forall k :: 1 <= k < |name| ==> IsNameStart(name[k]) || IsAsciiDigit(name[k]) || name[k] == '$'
  }

  /** The name the query's warehouse is stored under, when it may be looked up. */
  function PinnedName(a: Answers, warehouse: Option<string>): Option<string> {
    match warehouse
    case Some(w) => if IsAllowedName(w) then Some(Upper(w)) else None
    case None => if a.current.Named? && IsAllowedName(a.current.name) then Some(a.current.name) else None
  }

  /** The name that goes into SHOW WAREHOUSES LIKE: the argument as given, or the session's own. */
  function LikeName(a: Answers, warehouse: Option<string>): string
    requires PinnedName(a, warehouse).Some?
  {
    if warehouse.Some? then warehouse.value else a.current.name
  }

  /** Exactly one SHOW row bears the pinned stored name, and it is `row`. */
  ghost predicate Binds(a: Answers, warehouse: Option<string>, row: ShowRow) {
    && a.show.Some? && PinnedName(a, warehouse).Some?
    && exists k: nat :: OnlyBearer(a.show.value, PinnedName(a, warehouse).value, k) && a.show.value[k] == row
  }

  ghost predicate OnlyBearer(rows: seq<ShowRow>, name: string, k: nat) {
    && k < |rows| && rows[k].name == Some(name)
    && forall j :: 0 <= j < |rows| && rows[j].name == Some(name) ==> j == k
  }

  // ----- the observation

  datatype Facts = Facts(row: ShowRow, cloud: Option<Cloud>)

  /** `Nothing` is a failed lookup or one that found no warehouse at all. */
  datatype Lookup = Nothing | UnsafeName | Unresolved | RegionFailed(facts: Facts) | Resolved(facts: Facts)

  function Matching(rows: seq<ShowRow>, name: string): seq<ShowRow> {
    if rows == [] then []
    else (if rows[0].name == Some(name) then [rows[0]] else []) + Matching(rows[1..], name)
  }

  lemma {:induction false} MatchingNone(rows: seq<ShowRow>, name: string)
    ensures Matching(rows, name) == [] <==> forall j :: 0 <= j < |rows| ==> rows[j].name != Some(name)
  {
    if rows != [] {
      MatchingNone(rows[1..], name);
      assert forall j :: 0 < j < |rows| ==> rows[j] == rows[1..][j - 1];
    }
  }

  /** Filtering leaves one row exactly when one position bears the name. */
  lemma {:induction false} MatchingOne(rows: seq<ShowRow>, name: string)
    ensures |Matching(rows, name)| == 1 <==> exists k: nat :: OnlyBearer(rows, name, k)
    ensures forall k: nat :: OnlyBearer(rows, name, k) ==> Matching(rows, name) == [rows[k]]
  {
    if rows != [] {
      var rest := rows[1..];
      MatchingOne(rest, name);
      MatchingNone(rest, name);
      assert forall j :: 0 < j < |rows| ==> rows[j] == rest[j - 1];
      if rows[0].name == Some(name) {
        assert Matching(rest, name) == [] ==> OnlyBearer(rows, name, 0);
      } else {
        forall k: nat
          ensures OnlyBearer(rows, name, k + 1) <==> OnlyBearer(rest, name, k)
        {
          ShiftBearer(rows, name, k);
        }
        assert !OnlyBearer(rows, name, 0);
        assert forall k: nat :: OnlyBearer(rows, name, k) ==> k > 0 && OnlyBearer(rest, name, k - 1);
      }
    }
  }

  lemma {:induction false} ShiftBearer(rows: seq<ShowRow>, name: string, k: nat)
    requires rows != [] && rows[0].name != Some(name)
    ensures OnlyBearer(rows, name, k + 1) <==> OnlyBearer(rows[1..], name, k)
  {
    assert forall j :: 0 < j < |rows| ==> rows[j] == rows[1..][j - 1];
    if OnlyBearer(rows, name, k + 1) {
      assert rows[1..][k] == rows[k + 1];
    }
  }

  /** What SHOW WAREHOUSES says about the pinned warehouse, fail closed on anything but one exact row. */
  function ShowOutcome(a: Answers, warehouse: Option<string>): Lookup {
    if warehouse == None && !a.current.Named? then Nothing
    else if PinnedName(a, warehouse) == None then UnsafeName
    else if a.show == None || a.show.value == [] then Nothing
    else
      var matching := Matching(a.show.value, PinnedName(a, warehouse).value);
      if |matching| != 1 then Unresolved else Resolved(Facts(matching[0], None))
  }

  lemma {:induction false} ResolvedIffBound(a: Answers, warehouse: Option<string>, row: ShowRow)
    ensures ShowOutcome(a, warehouse) == Resolved(Facts(row, None)) <==> Binds(a, warehouse, row)
  {
    if a.show.Some? && PinnedName(a, warehouse).Some? {
      MatchingOne(a.show.value, PinnedName(a, warehouse).value);
    }
  }

  method ShowWarehouseRow(conn: Connection, warehouse: Option<string>) returns (r: Lookup)
    modifies conn
    ensures r == ShowOutcome(conn.answers, warehouse)
    ensures conn.issued == old(conn.issued) + ShowScript(conn.answers, warehouse)
  {
    var pinned, like: string;
    if warehouse == None {
      conn.Execute(CurrentWarehouse);
      if !conn.answers.current.Named? {
        return Nothing;
      }
      like := conn.answers.current.name;
      if !IsAllowedName(like) {
        return UnsafeName;
      }
      pinned := like;
    } else {
      like := warehouse.value;
      if !IsAllowedName(like) {
        return UnsafeName;
      }
      pinned := Upper(like);
    }
    conn.Execute(ShowWarehouses(like));
    assert conn.issued == old(conn.issued) + ShowScript(conn.answers, warehouse);
    if conn.answers.show == None || conn.answers.show.value == [] {
      return Nothing;
    }
    var matching := Matching(conn.answers.show.value, pinned);
    if |matching| != 1 {
      return Unresolved;
    }
    return Resolved(Facts(matching[0], None));
  }

  function ShowScript(a: Answers, warehouse: Option<string>): seq<Statement> {
    (if warehouse == None then [CurrentWarehouse] else []) +
    (if PinnedName(a, warehouse).Some? then [ShowWarehouses(LikeName(a, warehouse))] else [])
  }

  predicate ComputeLookupsAllowed(row: ShowRow, allowResume: bool) { allowResume || row.started }

  /** The row observed, with the cloud when the guard lets the region be read. */
  function FactsOutcome(a: Answers, warehouse: Option<string>, allowResume: bool): Lookup {
    var r := ShowOutcome(a, warehouse);
    if !r.Resolved? || !ComputeLookupsAllowed(r.facts.row, allowResume) then r
    else if a.region == None then RegionFailed(r.facts)
    else Resolved(r.facts.(cloud := a.region.value))
  }

  function RegionScript(a: Answers, warehouse: Option<string>, allowResume: bool): seq<Statement> {
    var r := ShowOutcome(a, warehouse);
    if r.Resolved? && ComputeLookupsAllowed(r.facts.row, allowResume) then [CurrentRegion] else []
  }

  method LookupWarehouseFacts(conn: Connection, warehouse: Option<string>, allowResume: bool) returns (r: Lookup)
    modifies conn
    ensures r == FactsOutcome(conn.answers, warehouse, allowResume)
    ensures conn.issued == old(conn.issued) + ShowScript(conn.answers, warehouse)
                           + RegionScript(conn.answers, warehouse, allowResume)
  {
    var shown := ShowWarehouseRow(conn, warehouse);
    r := shown;
    if !r.Resolved? || !ComputeLookupsAllowed(r.facts.row, allowResume) {
      return;
    }
    conn.Execute(CurrentRegion);
    if conn.answers.region == None {
      return RegionFailed(r.facts);
    }
    return Resolved(r.facts.(cloud := conn.answers.region.value));
  }

  /** May the QUERY_HISTORY read run? */
  predicate HistoryAllowed(l: Lookup, warehouse: Option<string>, allowResume: bool) {
    if allowResume then true
    else if l.RegionFailed? then false
    else l.Resolved? && ComputeLookupsAllowed(l.facts.row, false) && warehouse.Some?
  }

  /** The guard's rule, in terms of the answers alone. */
  lemma {:induction false} HistoryGuard(a: Answers, warehouse: Option<string>, allowResume: bool)
    ensures HistoryAllowed(FactsOutcome(a, warehouse, allowResume), warehouse, allowResume) <==>
              || allowResume
              || (warehouse.Some? && a.region.Some? && exists row :: Binds(a, warehouse, row) && row.started)
  {
    ResolvedRow(a, warehouse);
  }

  /** The region is read exactly for a bound row that is STARTED, or with resuming allowed. */
  lemma {:induction false} RegionGuard(a: Answers, warehouse: Option<string>, allowResume: bool)
    ensures CurrentRegion in RegionScript(a, warehouse, allowResume) <==>
              exists row :: Binds(a, warehouse, row) && (row.started || allowResume)
  {
    ResolvedRow(a, warehouse);
  }

  lemma {:induction false} ResolvedRow(a: Answers, warehouse: Option<string>)
    ensures forall row :: Binds(a, warehouse, row) <==> ShowOutcome(a, warehouse) == Resolved(Facts(row, None))
    ensures ShowOutcome(a, warehouse).Resolved? ==> Binds(a, warehouse, ShowOutcome(a, warehouse).facts.row)
  {
    forall row
      ensures Binds(a, warehouse, row) <==> ShowOutcome(a, warehouse) == Resolved(Facts(row, None))
    {
      ResolvedIffBound(a, warehouse, row);
    }
    var r := ShowOutcome(a, warehouse);
    if r.Resolved? {
      assert r == Resolved(Facts(r.facts.row, None));
    }
  }

  // ----- rate, price and runtime

  /** The credit rate: None when nothing may be priced. */
  function RateFor(l: Lookup, asserted: Size): Option<real> {
    match l
    case Nothing => Some(CreditsPerHour(asserted, Gen1, Aws))
    case RegionFailed(_) => Some(CreditsPerHour(asserted, Gen1, Aws))
    case UnsafeName => None
    case Unresolved => None
    case Resolved(facts) =>
      if !facts.row.standard || facts.row.size == None then None
      else Some(ObservedRate(facts, LargerSize(asserted, facts.row.size.value)))
  }

  /** The rate of a size on the observed generation and cloud, Gen1 unless both are known. */
  function ObservedRate(facts: Facts, size: Size): real {
    if facts.row.generation.Some? && facts.cloud.Some? then
      CreditsPerHour(size, facts.row.generation.value, facts.cloud.value)
    else CreditsPerHour(size, Gen1, Aws)
  }

  function PriceFor(configured: Edition, asserted: Edition): real { UsdPerCredit(DearerEdition(configured, asserted)) }

  const ASSUMED_RUNTIME_HOURS: real := 30.0 / 3600.0

  /** Runs of the same text that read bytes, in milliseconds: a cached result does not count. */
  function MatchingMs(rows: seq<HistoryRow>): seq<real> {
    if rows == [] then []
    else
      (if rows[0].sameText && rows[0].elapsedMs.Some? && rows[0].bytesScanned.Some? && rows[0].bytesScanned.value > 0.0
       then [rows[0].elapsedMs.value] else []) + MatchingMs(rows[1..])
  }

  function Sum(xs: seq<real>): real { if xs == [] then 0.0 else xs[0] + Sum(xs[1..]) }

  function HistoricalHours(history: Option<seq<HistoryRow>>): Option<real> {
    if history == None || MatchingMs(history.value) == [] then None
    else
      var ms := MatchingMs(history.value);
      Some(Sum(ms) / |ms| as real / 1000.0 / 3600.0)
  }

  /** Runtime hours: history first when it may be read, else the byte tiers, else nothing. */
  function RuntimeFor(a: Answers, bytes: Option<nat>, historyAllowed: bool): Option<real> {
    var past := if historyAllowed then HistoricalHours(a.history) else None;
    if past.Some? then past
    else if bytes.Some? then Some(ScaleRuntimeHours(bytes.value, ASSUMED_RUNTIME_HOURS))
    else None
  }

  function Dollars(rate: real, usd: real, hours: real): real { rate * usd * hours }

  /** The dollar figure. */
  function Figure(l: Lookup, size: Size, configured: Edition, edition: Edition, hours: Option<real>): Option<real> {
    if RateFor(l, size) == None || hours == None then None
    else Some(Round6(Dollars(RateFor(l, size).value, PriceFor(configured, edition), hours.value)))
  }

  // ----- what the caller's arguments can do

  /**
   No dollar figure without exactly one exact row; and none for a row of another type or of unknown
   size, unless the region read after it failed.
   */
  lemma {:induction false} UnobservedHasNoFigure(a: Answers, warehouse: Option<string>, allowResume: bool, size: Size)
    requires a.show.Some? && a.show.value != []
    requires warehouse == None ==> a.current.Named?
    ensures (forall row :: !Binds(a, warehouse, row)) ==> RateFor(FactsOutcome(a, warehouse, allowResume), size) == None
    ensures forall row :: Binds(a, warehouse, row) && (!row.standard || row.size == None) ==>
              var l := FactsOutcome(a, warehouse, allowResume); RateFor(l, size) == None <==> !l.RegionFailed?
  {
    ResolvedRow(a, warehouse);
  }

  lemma {:induction false} DollarsGrow(r1: real, p1: real, h1: real, r2: real, p2: real, h2: real)
    requires 0.0 <= r1 <= r2 && 0.0 <= p1 <= p2 && h1 <= h2
    ensures 0.0 <= h2 ==> Dollars(r1, p1, h1) <= Dollars(r2, p2, h2)
    ensures h1 <= 0.0 ==> Dollars(r2, p2, h1) <= Dollars(r1, p1, h2)
  {
    assert r1 * p1 <= r2 * p1 <= r2 * p2;
    assert 0.0 <= r1 * p1;
    ProductsOrder(r1 * p1, r2 * p2, h1, h2);
  }

  lemma {:induction false} ProductsOrder(x: real, y: real, h1: real, h2: real)
    requires 0.0 <= x <= y && h1 <= h2
    ensures 0.0 <= h2 ==> x * h1 <= y * h2
    ensures h1 <= 0.0 ==> y * h1 <= x * h2
  {
    assert x * h1 <= x * h2;
    if 0.0 <= h2 {
      assert x * h2 <= y * h2;
    }
    if h1 <= 0.0 {
      assert y * h1 <= x * h1;
    }
  }

  lemma {:induction false} RateAtLeastObserved(facts: Facts, asserted: Size)
    requires facts.row.size.Some?
    ensures 1.0 <= ObservedRate(facts, facts.row.size.value)
    ensures ObservedRate(facts, facts.row.size.value) <= ObservedRate(facts, LargerSize(asserted, facts.row.size.value))
  {
    var size := facts.row.size.value;
    var chosen := LargerSize(asserted, size);
    LargerSizeIsUpperBound(asserted, size);
    TablesFollowTheRule(size, size, Gen1, Aws);
    RateGrowsWithSize(size, chosen, Gen1, Aws);
    if facts.row.generation.Some? && facts.cloud.Some? {
      TablesFollowTheRule(size, size, facts.row.generation.value, facts.cloud.value);
      RateGrowsWithSize(size, chosen, facts.row.generation.value, facts.cloud.value);
    }
  }

  /**
   Whatever was observed: a larger size, a dearer edition or a longer runtime never lowers a figure
   of hours that are not negative. At negative hours a longer runtime still never lowers it, a
   smaller size and a cheaper edition never do.
   */
  lemma {:induction false} FigureIsMonotone(
    l: Lookup, s1: Size, s2: Size, configured: Edition, e1: Edition, e2: Edition, h1: real, h2: real)
    requires s1.Rank() <= s2.Rank() && UsdPerCredit(e1) <= UsdPerCredit(e2) && h1 <= h2
    ensures var f1, f2 := Figure(l, s1, configured, e1, Some(h1)), Figure(l, s2, configured, e2, Some(h2));
            (f1.Some? <==> f2.Some?) && (0.0 <= h2 && f1.Some? ==> f1.value <= f2.value)
    ensures var f1, f2 := Figure(l, s2, configured, e2, Some(h1)), Figure(l, s1, configured, e1, Some(h2));
            (f1.Some? <==> f2.Some?) && (h1 <= 0.0 && f1.Some? ==> f1.value <= f2.value)
  {
    if RateFor(l, s1).Some? {
      RateIsMonotone(l, s1, s2);
      var r1, r2 := RateFor(l, s1).value, RateFor(l, s2).value;
      var p1, p2 := PriceFor(configured, e1), PriceFor(configured, e2);
      EditionsOrder(configured, e1, e2);
      DollarsGrow(r1, p1, h1, r2, p2, h2);
      if 0.0 <= h2 {
        Round6Law(Dollars(r1, p1, h1), Dollars(r2, p2, h2));
      }
      if h1 <= 0.0 {
        Round6Law(Dollars(r2, p2, h1), Dollars(r1, p1, h2));
      }
    }
  }

  lemma {:induction false} EditionsOrder(configured: Edition, e1: Edition, e2: Edition)
    requires UsdPerCredit(e1) <= UsdPerCredit(e2)
    ensures 0.0 < PriceFor(configured, e1) <= PriceFor(configured, e2)
  {
  }

  lemma {:induction false} RateIsMonotone(l: Lookup, s1: Size, s2: Size)
    requires s1.Rank() <= s2.Rank() && RateFor(l, s1).Some?
    ensures RateFor(l, s2).Some? && 1.0 <= RateFor(l, s1).value <= RateFor(l, s2).value
  {
    match l
    case Resolved(facts) =>
      var c1, c2 := LargerSize(s1, facts.row.size.value), LargerSize(s2, facts.row.size.value);
      LargerSizeIsUpperBound(s1, facts.row.size.value);
      LargerSizeIsUpperBound(s2, facts.row.size.value);
      RateAtLeastObserved(facts, s1);
      RateGrowsWithSize(c1, c2, Gen1, Aws);
      if facts.row.generation.Some? && facts.cloud.Some? {
        RateGrowsWithSize(c1, c2, facts.row.generation.value, facts.cloud.value);
      }
    case _ =>
      TablesFollowTheRule(s1, s1, Gen1, Aws);
      RateGrowsWithSize(s1, s2, Gen1, Aws);
  }

  /** More bytes never lower the runtime the figure is priced for. */
  lemma {:induction false} RuntimeIsMonotone(a: Answers, b1: nat, b2: nat, historyAllowed: bool)
    requires b1 <= b2
    ensures RuntimeFor(a, Some(b1), historyAllowed).Some? && RuntimeFor(a, Some(b2), historyAllowed).Some?
    ensures RuntimeFor(a, Some(b1), historyAllowed).value <= RuntimeFor(a, Some(b2), historyAllowed).value
  {
    RuntimeGrowsWithBytes(b1, b2, ASSUMED_RUNTIME_HOURS);
  }

  // ----- history

  lemma {:induction false} SumBetween(xs: seq<real>, lo: real, hi: real)
    requires forall k :: 0 <= k < |xs| ==> lo <= xs[k] <= hi
    ensures lo * |xs| as real <= Sum(xs) <= hi * |xs| as real
  {
    if xs != [] {
      SumBetween(xs[1..], lo, hi);
      var n := |xs[1..]| as real;
      assert |xs| as real == n + 1.0;
      assert lo * (n + 1.0) == lo * n + lo && hi * (n + 1.0) == hi * n + hi;
    }
  }

  /** The historical runtime lies between the shortest and the longest run that counted. */
  lemma {:induction false} HistoricalHoursBetween(history: Option<seq<HistoryRow>>, lo: real, hi: real)
    requires HistoricalHours(history).Some?
    requires forall k :: 0 <= k < |MatchingMs(history.value)| ==> lo <= MatchingMs(history.value)[k] <= hi
    ensures lo / 3600000.0 <= HistoricalHours(history).value <= hi / 3600000.0
  {
    var ms := MatchingMs(history.value);
    var n := |ms| as real;
    SumBetween(ms, lo, hi);
    Quotient(lo, Sum(ms), hi, n);
  }

  lemma {:induction false} Quotient(lo: real, sum: real, hi: real, n: real)
    requires n > 0.0 && lo * n <= sum <= hi * n
    ensures lo <= sum / n <= hi
  {
    var q := sum / n;
    assert q * n == sum;
    assert (q - lo) * n >= 0.0 && (hi - q) * n >= 0.0;
  }

  // ----- the estimate

  datatype EstimateRequest = EstimateRequest(
    warehouse: Option<string>, size: Option<Size>, edition: Option<Edition>, configured: Edition, allowResume: bool)

  datatype SnowflakeEstimate = SnowflakeEstimate(bytes: Option<nat>, usd: Option<real>)

  datatype Failure = BadWarehouseName | UnknownSize | UnknownEdition | ConnectorFailed

  function HistoryScript(q: EstimateRequest, a: Answers): seq<Statement> {
    var l := FactsOutcome(a, q.warehouse, q.allowResume);
    if HistoryAllowed(l, q.warehouse, q.allowResume) then [QueryHistory] else []
  }

  function PlanScript(q: EstimateRequest): seq<Statement> {
    (if q.warehouse.Some? then [UseWarehouse(q.warehouse.value)] else []) + [Explain]
  }

  /** The statements of a whole estimate whose EXPLAIN succeeded. */
  function Script(q: EstimateRequest, a: Answers): seq<Statement> {
    PlanScript(q) + ShowScript(a, q.warehouse) + RegionScript(a, q.warehouse, q.allowResume) + HistoryScript(q, a)
  }

  /** The runtime an estimate prices. */
  function EstimateHours(q: EstimateRequest, a: Answers): Option<real>
    requires a.plan.Some?
  {
    RuntimeFor(a, a.plan.value, HistoryAllowed(FactsOutcome(a, q.warehouse, q.allowResume), q.warehouse, q.allowResume))
  }

  /** The dollar figure an estimate returns. */
  function EstimateFigure(q: EstimateRequest, a: Answers): Option<real>
    requires Issues(q) && a.plan.Some?
  {
    var l := FactsOutcome(a, q.warehouse, q.allowResume);
    Figure(l, q.size.value, q.configured, q.edition.value, EstimateHours(q, a))
  }

  predicate Issues(q: EstimateRequest) {
    (q.warehouse.Some? ==> IsAllowedName(q.warehouse.value)) && q.size.Some? && q.edition.Some?
  }

  lemma {:induction false} OnlyTheRegionPart(q: EstimateRequest, a: Answers)
    ensures CurrentRegion in Script(q, a) <==> CurrentRegion in RegionScript(a, q.warehouse, q.allowResume)
    ensures QueryHistory in Script(q, a) <==> HistoryScript(q, a) != []
  {
    var r := RegionScript(a, q.warehouse, q.allowResume);
    assert r == [] || r == [CurrentRegion];
  }

  /**
   The warehouse-state guard over a whole estimate: nothing that could resume a warehouse runs
   unless its one exact row said STARTED or resuming is allowed.
   */
  lemma {:induction false} ScriptIsGuarded(q: EstimateRequest, a: Answers)
    ensures CurrentRegion in Script(q, a) <==>
              exists row :: Binds(a, q.warehouse, row) && (row.started || q.allowResume)
    ensures QueryHistory in Script(q, a) <==>
              q.allowResume ||
              (q.warehouse.Some? && a.region.Some? && exists row :: Binds(a, q.warehouse, row) && row.started)
  {
    RegionGuard(a, q.warehouse, q.allowResume);
    HistoryGuard(a, q.warehouse, q.allowResume);
    OnlyTheRegionPart(q, a);
  }

  /** The region is read right after the row that allows it, and only allowed names are looked up. */
  lemma {:induction false} RegionFollowsShow(q: EstimateRequest, a: Answers, k: nat)
    requires k < |Script(q, a)|
    ensures Script(q, a)[k] == CurrentRegion ==> k > 0 && Script(q, a)[k - 1].ShowWarehouses?
    ensures Script(q, a)[k].ShowWarehouses? ==> IsAllowedName(Script(q, a)[k].like)
  {
    var shown, region := ShowScript(a, q.warehouse), RegionScript(a, q.warehouse, q.allowResume);
    assert region != [] ==> shown != [] && shown[|shown| - 1].ShowWarehouses?;
    assert forall j :: 0 <= j < |shown| && shown[j].ShowWarehouses? ==> IsAllowedName(shown[j].like);
  }

  method ExplainEstimate(q: EstimateRequest, conn: Connection) returns (r: Result<SnowflakeEstimate, Failure>)
    requires conn.issued == []
    modifies conn
    ensures !Issues(q) || !conn.answers.connects ==> r.Refused? && conn.issued == []
    ensures r.Ok? <==>
              && Issues(q) && conn.answers.connects
              && (q.warehouse.Some? ==> conn.answers.use) && conn.answers.plan.Some?
    ensures r.Ok? ==> conn.issued == Script(q, conn.answers)
    ensures r.Refused? ==>
              && conn.issued <= Script(q, conn.answers)
              && QueryHistory !in conn.issued && CurrentRegion !in conn.issued
    ensures r.Ok? ==> r.value.bytes == conn.answers.plan.value
    ensures r.Ok? ==>
              var l := FactsOutcome(conn.answers, q.warehouse, q.allowResume);
              var hours := RuntimeFor(conn.answers, r.value.bytes, QueryHistory in conn.issued);
              r.value.usd == Figure(l, q.size.value, q.configured, q.edition.value, hours)
    ensures r.Ok? ==> r.value.usd == EstimateFigure(q, conn.answers)
  {
    if q.warehouse.Some? && !IsAllowedName(q.warehouse.value) {
      return Refused(BadWarehouseName);
    }
    if q.size == None {
      return Refused(UnknownSize);
    }
    if q.edition == None {
      return Refused(UnknownEdition);
    }
    if !conn.answers.connects {
      return Refused(ConnectorFailed);
    }
    if q.warehouse.Some? {
      conn.Execute(UseWarehouse(q.warehouse.value));
      if !conn.answers.use {
        return Refused(ConnectorFailed);
      }
    }
    conn.Execute(Explain);
    if conn.answers.plan == None {
      return Refused(ConnectorFailed);
    }
    var bytes := conn.answers.plan.value;
    var lookup := LookupWarehouseFacts(conn, q.warehouse, q.allowResume);
    var allowed := HistoryAllowed(lookup, q.warehouse, q.allowResume);
    if allowed {
      conn.Execute(QueryHistory);
    }
    var hours := RuntimeFor(conn.answers, bytes, allowed);
    r := Ok(SnowflakeEstimate(bytes, Figure(lookup, q.size.value, q.configured, q.edition.value, hours)));
  }
}
