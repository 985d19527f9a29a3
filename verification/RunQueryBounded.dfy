/**
 The bounded run: gates, caps, dispatch and verdict, in the order of the original. What the warehouse
 answers is an input; what is done to it is the trace.
 */
module RunQueryBounded {
  import opened Outcomes
  import opened SqlScope
  import opened SqlReadings
  import opened SqlPaths
  import opened SqlDispatch
  import opened SqlWrap
  import opened SqlLimit
  import opened SqlTables
  import opened SqlLexer
  import opened SqlKeywords
  import opened JsonText
  import opened ResultRows
  import opened ResultBounds
  import opened ResultFetch
  import opened ResultOvershoot
  import opened JsonReader
  import opened ByteReader
  import opened ResultDecode
  import opened BigQueryCaps

  // ----- requests and answers

  datatype Engine = BigQueryEngine | SnowflakeEngine | DatabricksEngine

  /** A dollar cap as a float: NaN and the infinities are values of the type. */
  datatype Dollars = NotANumber | Infinity | NegativeInfinity | Finite(amount: real)

  datatype Request = Request(
    engine: Engine, sql: string, maxBytesBilled: Option<int>, maxRows: Option<int>, maxCost: Option<Dollars>)

  datatype CostEstimate = CostEstimate(bytes: Option<int>, usd: Option<real>)

  /** What the provider does with the dispatched statement; `all` is the complete result of the caller's own. */
  datatype Answer = Delivers(all: seq<Row>) | RefusesByteCap | Fails

  /** Everything foreign: the character tables, the estimate, a cancellation, the provider's answer. */
  datatype World = World(
    isSpace: char -> bool, isAlnum: char -> bool, estimate: Result<CostEstimate, ()>, cancelled: bool, answer: Answer)
  {
    function DialectOf(e: Engine): Dialect {
      match e
      case BigQueryEngine => BigQuery(isSpace, isAlnum)
      case SnowflakeEngine => Snowflake(isSpace, isAlnum)
      case DatabricksEngine => Databricks(isSpace, isAlnum)
    }

    /** The character tables are disjoint as the lexer needs, and only BigQuery refuses by a byte cap. */
    ghost predicate PossibleFor(q: Request) {
      DialectOf(q.engine).Valid() && (answer == RefusesByteCap ==> q.engine == BigQueryEngine)
    }
  }

  datatype Reason = CostCapExceeded | ByteCapExceeded | RowCapExceeded | ResultSizeExceeded

  datatype BoundedResult = BoundedResult(
    ok: bool, executed: bool, reason: Option<Reason>, rows: Option<seq<Json>>, rowCount: Option<nat>, cappedCells: nat)

  datatype Failure =
    | NotOneStatement | NotARead | NanCostCap | BadMaxRows
    | BadByteCap | EstimateFailed | Cancelled | ProviderFailed

  datatype Outcome = Raised(failure: Failure) | Returned(result: BoundedResult)

  /** `rowMaximum` is the number of rows BigQuery is asked for besides what the text says. */
  datatype Effect =
    | Estimated | CheckedCancellation
    | Dispatched(text: string, byteCap: Option<int>, rowMaximum: Option<nat>)

  /** How each engine's quotes are to be read. */
  function MannerOn(e: Engine, s: string, i: nat, p: string): Manner
    requires i < |s|
  {
    match e
    case BigQueryEngine => BigQueryManner(s, i, p)
    case SnowflakeEngine => SnowflakeManner(s, i, p)
    case DatabricksEngine => DatabricksManner(s, i, p)
  }

  /** Each engine's text is scanned with that engine's table. */
  lemma {:induction false} EachEngineHasItsTable(w: World, e: Engine, s: string, i: nat, p: string)
    requires CharactersFit(w.isSpace, w.isAlnum) && i < |s| && GluedTo(s[..i], p, w.DialectOf(e))
    ensures ReadAs(MannerOn(e, s, i, p), s, i, LiteralEnd(s, i, w.DialectOf(e)))
  {
    match e
    case BigQueryEngine => BigQueryReads(s, i, p, w.isSpace, w.isAlnum);
    case SnowflakeEngine => SnowflakeReads(s, i, p, w.isSpace, w.isAlnum);
    case DatabricksEngine => DatabricksReads(s, i, p, w.isSpace, w.isAlnum);
  }

  // ----- caps

  /** `figure > cap` for a float cap. */
  predicate Exceeds(figure: real, cap: Dollars) {
    match cap
    case NotANumber => false
    case Infinity => false
    case NegativeInfinity => true
    case Finite(amount) => figure > amount
  }

  /** The byte cap attached to the job, and whether it was derived from the dollar cap. */
  function EffectiveByteCap(q: Request): (Option<int>, bool) {
    if q.engine == BigQueryEngine && q.maxCost.Some? && q.maxCost.value.Finite? then
      var derived := CostCapToMaxBytesBilled(q.maxCost.value.amount);
      if q.maxBytesBilled == None || derived <= q.maxBytesBilled.value then (Some(derived), true)
      else (q.maxBytesBilled, false)
    else (q.maxBytesBilled, false)
  }

  /** A finite dollar cap on BigQuery: the one kind a byte cap is derived from. */
  predicate DerivesByteCap(q: Request) { q.engine == BigQueryEngine && q.maxCost.Some? && q.maxCost.value.Finite? }

  /**
   The attached cap is the least of the caller's byte cap and the one the dollars derive, as far as
   they exist; so a caller's cap is only ever lowered. It counts as derived when the dollars set it.
   */
  lemma {:induction false} AttachedCapNeverRises(q: Request)
    ensures var (cap, derived) := EffectiveByteCap(q);
            && (cap.Some? <==> q.maxBytesBilled.Some? || DerivesByteCap(q))
            && (q.maxBytesBilled.Some? ==> cap.value <= q.maxBytesBilled.value)
            && (DerivesByteCap(q) ==> cap.value <= CostCapToMaxBytesBilled(q.maxCost.value.amount))
            && (derived <==> DerivesByteCap(q) && cap == Some(CostCapToMaxBytesBilled(q.maxCost.value.amount)))
            && (!derived ==> cap == q.maxBytesBilled)
  {
  }

  /** The row cap in force: the caller's, or a thousand. */
  function EffectiveMaxRows(q: Request): (m: int)
    ensures m == if q.maxRows.Some? then q.maxRows.value else 1000
  {
    if q.maxRows == None then DEFAULT_MAX_ROWS else q.maxRows.value
  }

  predicate BoundsAreValid(q: Request) {
    q.maxCost != Some(NotANumber) && MaxRowsIsValid(q) && ByteCapIsValid(q)
  }

  /** The wrapper's LIMIT, one more than the cap, must fit a signed 64-bit integer. */
  predicate MaxRowsIsValid(q: Request) { 1 <= EffectiveMaxRows(q) && EffectiveMaxRows(q) + 1 <= 9223372036854775807 }

  predicate ByteCapIsValid(q: Request) {
    q.maxBytesBilled.Some? ==> 1 <= q.maxBytesBilled.value <= 9223372036854775807
  }

  /** The two text gates. */
  predicate IsOneRead(sql: string, d: Dialect)
    requires d.Valid()
  {
    LexerOfIsSane(d);
    IsSingleStatement(sql, d) && CheckEveryStatement(sql, LexerOf(d)).Ok?
  }

  /** The two cap gates on an estimate: a cap with no figure to compare refuses. */
  predicate CapsAdmit(q: Request, e: CostEstimate) {
    CostCapAdmits(q, e) && ByteCapAdmits(q, e)
  }

  /** No dollar cap, or a figure that a finite cap covers; an infinite cap covers every figure or none. */
  predicate CostCapAdmits(q: Request, e: CostEstimate) {
    match q.maxCost
    case None => true
    case Some(Finite(cap)) => e.usd.Some? && e.usd.value <= cap
    case Some(NegativeInfinity) => false
    case Some(_) => e.usd.Some?
  }

  predicate ByteCapAdmits(q: Request, e: CostEstimate) {
    q.maxBytesBilled.Some? ==> e.bytes.Some? && e.bytes.value <= q.maxBytesBilled.value
  }

  /** Everything that must hold before a billable statement is dispatched. */
  ghost predicate Admitted(q: Request, w: World)
    requires w.PossibleFor(q)
  {
    && IsOneRead(q.sql, w.DialectOf(q.engine)) && BoundsAreValid(q)
    && w.estimate.Ok? && CapsAdmit(q, w.estimate.value)
  }

  /** The text handed to the provider, wrapped or not. */
  function TextOf(sql: string, wrapped: bool, limit: nat, d: Dialect): string
    requires d.Valid()
  {
    if wrapped then WrapInLimit(SingleStatementBody(sql, d), limit) else sql
  }

  function DispatchText(q: Request, d: Dialect): string
    requires d.Valid() && 1 <= EffectiveMaxRows(q)
  {
    TextOf(q.sql, IsSingleQueryStatement(q.sql, d), EffectiveMaxRows(q) + 1, d)
  }

  /**
   What may be sent, read from the text alone: a query as a derived table under a LIMIT of one row more
   than the row cap, every other statement as the caller wrote it.
   */
  ghost predicate SentAs(text: string, sql: string, wrapped: bool, limit: nat, d: Dialect)
    requires d.Valid()
  {
    if wrapped then Encloses(text, SingleStatementBody(sql, d), limit) && LimitOf(text) == Some(limit)
    else text == sql
  }

  lemma {:induction false} TextReads(sql: string, wrapped: bool, limit: nat, d: Dialect)
    requires d.Valid()
    ensures SentAs(TextOf(sql, wrapped, limit, d), sql, wrapped, limit, d)
  {
    if wrapped {
      WrapperReads(SingleStatementBody(sql, d), limit);
    }
  }

  /** The request's own row cap and the wrap rule decide which. */
  ghost predicate SentRightly(q: Request, d: Dialect, text: string)
    requires d.Valid() && 1 <= EffectiveMaxRows(q)
  {
    SentAs(text, q.sql, IsSingleQueryStatement(q.sql, d), EffectiveMaxRows(q) + 1, d)
  }

  lemma {:induction false} DispatchTextReads(q: Request, d: Dialect)
    requires d.Valid() && 1 <= EffectiveMaxRows(q)
    ensures SentRightly(q, d, DispatchText(q, d))
    ensures DispatchText(q, d) != q.sql ==> LimitOf(DispatchText(q, d)) == Some(EffectiveMaxRows(q) + 1)
  {
    TextReads(q.sql, IsSingleQueryStatement(q.sql, d), EffectiveMaxRows(q) + 1, d);
  }

  /**
   Gate to provider: whatever is dispatched is exactly one statement by the scanner that admitted
   the caller's text, wrapped or not.
   */
  lemma {:induction false} DispatchedTextIsOneStatement(q: Request, d: Dialect)
    requires d.Valid() && IsSingleStatement(q.sql, d) && 1 <= EffectiveMaxRows(q)
    ensures IsSingleStatement(DispatchText(q, d), d)
  {
    TextIsOneStatement(q.sql, IsSingleQueryStatement(q.sql, d), EffectiveMaxRows(q) + 1, d);
  }

  lemma {:induction false} TextIsOneStatement(sql: string, wrapped: bool, limit: nat, d: Dialect)
    requires d.Valid() && IsSingleStatement(sql, d)
    ensures IsSingleStatement(TextOf(sql, wrapped, limit, d), d)
  {
    if wrapped {
      WrappedIsOneStatement(sql, limit, d);
    }
  }

  /** To this lexer the text has no top-level `;` but the one the caller's own text ends in, before trivia alone. */
  ghost predicate ReadsAsOne(text: string, sql: string, d: Dialect, r: Reading)
    requires d.Valid()
  {
    && ReadSemicolons(text, 0, d, r).Some?
    && var semis := ReadSemicolons(text, 0, d, r).value;
       || semis == []
       || (text == sql && |semis| == 1 && semis[0] < |text| && text[semis[0]] == ';' &&
           OnlyTrivia(text, semis[0] + 1, d))
  }

  /** And it is one statement to every plausible lexer. */
  lemma {:induction false} DispatchedTextHasOneReading(q: Request, d: Dialect, r: Reading)
    requires d.Valid() && Plausible(r, d) && IsSingleStatement(q.sql, d) && 1 <= EffectiveMaxRows(q)
    requires r.nests ==> NoSlashClose(q.sql, 0, d)
    ensures ReadsAsOne(DispatchText(q, d), q.sql, d, r)
  {
    TextHasOneReading(q.sql, IsSingleQueryStatement(q.sql, d), EffectiveMaxRows(q) + 1, d, r);
  }

  lemma {:induction false} TextHasOneReading(sql: string, wrapped: bool, limit: nat, d: Dialect, r: Reading)
    requires d.Valid() && Plausible(r, d) && IsSingleStatement(sql, d) && (r.nests ==> NoSlashClose(sql, 0, d))
    ensures ReadsAsOne(TextOf(sql, wrapped, limit, d), sql, d, r)
  {
    if wrapped {
      WrappedTextHasNoSemicolon(sql, limit, d, r);
    } else {
      AcceptedTextHasOneReading(sql, d, r);
    }
  }

  lemma {:induction false} WrappedIsOneStatement(s: string, limit: nat, d: Dialect)
    requires d.Valid() && IsSingleStatement(s, d)
    ensures IsSingleStatement(WrapInLimit(SingleStatementBody(s, d), limit), d)
  {
    var b := SingleStatementBody(s, d);
    WrapperScansWhole(s, limit, d);
    WrapperLayout(b, limit);
  }

  function CutAt(rows: seq<Row>, limit: Option<nat>): seq<Row> {
    if limit.Some? && |rows| > limit.value then rows[..limit.value] else rows
  }

  /**
   The rows the provider lets the fetch see when `text` was sent for `sql` and `all` is the complete
   result of `sql`: cut by the LIMIT the text itself ends in, unless it is the caller's own text, and by
   the number of rows asked for.
   */
  function VisibleRows(sql: string, text: string, rowMaximum: Option<nat>, all: seq<Row>): seq<Row> {
    CutAt(if text == sql then all else CutAt(all, LimitOf(text)), rowMaximum)
  }

  // ----- verdicts

  /** Compact size of the rows as a list: what the caller would receive. */
  function SentBytes(rows: seq<Row>): nat { JsonBytes(Array(NormaliseRows(rows))) }

  /** The fetch's running estimate never passes the exact size. */
  lemma {:induction false} EstimateBelowExact(rows: seq<Row>)
    requires RowsStayDistinct(rows)
    ensures Estimate(rows) <= SentBytes(rows)
  {
    ArrayBytes(NormaliseRows(rows));
    EstimateBelowItems(rows);
  }

  lemma {:induction false} EstimateBelowItems(rows: seq<Row>)
    requires RowsStayDistinct(rows)
    ensures Estimate(rows) <= ItemBytes(NormaliseRows(rows)) + |rows|
    decreases |rows|
  {
    if rows != [] {
      var n := |rows| - 1;
      EstimateBelowItems(rows[..n]);
      RowEstimateIsLowerBound(rows[n]);
      ItemsOfLast(rows);
    }
  }

  ghost predicate AllowsRows(rows: seq<Row>, data: Data) {
    data.Sound() && forall k :: 0 <= k < |rows| ==> data.AllowsRow(rows[k])
  }

  /**
   And the exact size never passes a fixed multiple of the running estimate: 6 while nothing is cut
   and no text holds a lone surrogate, 7 while nothing is cut, else 16.
   */
  lemma {:induction false} ExactBelowMultiple(rows: seq<Row>)
    ensures SentBytes(rows) <= 16 * Estimate(rows) + 2
    ensures (forall k :: 0 <= k < |rows| ==> CappedInRow(rows[k]) == 0) ==> SentBytes(rows) <= 7 * Estimate(rows) + 2
    ensures (forall k :: 0 <= k < |rows| ==> IsOfKind(rows[k], NotSurrogate, false)) ==>
              SentBytes(rows) <= 6 * Estimate(rows) + 2
  {
    ArrayBytes(NormaliseRows(rows));
    ItemsBelowMultiple(rows, Anything);
    if forall k :: 0 <= k < |rows| ==> CappedInRow(rows[k]) == 0 {
      ItemsBelowMultiple(rows, Uncut);
    }
    if forall k :: 0 <= k < |rows| ==> IsOfKind(rows[k], NotSurrogate, false) {
      ItemsBelowMultiple(rows, Clean(NotSurrogate));
    }
  }

  lemma {:induction false} ItemsBelowMultiple(rows: seq<Row>, data: Data)
    requires AllowsRows(rows, data)
    ensures Within(data, ItemBytes(NormaliseRows(rows)) + |rows|, Estimate(rows))
    decreases |rows|
  {
    if rows != [] {
      var n := |rows| - 1;
      ItemsBelowMultiple(rows[..n], data);
      RowOvershootBy(rows[n], data);
      ItemsOfLast(rows);
      LastRowWithin(
        data, ItemBytes(NormaliseRows(rows[..n])) + n, Estimate(rows[..n]),
        JsonBytes(NormaliseRow(rows[n])), ApproxRowSize(rows[n]));
    }
  }

  /** One row more, with its comma. */
  lemma {:induction false} LastRowWithin(data: Data, bytes: nat, approx: nat, last: nat, approxLast: nat)
    requires Within(data, bytes, approx) && Within(data, last, approxLast)
    ensures Within(data, bytes + last + 1, approx + approxLast + 1)
  {
  }

  /** The last row on top of the others. */
  lemma {:induction false} ItemsOfLast(rows: seq<Row>)
    requires rows != []
    ensures var n := |rows| - 1;
            ItemBytes(NormaliseRows(rows)) == ItemBytes(NormaliseRows(rows[..n])) + JsonBytes(NormaliseRow(rows[n]))
  {
    var n := |rows| - 1;
    NormaliseRowsSplits(rows, n);
    NormaliseRowsAt(rows, n);
    ItemBytesOfPrefix(NormaliseRows(rows), n);
    assert NormaliseRows(rows)[..n + 1] == NormaliseRows(rows);
  }

  lemma {:induction false} NormaliseRowsAt(rows: seq<Row>, k: nat)
    requires k < |rows|
    ensures NormaliseRows(rows)[k] == NormaliseRow(rows[k])
  {
    if k > 0 {
      NormaliseRowsAt(rows[1..], k - 1);
    }
  }

  /** Normalising keeps rows in place. */
  lemma {:induction false} NormaliseRowsSplits(rows: seq<Row>, n: nat)
    requires n <= |rows|
    ensures NormaliseRows(rows)[..n] == NormaliseRows(rows[..n])
  {
    var front := rows[..n];
    forall k | 0 <= k < n
      ensures NormaliseRows(rows)[k] == NormaliseRows(front)[k]
    {
      NormaliseRowsAt(rows, k);
      NormaliseRowsAt(front, k);
    }
  }

  /** From the fetched rows to the verdict: normalise, measure, then size before row cap. */
  method Conclude(kept: seq<Row>, stopped: bool) returns (r: BoundedResult)
    ensures r.executed && r.rows.Some? && r.rowCount == Some(|r.rows.value|) && r.cappedCells == CappedCells(kept)
    ensures r.reason == Some(ResultSizeExceeded) <==> SentBytes(kept) > MAX_RESULT_BYTES
    ensures r.reason == Some(RowCapExceeded) <==> stopped && SentBytes(kept) <= MAX_RESULT_BYTES
    ensures r.ok <==> !stopped && SentBytes(kept) <= MAX_RESULT_BYTES
    ensures r.ok <==> r.reason == None
    ensures r.reason != Some(ResultSizeExceeded) ==> r.rows.value == NormaliseRows(kept)
    ensures r.reason == Some(ResultSizeExceeded) ==>
              && r.rows.value < NormaliseRows(kept) && JsonBytes(Array(r.rows.value)) <= MAX_RESULT_BYTES
              && forall k :: |r.rows.value| < k <= |kept| ==> SentBytes(kept[..k]) > MAX_RESULT_BYTES
  {
    var rows, capped := NormaliseAllRows(kept);
    var trimmed := TrimRowsToByteCap(rows, MAX_RESULT_BYTES);
    if trimmed.totalBytes > MAX_RESULT_BYTES {
      forall k | |trimmed.rows| < k <= |kept|
        ensures SentBytes(kept[..k]) > MAX_RESULT_BYTES
      {
        NormaliseRowsSplits(kept, k);
      }
      return BoundedResult(false, true, Some(ResultSizeExceeded), Some(trimmed.rows), Some(|trimmed.rows|), capped);
    }
    if stopped {
      return BoundedResult(false, true, Some(RowCapExceeded), Some(rows), Some(|rows|), capped);
    }
    return BoundedResult(true, true, None, Some(rows), Some(|rows|), capped);
  }

  /** What a verdict on a delivered result claims, in terms of the complete result of the caller's statement. */
  ghost predicate Honest(all: seq<Row>, m: nat, r: BoundedResult) {
    && r.executed && r.rows.Some? && r.rowCount == Some(|r.rows.value|)
    // ok is never a truncated result
    && (r.ok ==> r.rows.value == NormaliseRows(all) && |all| <= m && SentBytes(all) <= 8_388_608)
    && (r.ok ==> r.cappedCells == CappedCells(all))
    && (r.ok <==> r.reason == None)
    // whatever is returned is a prefix of the complete normalised result
    && r.rows.value <= NormaliseRows(all) && |r.rows.value| <= m
    && JsonBytes(Array(r.rows.value)) <= 8_388_608
  }

  /** The rows the row cap lets through. */
  function Capped(all: seq<Row>, m: nat): seq<Row> { if |all| > m then all[..m] else all }

  /** What it claims besides when no two keys of one mapping collide after stringification. */
  ghost predicate Sharp(all: seq<Row>, m: nat, r: BoundedResult) {
    var fits := SentBytes(Capped(all, m)) <= 8_388_608;
    && r.rows.Some?
    && (r.ok <==> |all| <= m && fits)
    && (r.reason == Some(RowCapExceeded) <==> |all| > m && fits)
    && (r.reason == Some(ResultSizeExceeded) <==> !fits)
    && (fits ==> r.rows.value == NormaliseRows(Capped(all, m)) && r.rowCount == Some(|Capped(all, m)|))
    && (fits ==> r.cappedCells == CappedCells(Capped(all, m)))
  }

  lemma {:induction false} SentBytesGrow(rows: seq<Row>, k: nat)
    requires k <= |rows|
    ensures SentBytes(rows[..k]) <= SentBytes(rows)
  {
    NormaliseRowsSplits(rows, k);
    ArrayBytes(NormaliseRows(rows));
    ArrayBytes(NormaliseRows(rows[..k]));
    LongerPrefixIsLarger(NormaliseRows(rows), k, |rows|);
    assert NormaliseRows(rows)[..|rows|] == NormaliseRows(rows);
  }

  lemma {:induction false} PrefixStaysDistinct(rows: seq<Row>, k: nat)
    requires k <= |rows| && RowsStayDistinct(rows)
    ensures RowsStayDistinct(rows[..k])
  {
  }

  /** A fetch that stopped on its estimate ends in the size verdict. */
  lemma {:induction false} SizeStopIsSizeVerdict(kept: seq<Row>)
    requires RowsStayDistinct(kept) && Estimate(kept) > MAX_RESULT_BYTES
    ensures SentBytes(kept) > MAX_RESULT_BYTES
  {
    EstimateBelowExact(kept);
  }

  lemma {:induction false} VerdictIsHonest(all: seq<Row>, m: nat, kept: seq<Row>, stopped: bool, r: BoundedResult)
    requires Collected(all, Some(m), kept, stopped)
    requires r.executed && r.rows.Some? && r.rowCount == Some(|r.rows.value|) && (r.ok <==> r.reason == None)
    requires r.cappedCells == CappedCells(kept)
    requires r.ok <==> !stopped && SentBytes(kept) <= MAX_RESULT_BYTES
    requires r.reason == Some(ResultSizeExceeded) <==> SentBytes(kept) > MAX_RESULT_BYTES
    requires r.reason != Some(ResultSizeExceeded) ==> r.rows.value == NormaliseRows(kept)
    requires r.reason == Some(ResultSizeExceeded) ==>
               r.rows.value < NormaliseRows(kept) && JsonBytes(Array(r.rows.value)) <= MAX_RESULT_BYTES
    ensures Honest(all, m, r)
  {
    NormaliseRowsSplits(all, |kept|);
    assert kept == all[..|kept|];
  }

  /**
   What a delivered result is to its receiver: whatever the verdict, its text is at most 8 MiB and reads as
   the first rows of the complete result of the caller's statement, and under `ok` as all of them.
   */
  lemma {:induction false} ResultMeansItsRows(all: seq<Row>, m: nat, r: BoundedResult)
    requires Honest(all, m, r) && forall k :: 0 <= k < |all| ==> RowPrints(all[k])
    ensures var text := Render(Array(r.rows.value));
            && |Encode(text)| <= 8_388_608
            && ReadValue(text).Some? && ReadValue(text).value.1 == [] && ReadValue(text).value.0.ListValue?
            && var values := ReadValue(text).value.0.items;
               && Some(|values|) == r.rowCount && |values| <= |all| && (r.ok ==> |values| == |all|)
               && forall k :: 0 <= k < |values| ==> MeansRow(values[k], all[k])
  {
    var n := |r.rows.value|;
    NormaliseRowsSplits(all, n);
    assert r.rows.value == NormaliseRows(all)[..n];
    SentRowsMeanTheRows(all[..n]);
    BytesRead(Render(Array(r.rows.value)));
  }

  /** However the fetch ended, its rows decide the size verdict as the capped rows would. */
  lemma {:induction false} FetchDecides(all: seq<Row>, m: nat, kept: seq<Row>, stopped: bool)
    requires Collected(all, Some(m), kept, stopped) && RowsStayDistinct(all)
    ensures SentBytes(kept) <= MAX_RESULT_BYTES <==> SentBytes(Capped(all, m)) <= MAX_RESULT_BYTES
    ensures SentBytes(kept) <= MAX_RESULT_BYTES ==> kept == Capped(all, m) && (stopped <==> |all| > m)
  {
    if stopped && StoppedOnSize(kept) {
      var seen := Capped(all, m);
      assert kept == all[..|kept|] == seen[..|kept|];
      PrefixStaysDistinct(all, |seen|);
      SizeStop(seen, |kept|);
    } else {
      assert kept == Capped(all, m);
    }
  }

  lemma {:induction false} SizeStop(rows: seq<Row>, k: nat)
    requires k <= |rows| && Estimate(rows[..k]) > MAX_RESULT_BYTES && RowsStayDistinct(rows)
    ensures SentBytes(rows[..k]) > MAX_RESULT_BYTES && SentBytes(rows) > MAX_RESULT_BYTES
  {
    PrefixStaysDistinct(rows, k);
    SizeStopIsSizeVerdict(rows[..k]);
    SentBytesGrow(rows, k);
  }

  lemma {:induction false} VerdictIsSharp(all: seq<Row>, m: nat, kept: seq<Row>, stopped: bool, r: BoundedResult)
    requires Collected(all, Some(m), kept, stopped) && RowsStayDistinct(all)
    requires r.executed && r.rows.Some? && r.rowCount == Some(|r.rows.value|) && r.cappedCells == CappedCells(kept)
    requires r.ok <==> !stopped && SentBytes(kept) <= MAX_RESULT_BYTES
    requires r.reason == Some(ResultSizeExceeded) <==> SentBytes(kept) > MAX_RESULT_BYTES
    requires r.reason == Some(RowCapExceeded) <==> stopped && SentBytes(kept) <= MAX_RESULT_BYTES
    requires r.reason != Some(ResultSizeExceeded) ==> r.rows.value == NormaliseRows(kept)
    ensures Sharp(all, m, r)
  {
    FetchDecides(all, m, kept, stopped);
  }

  // ----- the run

  /** Which failure a request that never reaches the warehouse raises. */
  predicate FailsFirst(q: Request, d: Dialect, f: Failure)
    requires d.Valid()
  {
    match f
    case NotOneStatement => !IsSingleStatement(q.sql, d)
    case NotARead => IsSingleStatement(q.sql, d) && !IsOneRead(q.sql, d)
    case NanCostCap => IsOneRead(q.sql, d) && q.maxCost == Some(NotANumber)
    case BadMaxRows => IsOneRead(q.sql, d) && q.maxCost != Some(NotANumber) && !MaxRowsIsValid(q)
    case BadByteCap =>
      IsOneRead(q.sql, d) && q.maxCost != Some(NotANumber) && MaxRowsIsValid(q) && !ByteCapIsValid(q)
    case _ => false
  }

  /** The checks that need no warehouse, in their order; None when all pass. */
  method CheckRequest(q: Request, d: Dialect) returns (f: Option<Failure>)
    requires d.Valid()
    ensures f == None <==> IsOneRead(q.sql, d) && BoundsAreValid(q)
    ensures f.Some? ==> FailsFirst(q, d, f.value)
  {
    LexerOfIsSane(d);
    var end := Scan(q.sql, d);
    if end.Refused? || end.value == 0 {
      return Some(NotOneStatement);
    }
    var read := CheckEveryStatement(q.sql, LexerOf(d));
    if read.Refused? {
      return Some(NotARead);
    }
    if q.maxCost == Some(NotANumber) {
      return Some(NanCostCap);
    }
    var maxRows := if q.maxRows == None then DEFAULT_MAX_ROWS else q.maxRows.value;
    if !(1 <= maxRows <= INT64_MAX - 1) {
      return Some(BadMaxRows);
    }
    if q.maxBytesBilled.Some? && !(1 <= q.maxBytesBilled.value <= INT64_MAX) {
      return Some(BadByteCap);
    }
    return None;
  }

  /** The two cap gates on the estimate, the dollar cap first: a figure above its cap refuses, and so does none. */
  method CheckCaps(q: Request, e: CostEstimate) returns (reason: Option<Reason>)
    ensures reason == if !CostCapAdmits(q, e) then Some(CostCapExceeded)
                      else if !ByteCapAdmits(q, e) then Some(ByteCapExceeded) else None
    ensures reason == Some(CostCapExceeded) <==>
              && q.maxCost.Some?
              && (e.usd == None || q.maxCost.value.NegativeInfinity?
                  || (q.maxCost.value.Finite? && q.maxCost.value.amount < e.usd.value))
    ensures reason == Some(ByteCapExceeded) ==>
              q.maxBytesBilled.Some? && (e.bytes == None || q.maxBytesBilled.value < e.bytes.value)
  {
    if q.maxCost.Some? && (e.usd == None || Exceeds(e.usd.value, q.maxCost.value)) {
      return Some(CostCapExceeded);
    }
    if q.maxBytesBilled.Some? && (e.bytes == None || e.bytes.value > q.maxBytesBilled.value) {
      return Some(ByteCapExceeded);
    }
    return None;
  }

  /**
   The text by the wrap rule and the row cap; and with it, for BigQuery alone, the least byte cap and a
   number of rows one more than the row cap.
   */
  ghost predicate DispatchedRightly(q: Request, d: Dialect, sent: Effect)
    requires d.Valid() && 1 <= EffectiveMaxRows(q)
  {
    && sent.Dispatched? && SentRightly(q, d, sent.text)
    && if q.engine == BigQueryEngine then
         sent.byteCap == EffectiveByteCap(q).0 && sent.rowMaximum == Some(EffectiveMaxRows(q) + 1)
       else sent.byteCap == None && sent.rowMaximum == None
  }

  /**
   Everything before the dispatch: request checks, estimate, caps and the last cancellation point. `stop` is
   the outcome of a run that ends there.
   */
  method Preflight(q: Request, w: World) returns (stop: Option<Outcome>, trace: seq<Effect>)
    requires w.PossibleFor(q)
    ensures stop == None <==> Admitted(q, w) && !w.cancelled
    ensures stop == None ==> trace == [Estimated, CheckedCancellation]
    ensures trace <= [Estimated, CheckedCancellation]
    ensures trace == [] <==> !IsOneRead(q.sql, w.DialectOf(q.engine)) || !BoundsAreValid(q)
    ensures trace == [] ==> stop.Some? && stop.value.Raised? && FailsFirst(q, w.DialectOf(q.engine), stop.value.failure)
    ensures |trace| == 1 && w.estimate.Refused? ==> stop == Some(Raised(EstimateFailed))
    ensures |trace| == 1 && w.estimate.Ok? ==>
              stop == Some(Returned(
                NotExecuted(if CostCapAdmits(q, w.estimate.value) then ByteCapExceeded else CostCapExceeded)))
    ensures |trace| == 2 && stop.Some? <==> stop == Some(Raised(Cancelled))
  {
    trace := [];
    var failure := CheckRequest(q, w.DialectOf(q.engine));
    if failure.Some? {
      return Some(Raised(failure.value)), trace;
    }
    trace := trace + [Estimated];
    if w.estimate.Refused? {
      return Some(Raised(EstimateFailed)), trace;
    }
    var reason := CheckCaps(q, w.estimate.value);
    if reason.Some? {
      return Some(Returned(NotExecuted(reason.value))), trace;
    }
    trace := trace + [CheckedCancellation];
    if w.cancelled {
      return Some(Raised(Cancelled)), trace;
    }
    stop := None;
  }

  /**
   One bounded run. The statement is dispatched exactly when every gate admits it and no
   cancellation arrived, always last, always with the caps above; the first gate that does not
   admit it names the failure; a delivered result gets an honest verdict, and `executed` says
   whether the provider ran the statement.
   */
  method Run(q: Request, w: World) returns (o: Outcome, trace: seq<Effect>)
    requires w.PossibleFor(q)
    ensures |trace| == 3 <==> Admitted(q, w) && !w.cancelled
    ensures |trace| == 3 ==> trace == [Estimated, CheckedCancellation, SentFor(q, w.DialectOf(q.engine))]
    ensures |trace| == 3 ==> DispatchedRightly(q, w.DialectOf(q.engine), trace[2])
    ensures |trace| == 3 && q.maxCost.Some? && q.maxCost.value.Finite? ==>
              w.estimate.value.usd.Some? && w.estimate.value.usd.value <= q.maxCost.value.amount
    ensures |trace| == 3 && q.maxBytesBilled.Some? ==>
              w.estimate.value.bytes.Some? && w.estimate.value.bytes.value <= q.maxBytesBilled.value
    ensures |trace| < 3 ==> trace <= [Estimated, CheckedCancellation]
    ensures trace == [] <==> !IsOneRead(q.sql, w.DialectOf(q.engine)) || !BoundsAreValid(q)
    ensures trace == [] ==> o.Raised?
    ensures trace == [] ==> FailsFirst(q, w.DialectOf(q.engine), o.failure)
    ensures |trace| == 1 && w.estimate.Refused? ==> o == Raised(EstimateFailed)
    ensures |trace| == 1 && w.estimate.Ok? ==>
              o == Returned(
                NotExecuted(if CostCapAdmits(q, w.estimate.value) then ByteCapExceeded else CostCapExceeded))
    ensures |trace| == 2 <==> o == Raised(Cancelled)
    ensures o.Returned? ==> (o.result.executed <==> |trace| == 3 && w.answer.Delivers?)
    ensures o.Returned? && !o.result.executed ==>
              o.result.reason.Some? && o.result == BoundedResult(false, false, o.result.reason, None, None, 0)
    ensures |trace| == 3 && w.answer.Fails? ==> o == Raised(ProviderFailed)
    ensures |trace| == 3 && w.answer.Delivers? ==> o.Returned? && Honest(w.answer.all, EffectiveMaxRows(q), o.result)
    ensures |trace| == 3 && w.answer.Delivers? && RowsStayDistinct(w.answer.all) ==>
              Sharp(w.answer.all, EffectiveMaxRows(q), o.result)
    ensures |trace| == 3 && w.answer == RefusesByteCap ==>
              o == if AttachedCap(q) == None then Raised(ProviderFailed)
                   else Returned(NotExecuted(if EffectiveByteCap(q).1 then CostCapExceeded else ByteCapExceeded))
  {
    var d := w.DialectOf(q.engine);
    var stop;
    stop, trace := Preflight(q, w);
    if stop.Some? {
      return stop.value, trace;
    }
    var text := DispatchText(q, d);
    SentForIsRight(q, d, text);
    trace := trace + [SentFor(q, d)];
    o := Answered(q, d, text, w.answer);
  }

  /**
   Dollar gate and byte cap together: what the gates admit of `b` processed bytes on BigQuery bills at
   most one MiB more than the cap attached to the job, or the provider's minimum of ten.
   */
  lemma {:induction false} AdmittedBillStaysNearCap(q: Request, b: int)
    requires q.engine == BigQueryEngine && 0 <= b <= MAX_ROUNDABLE
    requires CapsAdmit(q, CostEstimate(Some(b), Some(DryRunFigure(b)))) && AttachedCap(q).Some?
    ensures BilledBytes(b) <= AttachedCap(q).value + 1_048_576 || BilledBytes(b) == 10_485_760
  {
    if EffectiveByteCap(q).1 {
      FigureIsNotNegative(b);
      RoundedGateOvershoot(b, q.maxCost.value.amount);
    }
  }

  lemma FigureIsNotNegative(b: int)
    requires 0 <= b
    ensures 0.0 <= DryRunFigure(b)
  {
    Round6Law(0.0, Price(b));
  }

  /** From the provider's answer to the outcome. */
  method Answered(q: Request, d: Dialect, text: string, answer: Answer) returns (o: Outcome)
    requires d.Valid() && MaxRowsIsValid(q) && (answer == RefusesByteCap ==> q.engine == BigQueryEngine)
    requires text != q.sql ==> LimitOf(text) == Some(EffectiveMaxRows(q) + 1)
    ensures o.Returned? ==> (o.result.executed <==> answer.Delivers?)
    ensures o.Returned? && !o.result.executed ==>
              o.result.reason.Some? && o.result == BoundedResult(false, false, o.result.reason, None, None, 0)
    ensures o != Raised(Cancelled)
    ensures answer.Fails? ==> o == Raised(ProviderFailed)
    ensures answer.Delivers? ==> o.Returned? && Honest(answer.all, EffectiveMaxRows(q), o.result)
    ensures answer.Delivers? && RowsStayDistinct(answer.all) ==> Sharp(answer.all, EffectiveMaxRows(q), o.result)
    ensures answer == RefusesByteCap ==>
              o == if AttachedCap(q) == None then Raised(ProviderFailed)
                   else Returned(NotExecuted(if EffectiveByteCap(q).1 then CostCapExceeded else ByteCapExceeded))
  {
    var (byteCap, derived) := EffectiveByteCap(q);
    match answer
    case Fails =>
      o := Raised(ProviderFailed);
    case RefusesByteCap =>
      o := if byteCap == None then Raised(ProviderFailed)
           else Returned(NotExecuted(if derived then CostCapExceeded else ByteCapExceeded));
    case Delivers(all) =>
      var r := FetchAndConclude(q.sql, text, RowMaximum(q), all, EffectiveMaxRows(q));
      o := Returned(r);
  }

  /** BigQuery alone takes a byte cap with the job. */
  function AttachedCap(q: Request): Option<int> {
    if q.engine == BigQueryEngine then EffectiveByteCap(q).0 else None
  }

  /** BigQuery alone is asked for a number of rows besides. */
  function RowMaximum(q: Request): Option<nat>
    requires 1 <= EffectiveMaxRows(q)
  {
    if q.engine == BigQueryEngine then Some(EffectiveMaxRows(q) + 1) else None
  }

  /** The dispatch of a request that passed every gate. */
  function SentFor(q: Request, d: Dialect): Effect
    requires d.Valid() && 1 <= EffectiveMaxRows(q)
  {
    Dispatched(DispatchText(q, d), AttachedCap(q), RowMaximum(q))
  }

  lemma {:induction false} SentForIsRight(q: Request, d: Dialect, text: string)
    requires d.Valid() && 1 <= EffectiveMaxRows(q) && text == DispatchText(q, d)
    ensures DispatchedRightly(q, d, SentFor(q, d))
    ensures text != q.sql ==> LimitOf(text) == Some(EffectiveMaxRows(q) + 1)
  {
    DispatchTextReads(q, d);
  }

  function NotExecuted(reason: Reason): BoundedResult {
    BoundedResult(false, false, Some(reason), None, None, 0)
  }

  /** From the rows the provider lets the fetch see to the verdict on the complete result. */
  method FetchAndConclude(sql: string, text: string, rowMaximum: Option<nat>, all: seq<Row>, maxRows: nat)
    returns (r: BoundedResult)
    requires text != sql ==> LimitOf(text) == Some(maxRows + 1)
    requires rowMaximum.Some? ==> rowMaximum.value == maxRows + 1
    ensures Honest(all, maxRows, r)
    ensures RowsStayDistinct(all) ==> Sharp(all, maxRows, r)
  {
    var kept, stopped := CollectRows(VisibleRows(sql, text, rowMaximum, all), Some(maxRows));
    LimitChangesNothing(all, maxRows, kept, stopped);
    r := Conclude(kept, stopped);
    VerdictIsHonest(all, maxRows, kept, stopped, r);
    if RowsStayDistinct(all) {
      VerdictIsSharp(all, maxRows, kept, stopped, r);
    }
  }
}
