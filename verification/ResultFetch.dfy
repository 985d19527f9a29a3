/** The paged, early-stopping fetch and the exact trim to the byte cap. */
module ResultFetch {
  import opened Outcomes
  import opened JsonText
  import opened ResultRows
  import opened ResultBounds

  const DEFAULT_MAX_ROWS := 1000
  const MAX_RESULT_BYTES := 8 * 1024 * 1024

  // ----- what a fetch must return

  /** The running estimate: each row's lower bound and the comma that separates it in the list form. */
  function Estimate(rows: seq<Row>): nat {
    if rows == [] then 0 else Estimate(rows[..|rows| - 1]) + ApproxRowSize(rows[|rows| - 1]) + 1
  }

  predicate WithinRowCap(n: nat, maxRows: Option<nat>) { maxRows.Some? ==> n <= maxRows.value }

  /**
   The fetch of `rows` under a row cap: everything when neither cap is reached; else the first
   `maxRows` rows when one more exists, or the shortest prefix whose estimate passes the byte cap.
   */
  predicate Collected(rows: seq<Row>, maxRows: Option<nat>, kept: seq<Row>, stopped: bool) {
    && kept <= rows && WithinRowCap(|kept|, maxRows)
    && if !stopped then kept == rows && Estimate(rows) <= MAX_RESULT_BYTES
       else StoppedOnRows(rows, maxRows, kept) || StoppedOnSize(kept)
  }

  predicate StoppedOnRows(rows: seq<Row>, maxRows: Option<nat>, kept: seq<Row>) {
    maxRows.Some? && |kept| == maxRows.value < |rows| && Estimate(kept) <= MAX_RESULT_BYTES
  }

  predicate StoppedOnSize(kept: seq<Row>) {
    && kept != []
    && Estimate(kept) > MAX_RESULT_BYTES
    && Estimate(kept[..|kept| - 1]) <= MAX_RESULT_BYTES
  }

  lemma {:induction false} EstimateGrows(rows: seq<Row>, k: nat)
    requires k <= |rows|
    ensures Estimate(rows[..k]) <= Estimate(rows)
    decreases |rows|
  {
    if k < |rows| {
      assert rows[..|rows| - 1][..k] == rows[..k];
      EstimateGrows(rows[..|rows| - 1], k);
    } else {
      assert rows[..k] == rows;
    }
  }

  /** The specification leaves no choice. */
  lemma {:induction false} CollectedIsUnique(
    rows: seq<Row>, maxRows: Option<nat>, k1: seq<Row>, s1: bool, k2: seq<Row>, s2: bool)
    requires Collected(rows, maxRows, k1, s1) && Collected(rows, maxRows, k2, s2)
    ensures k1 == k2 && s1 == s2
  {
    if |k1| < |k2| {
      ShorterIsImpossible(rows, maxRows, k1, s1, k2, s2);
    } else if |k2| < |k1| {
      ShorterIsImpossible(rows, maxRows, k2, s2, k1, s1);
    }
    assert k1 == rows[..|k1|] && k2 == rows[..|k2|];
  }

  lemma {:induction false} ShorterIsImpossible(
    rows: seq<Row>, maxRows: Option<nat>, k1: seq<Row>, s1: bool, k2: seq<Row>, s2: bool)
    requires Collected(rows, maxRows, k1, s1) && Collected(rows, maxRows, k2, s2)
    ensures !(|k1| < |k2|)
  {
    if |k1| < |k2| {
      assert k1 == k2[..|k2| - 1][..|k1|];
      EstimateGrows(k2[..|k2| - 1], |k1|);
      EstimateGrows(k2, |k2| - 1);
    }
  }

  /** An upstream LIMIT of one row more than the cap changes neither the rows nor the flag. */
  lemma {:induction false} LimitChangesNothing(rows: seq<Row>, m: nat, kept: seq<Row>, stopped: bool)
    ensures var cut := if |rows| > m + 1 then rows[..m + 1] else rows;
            Collected(cut, Some(m), kept, stopped) <==> Collected(rows, Some(m), kept, stopped)
  {
    if |rows| > m + 1 {
      var cut := rows[..m + 1];
      assert kept <= cut && |kept| <= m ==> kept <= rows;
      assert kept <= rows && |kept| <= m ==> kept == rows[..|kept|] == cut[..|kept|];
    }
  }

  /** The sentinel row ends the fetch and is dropped. */
  lemma {:induction false} StopsOnRows(all: seq<Row>, held: seq<Row>)
    requires |held| < |all| && held == all[..|held|] && Estimate(held) <= MAX_RESULT_BYTES
    ensures Collected(all, Some(|held|), held, true)
  {
  }

  /** The row that pushes the estimate over the cap ends the fetch and is kept. */
  lemma {:induction false} StopsOnSize(all: seq<Row>, held: seq<Row>, row: Row, maxRows: Option<nat>)
    requires held + [row] <= all && WithinRowCap(|held| + 1, maxRows)
    requires Estimate(held) <= MAX_RESULT_BYTES < Estimate(held + [row])
    ensures Collected(all, maxRows, held + [row], true)
  {
    assert (held + [row])[..|held|] == held;
  }

  /** The running estimate, one row further. */
  method AddEstimate(ghost held: seq<Row>, estimate: nat, row: Row) returns (estimate': nat)
    requires estimate == Estimate(held)
    ensures estimate' == Estimate(held + [row])
  {
    assert (held + [row])[..|held|] == held;
    estimate' := estimate + ApproxRowSize(row) + 1;
  }

  /** `all` is the rows already held and then those of the page. */
  ghost predicate Continues(all: seq<Row>, before: seq<Row>, page: seq<Row>) {
    && |all| == |before| + |page| && all[..|before|] == before
    && forall i :: 0 <= i < |page| ==> page[i] == all[|before| + i]
  }

  /** One turn of the consumer's loop: the row cap first, then the running estimate. */
  method TakeRow(held: seq<Row>, estimate: nat, row: Row, maxRows: Option<nat>, ghost all: seq<Row>)
    returns (kept: seq<Row>, estimate': nat, stopped: bool)
    requires held + [row] <= all && WithinRowCap(|held|, maxRows) && estimate == Estimate(held) <= MAX_RESULT_BYTES
    ensures stopped ==> Collected(all, maxRows, kept, true)
    ensures !stopped ==> kept == held + [row] && WithinRowCap(|kept|, maxRows)
    ensures !stopped ==> estimate' == Estimate(kept) <= MAX_RESULT_BYTES
  {
    assert held <= all by {
      assert held == (held + [row])[..|held|];
    }
    kept, estimate' := held + [row], estimate;
    if maxRows.Some? && |kept| > maxRows.value {
      assert kept[..maxRows.value] == held;
      StopsOnRows(all, held);
      return kept[..maxRows.value], estimate', true;
    }
    estimate' := AddEstimate(held, estimate, row);
    stopped := estimate' > MAX_RESULT_BYTES;
    if stopped {
      StopsOnSize(all, held, row, maxRows);
    }
  }

  lemma {:induction false} NextRowContinues(all: seq<Row>, before: seq<Row>, page: seq<Row>, i: nat)
    requires Continues(all, before, page) && i < |page|
    ensures all[..|before| + i] + [page[i]] == all[..|before| + i + 1]
    ensures all[..|before| + i] + [page[i]] <= all
  {
  }

  /** The consumer's loop over `page`, continuing from the rows it already holds. */
  method Consume(before: seq<Row>, estimate: nat, page: seq<Row>, maxRows: Option<nat>, ghost all: seq<Row>)
    returns (kept: seq<Row>, estimate': nat, stopped: bool)
    requires WithinRowCap(|before|, maxRows) && estimate == Estimate(before) <= MAX_RESULT_BYTES
    requires Continues(all, before, page)
    ensures Collected(all, maxRows, kept, stopped)
    ensures !stopped ==> estimate' == Estimate(kept)
  {
    kept, estimate', stopped := before, estimate, false;
    var i := 0;
    while i < |page|
      invariant 0 <= i <= |page| && kept == all[..|before| + i] && WithinRowCap(|kept|, maxRows)
      invariant estimate' == Estimate(kept) <= MAX_RESULT_BYTES && !stopped
    {
      NextRowContinues(all, before, page, i);
      kept, estimate', stopped := TakeRow(kept, estimate', page[i], maxRows, all);
      if stopped {
        return;
      }
      i := i + 1;
    }
    assert all[..|all|] == all;
  }

  /** The fetch over all rows at once. */
  method CollectRows(rows: seq<Row>, maxRows: Option<nat>) returns (kept: seq<Row>, stopped: bool)
    ensures Collected(rows, maxRows, kept, stopped)
  {
    var estimate;
    kept, estimate, stopped := Consume([], 0, rows, maxRows, rows);
  }

  // ----- paging

  datatype Event = Request | BetweenPages(fetched: nat)

  /** The k-th answer of `fetchmany`; an exhausted cursor answers with an empty page. */
  function PageAt(pages: seq<seq<Row>>, k: nat): seq<Row> { if k < |pages| then pages[k] else [] }

  /** The rows of the first `n` pages. */
  function Rows(pages: seq<seq<Row>>, n: nat): seq<Row> {
    if n == 0 then [] else Rows(pages, n - 1) + PageAt(pages, n - 1)
  }

  /** The number of pages before the first empty one. */
  function PagesDelivered(pages: seq<seq<Row>>): (n: nat)
    ensures n <= |pages| && PageAt(pages, n) == []
  {
    if pages == [] || pages[0] == [] then 0
    else
      var n := PagesDelivered(pages[1..]);
      assert PageAt(pages, n + 1) == PageAt(pages[1..], n);
      n + 1
  }

  lemma {:induction false} FirstEmptyPage(pages: seq<seq<Row>>, k: nat)
    requires k <= PagesDelivered(pages) && PageAt(pages, k) == []
    ensures k == PagesDelivered(pages)
  {
    if pages != [] && pages[0] != [] && k > 0 {
      assert PageAt(pages, k) == PageAt(pages[1..], k - 1);
      FirstEmptyPage(pages[1..], k - 1);
    }
  }

  /** Everything a cursor delivers. */
  function Delivered(pages: seq<seq<Row>>): seq<Row> { Rows(pages, PagesDelivered(pages)) }

  lemma {:induction false} RowsGrow(pages: seq<seq<Row>>, m: nat, n: nat)
    requires m <= n
    ensures Rows(pages, m) <= Rows(pages, n)
  {
    if m < n {
      RowsGrow(pages, m, n - 1);
    }
  }

  /**
   The first `n` requests as they must be traced: `between_pages` before a request that follows a
   full page, with the exact running count, and never before the first or after a short page.
   */
  function FetchTrace(pages: seq<seq<Row>>, n: nat, pageSize: nat): seq<Event> {
    if n == 0 then [] else FetchTrace(pages, n - 1, pageSize) + Check(pages, n - 1, pageSize) + [Request]
  }

  predicate FollowsFullPage(pages: seq<seq<Row>>, k: nat, pageSize: nat) {
    k > 0 && |PageAt(pages, k - 1)| >= pageSize
  }

  function Check(pages: seq<seq<Row>>, k: nat, pageSize: nat): seq<Event> {
    if FollowsFullPage(pages, k, pageSize) then [BetweenPages(|Rows(pages, k)|)] else []
  }

  datatype Fetch = Fetched(kept: seq<Row>, stopped: bool) | Late

  /**
   `collect_rows` over `iter_fetchmany`. `late` answers the deadline check before the k-th request.
   Whatever the paging, the result is the fetch of the delivered rows, and the trace is exact.
   */
  method CollectPages(pages: seq<seq<Row>>, pageSize: nat, maxRows: Option<nat>, late: nat -> bool)
    returns (r: Fetch, trace: seq<Event>, requests: nat)
    ensures r.Fetched? ==> Collected(Delivered(pages), maxRows, r.kept, r.stopped)
    ensures r.Fetched? ==> trace == FetchTrace(pages, requests, pageSize)
    ensures r.Late? ==>
              && late(requests) && FollowsFullPage(pages, requests, pageSize)
              && trace == FetchTrace(pages, requests, pageSize) + [BetweenPages(|Rows(pages, requests)|)]
    ensures requests <= PagesDelivered(pages) + 1
  {
    var kept: seq<Row>, estimate := [], 0;
    var fetched: nat, full := 0, false;
    trace, requests := [], 0;
    while true
      invariant requests <= PagesDelivered(pages) && kept == Rows(pages, requests)
      invariant WithinRowCap(|kept|, maxRows) && estimate == Estimate(kept) <= MAX_RESULT_BYTES
      invariant fetched == |kept| && trace == FetchTrace(pages, requests, pageSize)
      invariant full == FollowsFullPage(pages, requests, pageSize)
      decreases PagesDelivered(pages) - requests
    {
      var page;
      page, trace := NextPage(pages, requests, pageSize, fetched, full, trace, late);
      if page == None {
        return Late, trace, requests;
      }
      requests := requests + 1;
      if page.value == [] {
        FirstEmptyPage(pages, requests - 1);
        return Fetched(kept, false), trace, requests;
      }
      assert requests - 1 != PagesDelivered(pages);
      fetched := fetched + |page.value|;
      full := |page.value| >= pageSize;
      var stopped;
      kept, estimate, stopped := ConsumePage(pages, requests - 1, kept, estimate, maxRows);
      if stopped {
        return Fetched(kept, true), trace, requests;
      }
    }
  }

  /** One turn of the generator: the deadline check after a full page, then the request. */
  method NextPage(
    pages: seq<seq<Row>>, k: nat, pageSize: nat, fetched: nat, full: bool, trace: seq<Event>, late: nat -> bool)
    returns (page: Option<seq<Row>>, trace': seq<Event>)
    requires fetched == |Rows(pages, k)| && full == FollowsFullPage(pages, k, pageSize)
    requires trace == FetchTrace(pages, k, pageSize)
    ensures page == None ==> full && late(k) && trace' == trace + [BetweenPages(fetched)]
    ensures page.Some? ==> page.value == PageAt(pages, k) && trace' == FetchTrace(pages, k + 1, pageSize)
  {
    trace' := trace;
    if full {
      trace' := trace' + [BetweenPages(fetched)];
      if late(k) {
        return None, trace';
      }
    }
    page, trace' := Some(PageAt(pages, k)), trace' + [Request];
    assert trace' == trace + Check(pages, k, pageSize) + [Request];
  }

  /** The consumer takes one page: it stops the whole fetch, or holds the rows of the pages so far. */
  method ConsumePage(pages: seq<seq<Row>>, k: nat, before: seq<Row>, estimate: nat, maxRows: Option<nat>)
    returns (kept: seq<Row>, estimate': nat, stopped: bool)
    requires k < PagesDelivered(pages) && before == Rows(pages, k)
    requires WithinRowCap(|before|, maxRows) && estimate == Estimate(before) <= MAX_RESULT_BYTES
    ensures stopped ==> Collected(Delivered(pages), maxRows, kept, true)
    ensures !stopped ==> kept == Rows(pages, k + 1) && WithinRowCap(|kept|, maxRows)
    ensures !stopped ==> estimate' == Estimate(kept) <= MAX_RESULT_BYTES
  {
    kept, estimate', stopped := Consume(before, estimate, PageAt(pages, k), maxRows, Rows(pages, k + 1));
    RowsGrow(pages, k + 1, PagesDelivered(pages));
    PrefixStopsWhole(Rows(pages, k + 1), maxRows, kept, stopped, Delivered(pages));
  }

  /** A fetch that stops within the first pages stops the whole. */
  lemma {:induction false} PrefixStopsWhole(
    upto: seq<Row>, maxRows: Option<nat>, kept: seq<Row>, stopped: bool, rows: seq<Row>)
    requires Collected(upto, maxRows, kept, stopped) && upto <= rows
    ensures stopped ==> Collected(rows, maxRows, kept, true)
  {
  }

  /** The paging of one row sequence is invisible in the result. */
  lemma {:induction false} PagingIsInvisible(
    pages: seq<seq<Row>>, pages': seq<seq<Row>>, maxRows: Option<nat>, r: Fetch, r': Fetch)
    requires Delivered(pages) == Delivered(pages') && r.Fetched? && r'.Fetched?
    requires Collected(Delivered(pages), maxRows, r.kept, r.stopped)
    requires Collected(Delivered(pages'), maxRows, r'.kept, r'.stopped)
    ensures r == r'
  {
    CollectedIsUnique(Delivered(pages), maxRows, r.kept, r.stopped, r'.kept, r'.stopped);
  }

  // ----- the exact trim

  datatype TrimmedRows = TrimmedRows(rows: seq<Json>, totalBytes: nat, keptBytes: nat, droppedRows: nat)

  lemma {:induction false} ItemBytesOfPrefix(rows: seq<Json>, k: nat)
    requires k < |rows|
    ensures ItemBytes(rows[..k + 1]) == ItemBytes(rows[..k]) + JsonBytes(rows[k])
    decreases k
  {
    if k > 0 {
      ItemBytesOfPrefix(rows[1..], k - 1);
      assert rows[..k + 1][1..] == rows[1..][..k] && rows[..k][1..] == rows[1..][..k - 1];
    } else {
      assert rows[..1] == [rows[0]] && rows[..0] == [] && [rows[0]][1..] == [];
    }
  }

  lemma {:induction false} LongerPrefixIsLarger(rows: seq<Json>, j: nat, k: nat)
    requires j <= k <= |rows|
    ensures ItemBytes(rows[..j]) <= ItemBytes(rows[..k])
    decreases k
  {
    if j < k {
      ItemBytesOfPrefix(rows, k - 1);
      LongerPrefixIsLarger(rows, j, k - 1);
    }
  }

  /** The longest prefix of the rows whose compact-JSON list form fits the cap. */
  method TrimRowsToByteCap(rows: seq<Json>, cap: nat) returns (t: TrimmedRows)
    ensures t.rows <= rows && t.droppedRows == |rows| - |t.rows|
    ensures t.totalBytes == JsonBytes(Array(rows)) && t.keptBytes == JsonBytes(Array(t.rows))
    ensures forall k :: |t.rows| < k <= |rows| ==> JsonBytes(Array(rows[..k])) > cap
    ensures cap >= 2 ==> t.keptBytes <= cap && (t.droppedRows > 0 <==> t.totalBytes > cap)
  {
    ArrayBytes(rows);
    var total := MeasureRows(rows);
    total := total + FramingBytes(|rows|);
    if total <= cap {
      assert rows[..|rows|] == rows;
      return TrimmedRows(rows, total, total, 0);
    }
    var kept, payload := 0, 0;
    assert rows[..0] == [];
    while kept < |rows|
      invariant 0 <= kept <= |rows| && payload == ItemBytes(rows[..kept])
      invariant kept > 0 ==> payload + FramingBytes(kept) <= cap
    {
      ItemBytesOfPrefix(rows, kept);
      if payload + JsonBytes(rows[kept]) + FramingBytes(kept + 1) > cap {
        break;
      }
      payload := payload + JsonBytes(rows[kept]);
      kept := kept + 1;
    }
    assert rows[..|rows|] == rows;
    forall k | kept < k <= |rows|
      ensures JsonBytes(Array(rows[..k])) > cap
    {
      ArrayBytes(rows[..k]);
      LongerPrefixIsLarger(rows, kept + 1, k);
    }
    ArrayBytes(rows[..kept]);
    return TrimmedRows(rows[..kept], total, payload + FramingBytes(kept), |rows| - kept);
  }

  method MeasureRows(rows: seq<Json>) returns (total: nat)
    ensures total == ItemBytes(rows)
  {
    total := 0;
    var i := 0;
    assert rows[..0] == [];
    while i < |rows|
      invariant 0 <= i <= |rows| && total == ItemBytes(rows[..i])
    {
      ItemBytesOfPrefix(rows, i);
      total := total + JsonBytes(rows[i]);
      i := i + 1;
    }
    assert rows[..|rows|] == rows;
  }
}
