/**
 What a Snowflake figure is made of, read from the answers: the runs that are averaged, the credits an
 hour, the dollars a credit, and the name the warehouse is looked up under.
 */
module SnowflakeFigures {
  import opened Outcomes
  import opened SqlWords
  import opened BigQueryCaps
  import opened SnowflakePricing
  import opened SnowflakeGuard

  // ----- hours

  /** A run that counts: the same text, a time, and bytes that were really read. */
  predicate Counts(r: HistoryRow) {
    r.sameText && r.elapsedMs.Some? && r.bytesScanned.Some? && r.bytesScanned.value > 0.0
  }

  /** The positions of the runs that count, in order. */
  ghost predicate ArePositions(rows: seq<HistoryRow>, ks: seq<nat>) {
    && (forall i, j :: 0 <= i < j < |ks| ==> ks[i] < ks[j])
    && (forall i :: 0 <= i < |ks| ==> ks[i] < |rows| && Counts(rows[ks[i]]))
    && (forall k :: 0 <= k < |rows| && Counts(rows[k]) ==> k in ks)
  }

  /** The times of the runs at these positions, added up. */
  function TotalMs(rows: seq<HistoryRow>, ks: seq<nat>): real
    requires forall i :: 0 <= i < |ks| ==> ks[i] < |rows| && rows[ks[i]].elapsedMs.Some?
  {
    if ks == [] then 0.0 else TotalMs(rows, ks[..|ks| - 1]) + rows[ks[|ks| - 1]].elapsedMs.value
  }

  lemma {:induction false} SumOfLast(xs: seq<real>)
    requires xs != []
    ensures Sum(xs) == Sum(xs[..|xs| - 1]) + xs[|xs| - 1]
  {
    if |xs| > 1 {
      SumOfLast(xs[1..]);
      assert xs[1..][..|xs| - 2] == xs[..|xs| - 1][1..];
    }
  }

  lemma {:induction false} TotalIsSum(rows: seq<HistoryRow>, ks: seq<nat>, xs: seq<real>)
    requires |xs| == |ks|
    requires forall i :: 0 <= i < |ks| ==> ks[i] < |rows| && rows[ks[i]].elapsedMs == Some(xs[i])
    ensures TotalMs(rows, ks) == Sum(xs)
    decreases |ks|
  {
    if ks != [] {
      var n := |ks| - 1;
      SumOfLast(xs);
      TotalIsSum(rows, ks[..n], xs[..n]);
    }
  }

  /** The time of a run, if it counts. */
  function OneMs(r: HistoryRow): seq<real> { if Counts(r) then [r.elapsedMs.value] else [] }

  lemma {:induction false} MatchingOfFirst(rows: seq<HistoryRow>)
    requires rows != []
    ensures MatchingMs(rows) == OneMs(rows[0]) + MatchingMs(rows[1..])
  {
  }

  lemma Reassociate(a: seq<real>, b: seq<real>, c: seq<real>)
    ensures a + (b + c) == (a + b) + c
  {
  }

  lemma {:induction false} MatchingOfLast(rows: seq<HistoryRow>, n: nat)
    requires n + 1 == |rows|
    ensures MatchingMs(rows) == MatchingMs(rows[..n]) + OneMs(rows[n])
    decreases n
  {
    var rest := rows[1..];
    MatchingOfFirst(rows);
    if n == 0 {
      assert rest == [] && rows[..0] == [];
    } else {
      MatchingOfLast(rest, n - 1);
      MatchingOfFirst(rows[..n]);
      assert rest[..n - 1] == rows[..n][1..] && rest[n - 1] == rows[n] && rows[..n][0] == rows[0];
      Reassociate(OneMs(rows[0]), MatchingMs(rest[..n - 1]), OneMs(rows[n]));
    }
  }

  /** The averaged times are those of the runs that count, each once. */
  lemma {:induction false} RunsAreAveraged(rows: seq<HistoryRow>) returns (ks: seq<nat>)
    ensures ArePositions(rows, ks) && |MatchingMs(rows)| == |ks|
    ensures forall i :: 0 <= i < |ks| ==> rows[ks[i]].elapsedMs == Some(MatchingMs(rows)[i])
    decreases |rows|
  {
    if rows == [] {
      ks := [];
    } else {
      var n := |rows| - 1;
      var front := RunsAreAveraged(rows[..n]);
      MatchingOfLast(rows, n);
      ks := front + if Counts(rows[n]) then [n] else [];
      PositionsExtend(rows, front, ks, n);
    }
  }

  lemma {:induction false} PositionsExtend(rows: seq<HistoryRow>, front: seq<nat>, ks: seq<nat>, n: nat)
    requires |rows| == n + 1 && ArePositions(rows[..n], front)
    requires ks == front + if Counts(rows[n]) then [n] else []
    ensures ArePositions(rows, ks)
  {
    forall k | 0 <= k < |rows| && Counts(rows[k])
      ensures k in ks
    {
      if k < n {
        assert rows[..n][k] == rows[k];
        assert k in front;
      } else {
        assert ks[|ks| - 1] == n;
      }
    }
  }

  /** So many hours are the mean of `n` times that add up to `total` milliseconds. */
  predicate IsMean(hours: real, total: real, n: nat) { n > 0 && hours * 3_600_000.0 * n as real == total }

  lemma {:induction false} MeanOfHistory(rows: seq<HistoryRow>, sum: real, n: nat)
    requires n == |MatchingMs(rows)| > 0 && sum == Sum(MatchingMs(rows))
    ensures HistoricalHours(Some(rows)).Some? && IsMean(HistoricalHours(Some(rows)).value, sum, n)
  {
    MeanTimesCount(sum, n as real);
  }

  /** The hours of a readable history: the mean time of the runs that count, and none when no run does. */
  lemma {:induction false} HistoryIsMean(rows: seq<HistoryRow>) returns (ks: seq<nat>)
    ensures ArePositions(rows, ks)
    ensures HistoricalHours(Some(rows)).Some? <==> ks != []
    ensures ks != [] ==> IsMean(HistoricalHours(Some(rows)).value, TotalMs(rows, ks), |ks|)
  {
    ks := RunsAreAveraged(rows);
    TotalIsSum(rows, ks, MatchingMs(rows));
    if ks != [] {
      MeanOfHistory(rows, Sum(MatchingMs(rows)), |ks|);
    }
  }

  lemma MeanTimesCount(sum: real, n: real)
    requires n > 0.0
    ensures sum / n / 1000.0 / 3600.0 * 3_600_000.0 * n == sum
  {
    var mean := sum / n;
    assert mean * n == sum;
    ScaleBack(mean);
  }

  lemma ScaleBack(mean: real)
    ensures mean / 1000.0 / 3600.0 * 3_600_000.0 == mean
  {
  }

  /** Thirty seconds times 1, 4, 20 or 100, by the bytes. */
  function TierSeconds(bytes: nat): real {
    if bytes < 10_737_418_240 then 30.0
    else if bytes < 107_374_182_400 then 120.0
    else if bytes < 1_099_511_627_776 then 600.0
    else 3000.0
  }

  /** History first, when it may be read and has a run that counts; else the byte tiers; else nothing. */
  lemma {:induction false} HoursByAnswers(a: Answers, bytes: Option<nat>, historyAllowed: bool)
    ensures var known :=
              historyAllowed && a.history.Some? && exists k :: 0 <= k < |a.history.value| && Counts(a.history.value[k]);
            var hours := RuntimeFor(a, bytes, historyAllowed);
            && (known ==> hours == HistoricalHours(a.history) && hours.Some?)
            && (!known ==> (hours.Some? <==> bytes.Some?))
            && (!known && bytes.Some? ==> hours.value * 3600.0 == TierSeconds(bytes.value))
  {
    if a.history.Some? {
      var ks := HistoryIsMean(a.history.value);
      assert ks != [] ==> Counts(a.history.value[ks[0]]);
    }
    if bytes.Some? {
      TiersByBytes(bytes.value);
    }
  }

  // ----- credits

  function Doubling(n: nat): real { if n == 0 then 1.0 else 2.0 * Doubling(n - 1) }

  /** One credit an hour at X-Small, doubling with each size; Gen2 a quarter more on Azure, 35 percent elsewhere. */
  function CreditsAnHour(rank: nat, generation: Generation, cloud: Cloud): real {
    Doubling(rank) * if generation == Gen1 || rank > 7 then 1.0 else if cloud == Azure then 1.25 else 1.35
  }

  lemma Gen1IsDoubling(size: Size)
    ensures Gen1CreditsPerHour(size) == Doubling(size.Rank())
    decreases size.Rank()
  {
    if size.Rank() > 0 {
      var prior := SizeOfRank(size.Rank() - 1);
      TablesFollowTheRule(prior, size, Gen1, Aws);
      Gen1IsDoubling(prior);
    }
  }

  lemma RateIsDoubling(size: Size, generation: Generation, cloud: Cloud)
    ensures CreditsPerHour(size, generation, cloud) == CreditsAnHour(size.Rank(), generation, cloud)
  {
    Gen1IsDoubling(size);
    TablesFollowTheRule(size, size, generation, cloud);
  }

  /**
   The rate by what was observed: the larger of the two sizes on the observed generation and cloud, as
   first generation when either is unknown; the asserted size when nothing was observed; else none.
   */
  lemma {:induction false} RateByObservation(l: Lookup, asserted: Size)
    ensures l.UnsafeName? || l.Unresolved? ==> RateFor(l, asserted) == None
    ensures l.Nothing? || l.RegionFailed? ==> RateFor(l, asserted) == Some(Doubling(asserted.Rank()))
    ensures l.Resolved? && (!l.facts.row.standard || l.facts.row.size == None) ==> RateFor(l, asserted) == None
    ensures l.Resolved? && l.facts.row.standard && l.facts.row.size.Some? ==>
              var rank := Max(asserted.Rank(), l.facts.row.size.value.Rank());
              var known := l.facts.row.generation.Some? && l.facts.cloud.Some?;
              RateFor(l, asserted) ==
              Some(if known then CreditsAnHour(rank, l.facts.row.generation.value, l.facts.cloud.value)
                   else Doubling(rank))
  {
    if l.Nothing? || l.RegionFailed? {
      RateIsDoubling(asserted, Gen1, Aws);
    } else if l.Resolved? && l.facts.row.standard && l.facts.row.size.Some? {
      var size := LargerSize(asserted, l.facts.row.size.value);
      LargerSizeIsUpperBound(asserted, l.facts.row.size.value);
      RateIsDoubling(size, Gen1, Aws);
      if l.facts.row.generation.Some? && l.facts.cloud.Some? {
        RateIsDoubling(size, l.facts.row.generation.value, l.facts.cloud.value);
      }
    }
  }

  // ----- dollars

  function DollarsACredit(e: Edition): real {
    if e == Standard then 2.0 else if e == Enterprise then 3.0 else if e == BusinessCritical then 4.0 else 6.0
  }

  /** The price is that of the dearer of the two editions. */
  lemma PriceIsDearer(configured: Edition, asserted: Edition)
    ensures PriceFor(configured, asserted) ==
            if DollarsACredit(configured) < DollarsACredit(asserted) then DollarsACredit(asserted)
            else DollarsACredit(configured)
  {
  }

  /**
   The figure is credits an hour times dollars a credit times hours, to six decimals, and there is one
   where all three are known.
   */
  lemma {:induction false} FigureIsProduct(
    l: Lookup, size: Size, configured: Edition, edition: Edition, hours: Option<real>)
    ensures var figure := Figure(l, size, configured, edition, hours);
            && (figure.Some? <==> RateFor(l, size).Some? && hours.Some?)
            && (figure.Some? ==>
                  var exact := hours.value * RateFor(l, size).value * PriceFor(configured, edition);
                  exact - 0.0000005 <= figure.value <= exact + 0.0000005)
  {
    if RateFor(l, size).Some? && hours.Some? {
      var rate, usd := RateFor(l, size).value, PriceFor(configured, edition);
      FactorsCommute(rate, usd, hours.value);
      Round6Law(Dollars(rate, usd, hours.value), Dollars(rate, usd, hours.value));
    }
  }

  lemma FactorsCommute(rate: real, usd: real, hours: real)
    ensures Dollars(rate, usd, hours) == hours * rate * usd
  {
    assert rate * usd * hours == hours * (rate * usd);
  }

  // ----- names and lookups

  /** A name that may be sent needs no quotes: at most 255 letters, digits, `_` and `$`, no digit or `$` first. */
  lemma AllowedNames(name: string)
    ensures IsAllowedName(name) <==>
              1 <= |name| <= 255 && OpensWord(name[0]) && forall k :: 0 <= k < |name| ==> InName(name[k])
  {
  }

  /** The name looked for is the argument in capitals, as an unquoted name is stored, or the session's own as it is. */
  lemma PinnedNameIsStored(a: Answers, warehouse: Option<string>)
    ensures warehouse.Some? ==>
              var w, pinned := warehouse.value, PinnedName(a, warehouse);
              && (pinned.Some? <==> IsAllowedName(w))
              && (pinned.Some? ==>
                    |pinned.value| == |w| && forall k :: 0 <= k < |w| ==> IsUpperOf(pinned.value[k], w[k]))
    ensures warehouse == None ==>
              PinnedName(a, warehouse) ==
              if a.current.Named? && IsAllowedName(a.current.name) then Some(a.current.name) else None
  {
  }

  /** The four ways a lookup ends, by the answers. */
  lemma {:induction false} LookupByAnswers(a: Answers, warehouse: Option<string>)
    ensures var l := ShowOutcome(a, warehouse);
            var named := warehouse.Some? || a.current.Named?;
            var pinned := PinnedName(a, warehouse);
            && (l.UnsafeName? <==> named && pinned == None)
            && (l.Nothing? <==> !named || (pinned.Some? && (a.show == None || |a.show.value| == 0)))
            && (l.Resolved? <==>
                  pinned.Some? && a.show.Some? && exists k: nat :: OnlyBearer(a.show.value, pinned.value, k))
            && !l.RegionFailed?
  {
    if a.show.Some? && PinnedName(a, warehouse).Some? {
      MatchingOne(a.show.value, PinnedName(a, warehouse).value);
    }
  }
}
