/**
 "Never below the observed warehouse": exactly when the figure of a Snowflake estimate is at least
 the price of its hours on the warehouse as it really is, and the inputs on which it is not.
 */
module SnowflakeFloor {
  import opened Outcomes
  import opened SqlKeywords
  import opened BigQueryCaps
  import opened SnowflakePricing
  import opened SnowflakeGuard

  /** The warehouse as it is billed. */
  datatype Truth = Truth(size: Size, generation: Generation, cloud: Cloud)
  {
    function Credits(): real { CreditsPerHour(size, generation, cloud) }
  }

  /** The SHOW row and, where it can be recognised, the region say nothing false of the warehouse. */
  predicate Describes(row: ShowRow, region: Option<Option<Cloud>>, truth: Truth) {
    && row.size == Some(truth.size)
    && (row.generation.Some? ==> row.generation.value == truth.generation)
    && (region.Some? && region.value.Some? ==> region.value.value == truth.cloud)
  }

  /** How much dearer than Gen1 the warehouse is. */
  function Premium(truth: Truth): real {
    if truth.generation == Gen1 || truth.size.Rank() >= X5Large.Rank() then 1.0
    else if truth.cloud == Azure then 1.25
    else 1.35
  }

  /**
   The factor by which the asserted edition must raise the configured one for the figure to reach
   the warehouse's own price: 0 when a larger asserted size has it covered already. A region that
   was not read, or not recognised, leaves the Gen2 premium uncovered; a region read that failed
   leaves the observed size uncovered as well.
   */
  function EditionFactor(
    row: ShowRow, region: Option<Option<Cloud>>, allowResume: bool, asserted: Size, truth: Truth): real
  {
    var read := ComputeLookupsAllowed(row, allowResume);
    if asserted.Rank() > truth.size.Rank() then 0.0
    else if read && region == None then
      if asserted == truth.size then Premium(truth)
      else if asserted.Rank() + 1 == truth.size.Rank() then 2.0 * Premium(truth)
      else 4.0
    else if read && region.value.Some? && row.generation.Some? then 1.0
    else Premium(truth)
  }

  /** What FactsOutcome makes of a bound row. */
  function BoundLookup(row: ShowRow, region: Option<Option<Cloud>>, allowResume: bool): Lookup {
    if !ComputeLookupsAllowed(row, allowResume) then Resolved(Facts(row, None))
    else if region == None then RegionFailed(Facts(row, None))
    else Resolved(Facts(row, region.value))
  }

  lemma BoundLookupIsOutcome(a: Answers, warehouse: Option<string>, allowResume: bool, row: ShowRow)
    requires Binds(a, warehouse, row)
    ensures FactsOutcome(a, warehouse, allowResume) == BoundLookup(row, a.region, allowResume)
  {
    ResolvedIffBound(a, warehouse, row);
  }

  // ----- rates

  lemma PremiumIsRate(truth: Truth)
    ensures truth.Credits() == Premium(truth) * Gen1CreditsPerHour(truth.size)
    ensures 1.0 <= Gen1CreditsPerHour(truth.size) && 1.0 <= Premium(truth) <= 1.35
  {
    TablesFollowTheRule(truth.size, truth.size, truth.generation, truth.cloud);
  }

  /** Each size up at least doubles the rate. */
  lemma {:induction false} RateGap(a: Size, b: Size)
    requires b.Rank() < a.Rank()
    ensures 2.0 * Gen1CreditsPerHour(b) <= Gen1CreditsPerHour(a)
    ensures a.Rank() == b.Rank() + 1 ==> 2.0 * Gen1CreditsPerHour(b) == Gen1CreditsPerHour(a)
    ensures a.Rank() > b.Rank() + 1 ==> 4.0 * Gen1CreditsPerHour(b) <= Gen1CreditsPerHour(a)
    decreases a.Rank()
  {
    var prior := SizeOfRank(a.Rank() - 1);
    TablesFollowTheRule(prior, a, Gen1, Aws);
    TablesFollowTheRule(b, b, Gen1, Aws);
    if b.Rank() < prior.Rank() {
      RateGap(prior, b);
    } else {
      assert prior == b;
    }
  }

  /** Whatever edition is asserted and configured, the dearer one is at most three times the configured. */
  lemma EditionRange(configured: Edition, edition: Edition)
    ensures 2.0 <= UsdPerCredit(configured) <= PriceFor(configured, edition) <= 3.0 * UsdPerCredit(configured)
  {
  }

  /** Where `factor` places the warehouse's own rate `credits` against the rate priced at. */
  predicate Placed(rate: real, credits: real, factor: real) {
    && 1.0 <= rate && 0.0 < credits && factor in {0.0, 1.0, 1.25, 1.35, 2.0, 2.5, 2.7, 4.0}
    && (factor == 0.0 ==> credits < rate)
    && (factor == 4.0 ==> 4.0 * rate <= credits)
    && (factor != 0.0 && factor != 4.0 ==> credits == factor * rate)
  }

  /** A larger asserted size bills strictly more than the warehouse. */
  lemma RateAbove(row: ShowRow, region: Option<Option<Cloud>>, allowResume: bool, asserted: Size, truth: Truth)
    requires Describes(row, region, truth) && row.standard && truth.size.Rank() < asserted.Rank()
    ensures var l := BoundLookup(row, region, allowResume);
            && RateFor(l, asserted).Some?
            && 1.0 <= RateFor(l, asserted).value && truth.Credits() < RateFor(l, asserted).value
  {
    PremiumIsRate(truth);
    RateGap(asserted, truth.size);
    LargerSizeIsUpperBound(asserted, truth.size);
    RateGrowsWithSize(truth.size, asserted, truth.generation, truth.cloud);
    TablesFollowTheRule(asserted, asserted, Gen1, Aws);
  }

  /** An asserted size that is not larger leaves the rate at the observed size, or at its own when the region failed. */
  lemma RateAtOrBelow(row: ShowRow, region: Option<Option<Cloud>>, allowResume: bool, asserted: Size, truth: Truth)
    requires Describes(row, region, truth) && row.standard && asserted.Rank() <= truth.size.Rank()
    ensures var l := BoundLookup(row, region, allowResume);
            RateFor(l, asserted) ==
            Some(if l.RegionFailed? then Gen1CreditsPerHour(asserted)
                 else if l.facts.cloud.Some? && row.generation.Some? then truth.Credits()
                 else Gen1CreditsPerHour(truth.size))
  {
    LargerSizeIsUpperBound(asserted, truth.size);
    assert asserted.Rank() == truth.size.Rank() ==> SizeOfRank(asserted.Rank()) == asserted == truth.size;
  }

  /** The figure's rate against the warehouse's own, by how far the asserted size lies from the observed. */
  lemma RateAgainstTruth(row: ShowRow, region: Option<Option<Cloud>>, allowResume: bool, asserted: Size, truth: Truth)
    returns (rate: real, factor: real)
    requires Describes(row, region, truth) && row.standard
    ensures RateFor(BoundLookup(row, region, allowResume), asserted) == Some(rate)
    ensures factor == EditionFactor(row, region, allowResume, asserted, truth) && Placed(rate, truth.Credits(), factor)
  {
    factor := EditionFactor(row, region, allowResume, asserted, truth);
    PremiumIsRate(truth);
    if truth.size.Rank() < asserted.Rank() {
      RateAbove(row, region, allowResume, asserted, truth);
    } else {
      RateAtOrBelow(row, region, allowResume, asserted, truth);
      TablesFollowTheRule(asserted, asserted, Gen1, Aws);
      if asserted.Rank() < truth.size.Rank() {
        RateGap(truth.size, asserted);
      }
    }
    rate := RateFor(BoundLookup(row, region, allowResume), asserted).value;
  }

  /**
   Before any dollars: the rate covers the warehouse exactly when the factor is at most 1. Spelled
   out, for a region that was not read and for one whose read failed.
   */
  lemma RateCoversIff(row: ShowRow, region: Option<Option<Cloud>>, allowResume: bool, asserted: Size, truth: Truth)
    requires Describes(row, region, truth) && row.standard
    ensures var l := BoundLookup(row, region, allowResume);
            var gen1Priced := truth.generation == Gen1 || truth.size.Rank() >= X5Large.Rank();
            RateFor(l, asserted).Some? &&
            (truth.Credits() <= RateFor(l, asserted).value <==>
               || asserted.Rank() > truth.size.Rank()
               || (l.RegionFailed? && asserted == truth.size && gen1Priced)
               || (l.Resolved? && (gen1Priced || (row.generation.Some? && l.facts.cloud.Some?))))
  {
    var rate, factor := RateAgainstTruth(row, region, allowResume, asserted, truth);
  }

  // ----- dollars

  lemma SignOfProduct(x: real, y: real)
    ensures x * y == 0.0 <==> x == 0.0 || y == 0.0
    ensures x * y > 0.0 <==> (x > 0.0 && y > 0.0) || (x < 0.0 && y < 0.0)
  {
  }

  lemma DollarsOrder(r1: real, p1: real, r2: real, p2: real, h: real)
    ensures Dollars(r1, p1, h) <= Dollars(r2, p2, h) <==>
              h == 0.0 || (h > 0.0 && r1 * p1 <= r2 * p2) || (h < 0.0 && r2 * p2 <= r1 * p1)
  {
    var x, y := r1 * p1, r2 * p2;
    assert y * h - x * h == (y - x) * h;
    SignOfProduct(y - x, h);
  }

  /** Multiplying by a positive number keeps the order. */
  lemma Scale(x: real, y: real, z: real)
    requires 0.0 < x
    ensures x * y <= x * z <==> y <= z
    ensures x * z <= x * y <==> z <= y
  {
    assert x * z - x * y == x * (z - y);
    SignOfProduct(x, z - y);
  }

  /** Hourly prices compare as the editions do against the factor. */
  lemma HourlyOrder(rate: real, credits: real, factor: real, usd: real, price: real)
    requires Placed(rate, credits, factor) && 2.0 <= usd <= price <= 3.0 * usd
    ensures credits * usd <= rate * price <==> factor * usd <= price
    ensures rate * price <= credits * usd <==> price <= factor * usd
  {
    if factor == 0.0 {
      HourlyAbove(rate, credits, usd, price);
    } else if factor == 4.0 {
      HourlyFarBelow(rate, credits, usd, price);
    } else {
      HourlyByFactor(rate, credits, factor, usd, price);
    }
  }

  lemma HourlyAbove(rate: real, credits: real, usd: real, price: real)
    requires 0.0 < credits < rate && 0.0 < usd <= price
    ensures credits * usd < rate * price
  {
    Scale(usd, rate, credits);
    Scale(rate, usd, price);
    assert usd * credits == credits * usd && usd * rate == rate * usd;
  }

  lemma HourlyFarBelow(rate: real, credits: real, usd: real, price: real)
    requires 0.0 < rate && 4.0 * rate <= credits && 0.0 < usd && price <= 3.0 * usd
    ensures rate * price < credits * usd
  {
    var each := rate * usd;
    SignOfProduct(rate, usd);
    Scale(usd, 4.0 * rate, credits);
    Scale(rate, price, 3.0 * usd);
    assert rate * (3.0 * usd) == 3.0 * each && usd * (4.0 * rate) == 4.0 * each;
    assert usd * credits == credits * usd;
  }

  lemma HourlyByFactor(rate: real, credits: real, factor: real, usd: real, price: real)
    requires 0.0 < rate && credits == factor * rate
    ensures credits * usd <= rate * price <==> factor * usd <= price
    ensures rate * price <= credits * usd <==> price <= factor * usd
  {
    var own := factor * usd;
    assert credits * usd == rate * own;
    Scale(rate, own, price);
  }

  /** The price of the hours on the warehouse itself, at the configured edition. */
  function TruePrice(truth: Truth, configured: Edition, hours: real): real {
    Dollars(truth.Credits(), UsdPerCredit(configured), hours)
  }

  /** The figure before it is rounded. */
  function Unrounded(l: Lookup, size: Size, configured: Edition, edition: Edition, hours: real): real
    requires RateFor(l, size).Some?
  {
    Dollars(RateFor(l, size).value, PriceFor(configured, edition), hours)
  }

  /** Is the figure, before rounding, at least the warehouse's price? All hours, negative ones included. */
  predicate FloorCondition(factor: real, configured: Edition, edition: Edition, hours: real) {
    var usd, price := UsdPerCredit(configured), PriceFor(configured, edition);
    hours == 0.0 || (hours > 0.0 && factor * usd <= price) || (hours < 0.0 && price <= factor * usd)
  }

  lemma PlacedFloor(rate: real, credits: real, factor: real, configured: Edition, edition: Edition, hours: real)
    requires Placed(rate, credits, factor)
    ensures Dollars(credits, UsdPerCredit(configured), hours) <=
            Dollars(rate, PriceFor(configured, edition), hours) <==>
              FloorCondition(factor, configured, edition, hours)
  {
    EditionRange(configured, edition);
    HourlyOrder(rate, credits, factor, UsdPerCredit(configured), PriceFor(configured, edition));
    DollarsOrder(credits, UsdPerCredit(configured), rate, PriceFor(configured, edition), hours);
  }

  /** Does the dearer of the two editions make up for the factor? */
  predicate EditionCovers(factor: real, configured: Edition, edition: Edition) {
    factor * UsdPerCredit(configured) <= PriceFor(configured, edition)
  }

  lemma PlacedAbove(rate: real, credits: real, factor: real, configured: Edition, edition: Edition, hours: real)
    requires Placed(rate, credits, factor) && FloorCondition(factor, configured, edition, hours)
    ensures Round6(Dollars(credits, UsdPerCredit(configured), hours)) <=
            Round6(Dollars(rate, PriceFor(configured, edition), hours))
  {
    PlacedFloor(rate, credits, factor, configured, edition, hours);
    Round6Law(Dollars(credits, UsdPerCredit(configured), hours), Dollars(rate, PriceFor(configured, edition), hours));
  }

  lemma PlacedBelow(rate: real, credits: real, factor: real, configured: Edition, edition: Edition, hours: real)
    requires Placed(rate, credits, factor) && !EditionCovers(factor, configured, edition)
    requires ASSUMED_RUNTIME_HOURS <= hours
    ensures Round6(Dollars(rate, PriceFor(configured, edition), hours)) <
            Round6(Dollars(credits, UsdPerCredit(configured), hours))
  {
    HourlyGap(rate, credits, factor, configured, edition);
    DollarsGap(rate, PriceFor(configured, edition), credits, UsdPerCredit(configured), hours);
  }

  /** The exact condition of the floor, for every observation of a bound STANDARD row. */
  lemma FloorHoldsIff(
    row: ShowRow, region: Option<Option<Cloud>>, allowResume: bool, asserted: Size, configured: Edition,
    edition: Edition, truth: Truth, hours: real)
    requires Describes(row, region, truth) && row.standard
    ensures var l := BoundLookup(row, region, allowResume);
            RateFor(l, asserted).Some? &&
            (TruePrice(truth, configured, hours) <= Unrounded(l, asserted, configured, edition, hours) <==>
               FloorCondition(EditionFactor(row, region, allowResume, asserted, truth), configured, edition, hours))
  {
    var rate, factor := RateAgainstTruth(row, region, allowResume, asserted, truth);
    PlacedFloor(rate, truth.Credits(), factor, configured, edition, hours);
  }

  /** An uncovered hour misses by five cents at least. */
  lemma HourlyGap(rate: real, credits: real, factor: real, configured: Edition, edition: Edition)
    requires Placed(rate, credits, factor)
    requires PriceFor(configured, edition) < factor * UsdPerCredit(configured)
    ensures rate * PriceFor(configured, edition) + 0.05 <= credits * UsdPerCredit(configured)
  {
    var usd, price := UsdPerCredit(configured), PriceFor(configured, edition);
    EditionRange(configured, edition);
    assert price + 0.05 <= factor * usd;
    Scale(rate, price + 0.05, factor * usd);
    assert rate * (price + 0.05) == rate * price + rate * 0.05;
    if factor == 4.0 {
      Scale(usd, 4.0 * rate, credits);
      assert rate * (factor * usd) == usd * (4.0 * rate);
    } else {
      assert rate * (factor * usd) == credits * usd;
    }
  }

  lemma RoundedGap(low: real, high: real, hours: real)
    requires ASSUMED_RUNTIME_HOURS <= hours && low + 0.05 <= high
    ensures Round6(low * hours) < Round6(high * hours)
  {
    assert high * hours - low * hours == (high - low) * hours;
    assert 0.05 * ASSUMED_RUNTIME_HOURS <= (high - low) * hours by {
      Scale(hours, 0.05, high - low);
    }
    Round6Law(low * hours, low * hours);
    Round6Law(high * hours, high * hours);
  }

  lemma DollarsGap(r1: real, p1: real, r2: real, p2: real, hours: real)
    requires ASSUMED_RUNTIME_HOURS <= hours && r1 * p1 + 0.05 <= r2 * p2
    ensures Round6(Dollars(r1, p1, hours)) < Round6(Dollars(r2, p2, hours))
  {
    var low, high := r1 * p1, r2 * p2;
    RoundedGap(low, high, hours);
    assert Dollars(r1, p1, hours) == low * hours && Dollars(r2, p2, hours) == high * hours;
  }

  /**
   The figure as it is returned, rounded to six decimals: it never falls below the warehouse's own
   price where the condition holds, and for any runtime of the byte tiers nowhere else.
   */
  lemma FigureNeverBelowObserved(
    row: ShowRow, region: Option<Option<Cloud>>, allowResume: bool, asserted: Size, configured: Edition,
    edition: Edition, truth: Truth, hours: real)
    requires Describes(row, region, truth) && row.standard
    ensures var figure := Figure(BoundLookup(row, region, allowResume), asserted, configured, edition, Some(hours));
            var factor := EditionFactor(row, region, allowResume, asserted, truth);
            && figure.Some?
            && (FloorCondition(factor, configured, edition, hours) ==>
                  Round6(TruePrice(truth, configured, hours)) <= figure.value)
            && (hours >= ASSUMED_RUNTIME_HOURS ==>
                  (Round6(TruePrice(truth, configured, hours)) <= figure.value <==>
                    EditionCovers(factor, configured, edition)))
  {
    var rate, factor := RateAgainstTruth(row, region, allowResume, asserted, truth);
    if FloorCondition(factor, configured, edition, hours) {
      PlacedAbove(rate, truth.Credits(), factor, configured, edition, hours);
    }
    if hours >= ASSUMED_RUNTIME_HOURS && !EditionCovers(factor, configured, edition) {
      PlacedBelow(rate, truth.Credits(), factor, configured, edition, hours);
    }
  }

  // ----- a whole estimate

  lemma EstimateFigureIs(q: EstimateRequest, a: Answers, row: ShowRow)
    requires Issues(q) && a.plan.Some? && Binds(a, q.warehouse, row)
    ensures EstimateFigure(q, a) ==
            Figure(BoundLookup(row, a.region, q.allowResume), q.size.value, q.configured, q.edition.value,
              EstimateHours(q, a))
  {
    BoundLookupIsOutcome(a, q.warehouse, q.allowResume, row);
  }

  /**
   A whole estimate over arbitrary answers, whose one exact row is a STANDARD warehouse of known
   size: when the returned figure is at least the warehouse's own price.
   */
  lemma EstimateFloorIff(q: EstimateRequest, a: Answers, row: ShowRow, truth: Truth)
    requires Issues(q) && a.plan.Some? && Binds(a, q.warehouse, row) && EstimateHours(q, a).Some?
    requires Describes(row, a.region, truth) && row.standard
    ensures var hours := EstimateHours(q, a).value;
            var factor := EditionFactor(row, a.region, q.allowResume, q.size.value, truth);
            && EstimateFigure(q, a).Some?
            && (FloorCondition(factor, q.configured, q.edition.value, hours) ==>
                  Round6(TruePrice(truth, q.configured, hours)) <= EstimateFigure(q, a).value)
            && (hours >= ASSUMED_RUNTIME_HOURS ==>
                  (Round6(TruePrice(truth, q.configured, hours)) <= EstimateFigure(q, a).value <==>
                     EditionCovers(factor, q.configured, q.edition.value)))
  {
    EstimateFigureIs(q, a, row);
    FigureNeverBelowObserved(
      row, a.region, q.allowResume, q.size.value, q.configured, q.edition.value, truth, EstimateHours(q, a).value);
  }

  /** Hours are negative exactly when a history may be read and its counted run times sum below zero. */
  lemma HoursNegativeIff(q: EstimateRequest, a: Answers)
    requires a.plan.Some? && EstimateHours(q, a).Some?
    ensures EstimateHours(q, a).value < 0.0 <==>
              && HistoryAllowed(FactsOutcome(a, q.warehouse, q.allowResume), q.warehouse, q.allowResume)
              && a.history.Some? && Sum(MatchingMs(a.history.value)) < 0.0
    ensures EstimateHours(q, a).value < ASSUMED_RUNTIME_HOURS ==>
              && HistoryAllowed(FactsOutcome(a, q.warehouse, q.allowResume), q.warehouse, q.allowResume)
              && a.history.Some? && MatchingMs(a.history.value) != []
  {
    if a.plan.value.Some? {
      RuntimeGrowsWithBytes(a.plan.value.value, a.plan.value.value, ASSUMED_RUNTIME_HOURS);
    }
    if a.history.Some? && MatchingMs(a.history.value) != [] {
      SignOfQuotient(Sum(MatchingMs(a.history.value)), |MatchingMs(a.history.value)| as real);
    }
  }

  lemma SignOfQuotient(x: real, n: real)
    requires n > 0.0
    ensures x / n < 0.0 <==> x < 0.0
  {
    assert (x / n) * n == x;
    SignOfProduct(x / n, n);
  }

  // ----- three inputs below the floor

  const WAREHOUSE := "WH"

  /** An estimate for WH at the defaults. */
  function DefaultRequest(): EstimateRequest {
    EstimateRequest(Some(WAREHOUSE), Some(XSmall), Some(Standard), Standard, false)
  }

  function AnswersWith(row: ShowRow, region: Option<Option<Cloud>>, history: Option<seq<HistoryRow>>): Answers {
    Answers(true, true, Some(Some(0)), NotText, Some([row]), region, history)
  }

  lemma RowIsBound(row: ShowRow, region: Option<Option<Cloud>>, history: Option<seq<HistoryRow>>)
    requires row.name == Some(WAREHOUSE)
    ensures Issues(DefaultRequest()) && Binds(AnswersWith(row, region, history), Some(WAREHOUSE), row)
  {
    assert Upper(WAREHOUSE) == WAREHOUSE;
    assert OnlyBearer([row], WAREHOUSE, 0);
  }

  /** Where the editions do not make up for what the rate leaves out, the assumed half minute is priced too low. */
  lemma UncoveredUndercuts(a: Answers, row: ShowRow, truth: Truth)
    requires Issues(DefaultRequest()) && a.plan.Some? && Binds(a, Some(WAREHOUSE), row)
    requires EstimateHours(DefaultRequest(), a) == Some(ASSUMED_RUNTIME_HOURS)
    requires Describes(row, a.region, truth) && row.standard
    requires EditionFactor(row, a.region, false, XSmall, truth) > 1.0
    ensures EstimateFigure(DefaultRequest(), a).Some?
    ensures EstimateFigure(DefaultRequest(), a).value < Round6(TruePrice(truth, Standard, ASSUMED_RUNTIME_HOURS))
  {
    EstimateFloorIff(DefaultRequest(), a, row, truth);
  }

  /** Without a history the assumed runtime of the smallest byte tier is priced. */
  lemma AssumedHours(row: ShowRow, region: Option<Option<Cloud>>)
    ensures EstimateHours(DefaultRequest(), AnswersWith(row, region, None)) == Some(ASSUMED_RUNTIME_HOURS)
  {
    TiersByBytes(0);
  }

  /** A started 6X-Large whose region read fails is priced at the asserted X-Small. */
  lemma FailedRegionUndercuts()
    ensures var row := ShowRow(Some(WAREHOUSE), true, Some(X6Large), Some(Gen1), true);
            var q, a := DefaultRequest(), AnswersWith(row, None, None);
            && Issues(q) && Binds(a, q.warehouse, row) && EstimateHours(q, a) == Some(ASSUMED_RUNTIME_HOURS)
            && EstimateFigure(q, a).Some?
            && EstimateFigure(q, a).value <
              Round6(TruePrice(Truth(X6Large, Gen1, Aws), Standard, ASSUMED_RUNTIME_HOURS))
  {
    var row := ShowRow(Some(WAREHOUSE), true, Some(X6Large), Some(Gen1), true);
    RowIsBound(row, None, None);
    AssumedHours(row, None);
    UncoveredUndercuts(AnswersWith(row, None, None), row, Truth(X6Large, Gen1, Aws));
  }

  /** A suspended Gen2 Large is priced as Gen1, on every cloud below its own rate. */
  lemma SuspendedGen2Undercuts(cloud: Cloud)
    ensures var row := ShowRow(Some(WAREHOUSE), true, Some(Large), Some(Gen2), false);
            var q, a := DefaultRequest(), AnswersWith(row, Some(Some(cloud)), None);
            && Issues(q) && Binds(a, q.warehouse, row) && EstimateHours(q, a) == Some(ASSUMED_RUNTIME_HOURS)
            && EstimateFigure(q, a).Some?
            && EstimateFigure(q, a).value <
              Round6(TruePrice(Truth(Large, Gen2, cloud), Standard, ASSUMED_RUNTIME_HOURS))
  {
    var row := ShowRow(Some(WAREHOUSE), true, Some(Large), Some(Gen2), false);
    var a := AnswersWith(row, Some(Some(cloud)), None);
    RowIsBound(row, Some(Some(cloud)), None);
    AssumedHours(row, Some(Some(cloud)));
    UncoveredUndercuts(a, row, Truth(Large, Gen2, cloud));
  }

  /** A history of minus one hour: the larger the asserted size, the lower the figure. */
  lemma NegativeHistoryUndercuts()
    ensures var row := ShowRow(Some(WAREHOUSE), true, Some(XSmall), Some(Gen1), true);
            var run := HistoryRow(true, Some(-3600000.0), Some(1.0));
            var q, a := DefaultRequest().(size := Some(Small)), AnswersWith(row, Some(Some(Aws)), Some([run]));
            && Issues(q) && Binds(a, q.warehouse, row) && EstimateHours(q, a) == Some(-1.0)
            && EstimateFigure(q, a).Some?
            && EstimateFigure(q, a).value < Round6(TruePrice(Truth(XSmall, Gen1, Aws), Standard, -1.0))
  {
    var row := ShowRow(Some(WAREHOUSE), true, Some(XSmall), Some(Gen1), true);
    var run := HistoryRow(true, Some(-3600000.0), Some(1.0));
    var region: Option<Option<Cloud>> := Some(Some(Aws));
    var a := AnswersWith(row, region, Some([run]));
    RowIsBound(row, region, Some([run]));
    BoundLookupIsOutcome(a, Some(WAREHOUSE), false, row);
    assert MatchingMs([run]) == [-3600000.0] + MatchingMs([]);
    assert Sum([-3600000.0]) == -3600000.0 + Sum([]);
    Round6Law(-4.0, -4.0);
    Round6Law(-2.0, -2.0);
  }
}
