/** Snowflake credit rates, edition prices and the coarse runtime tiers. */
module SnowflakePricing {
  import opened Outcomes

  datatype Size = XSmall | Small | Medium | Large | XLarge | X2Large | X3Large | X4Large | X5Large | X6Large
  {
    /** The order of the sizes. */
    function Rank(): nat {
      match this
      case XSmall => 0
      case Small => 1
      case Medium => 2
      case Large => 3
      case XLarge => 4
      case X2Large => 5
      case X3Large => 6
      case X4Large => 7
      case X5Large => 8
      case X6Large => 9
    }
  }

  datatype Generation = Gen1 | Gen2

  datatype Cloud = Aws | Azure | Gcp

  datatype Edition = Standard | Enterprise | BusinessCritical | Vps

  // ----- the tables

  function Gen1CreditsPerHour(size: Size): real {
    match size
    case XSmall => 1.0
    case Small => 2.0
    case Medium => 4.0
    case Large => 8.0
    case XLarge => 16.0
    case X2Large => 32.0
    case X3Large => 64.0
    case X4Large => 128.0
    case X5Large => 256.0
    case X6Large => 512.0
  }

  function Gen2AwsCreditsPerHour(size: Size): Option<real> {
    match size
    case XSmall => Some(1.35)
    case Small => Some(2.7)
    case Medium => Some(5.4)
    case Large => Some(10.8)
    case XLarge => Some(21.6)
    case X2Large => Some(43.2)
    case X3Large => Some(86.4)
    case X4Large => Some(172.8)
    case _ => None
  }

  function Gen2AzureCreditsPerHour(size: Size): Option<real> {
    match size
    case XSmall => Some(1.25)
    case Small => Some(2.5)
    case Medium => Some(5.0)
    case Large => Some(10.0)
    case XLarge => Some(20.0)
    case X2Large => Some(40.0)
    case X3Large => Some(80.0)
    case X4Large => Some(160.0)
    case _ => None
  }

  /** AWS and GCP bill alike. */
  function Gen2CreditsPerHour(cloud: Cloud, size: Size): Option<real> {
    if cloud == Azure then Gen2AzureCreditsPerHour(size) else Gen2AwsCreditsPerHour(size)
  }

  /** Generation 2 does not exist at the two largest sizes, which bill at the Gen1 rate. */
  function CreditsPerHour(size: Size, generation: Generation, cloud: Cloud): real {
    if generation == Gen2 && Gen2CreditsPerHour(cloud, size).Some? then Gen2CreditsPerHour(cloud, size).value
    else Gen1CreditsPerHour(size)
  }

  function UsdPerCredit(edition: Edition): real {
    match edition
    case Standard => 2.0
    case Enterprise => 3.0
    case BusinessCritical => 4.0
    case Vps => 6.0
  }

  /** Python's `max(a, b, key=...)`: the first one on ties. */
  function LargerSize(a: Size, b: Size): Size { if Gen1CreditsPerHour(b) > Gen1CreditsPerHour(a) then b else a }

  function DearerEdition(a: Edition, b: Edition): Edition { if UsdPerCredit(b) > UsdPerCredit(a) then b else a }

  // ----- what the tables promise

  /** The published rule behind the tables: each size doubles, Gen2 costs 1.35 or 1.25 times Gen1. */
  lemma TablesFollowTheRule(size: Size, next: Size, generation: Generation, cloud: Cloud)
    ensures next.Rank() == size.Rank() + 1 ==> Gen1CreditsPerHour(next) == 2.0 * Gen1CreditsPerHour(size)
    ensures Gen2CreditsPerHour(cloud, size).Some? <==> size.Rank() <= X4Large.Rank()
    ensures Gen2CreditsPerHour(cloud, size).Some? ==>
              Gen2CreditsPerHour(cloud, size).value == Gen1CreditsPerHour(size) * if cloud == Azure then 1.25 else 1.35
    ensures Gen1CreditsPerHour(size) <= CreditsPerHour(size, generation, cloud) <= 1.35 * Gen1CreditsPerHour(size)
  {
  }

  lemma RateStep(size: Size, next: Size, generation: Generation, cloud: Cloud)
    requires next.Rank() == size.Rank() + 1
    ensures 1.0 <= CreditsPerHour(size, generation, cloud) < CreditsPerHour(next, generation, cloud)
  {
  }

  function SizeOfRank(n: nat): (size: Size)
    requires n <= 9
    ensures size.Rank() == n
  {
    if n == 0 then XSmall
    else if n == 1 then Small
    else if n == 2 then Medium
    else if n == 3 then Large
    else if n == 4 then XLarge
    else if n == 5 then X2Large
    else if n == 6 then X3Large
    else if n == 7 then X4Large
    else if n == 8 then X5Large
    else X6Large
  }

  /** A larger size never bills less, in any generation and cloud, across the fall back to Gen1 too. */
  lemma {:induction false} RateGrowsWithSize(a: Size, b: Size, generation: Generation, cloud: Cloud)
    requires a.Rank() <= b.Rank()
    ensures CreditsPerHour(a, generation, cloud) <= CreditsPerHour(b, generation, cloud)
    ensures a != b ==> CreditsPerHour(a, generation, cloud) < CreditsPerHour(b, generation, cloud)
    decreases b.Rank()
  {
    if a.Rank() < b.Rank() {
      var prior := SizeOfRank(b.Rank() - 1);
      RateStep(prior, b, generation, cloud);
      RateGrowsWithSize(a, prior, generation, cloud);
    }
  }

  /** Choosing by the Gen1 rate chooses by rank. */
  lemma LargerSizeIsUpperBound(a: Size, b: Size)
    ensures LargerSize(a, b).Rank() == if a.Rank() < b.Rank() then b.Rank() else a.Rank()
  {
    if a.Rank() < b.Rank() {
      RateGrowsWithSize(a, b, Gen1, Aws);
    } else {
      RateGrowsWithSize(b, a, Gen1, Aws);
    }
  }

  // ----- runtime tiers

  const GB: int := 1024 * 1024 * 1024
  const TB: int := 1024 * GB

  /** Upper bound in bytes, None for no bound, and the multiplier below it. */
  const TIERS: seq<(Option<int>, int)> := [(Some(10 * GB), 1), (Some(100 * GB), 4), (Some(TB), 20), (None, 100)]

  /** The first tier whose bound the bytes stay below. */
  function TierMultiplier(bytes: nat, tiers: seq<(Option<int>, int)>): int
    requires tiers != []
  {
    if tiers[0].0 == None || bytes < tiers[0].0.value || |tiers| == 1 then tiers[0].1
    else TierMultiplier(bytes, tiers[1..])
  }

  function ScaleRuntimeHours(bytes: nat, baseline: real): real { baseline * TierMultiplier(bytes, TIERS) as real }

  /** The tiers by their bounds. */
  lemma TiersByBytes(bytes: nat)
    ensures TierMultiplier(bytes, TIERS) ==
            if bytes < 10 * GB then 1 else if bytes < 100 * GB then 4 else if bytes < TB then 20 else 100
  {
    var second, third, last := TIERS[1..], TIERS[2..], TIERS[3..];
    assert second[1..] == third && third[1..] == last;
    assert TierMultiplier(bytes, last) == 100;
    assert TierMultiplier(bytes, third) == if bytes < TB then 20 else 100;
    assert TierMultiplier(bytes, second) == if bytes < 100 * GB then 4 else TierMultiplier(bytes, third);
  }

  /** Tiers whose multipliers do not fall. */
  predicate Rising(tiers: seq<(Option<int>, int)>) {
    forall i, j :: 0 <= i < j < |tiers| ==> tiers[i].1 <= tiers[j].1
  }

  lemma {:induction false} MultiplierAtLeastFirst(bytes: nat, tiers: seq<(Option<int>, int)>)
    requires tiers != [] && Rising(tiers)
    ensures tiers[0].1 <= TierMultiplier(bytes, tiers)
    decreases |tiers|
  {
    if |tiers| > 1 {
      MultiplierAtLeastFirst(bytes, tiers[1..]);
    }
  }

  lemma {:induction false} MultiplierGrows(b1: nat, b2: nat, tiers: seq<(Option<int>, int)>)
    requires tiers != [] && Rising(tiers) && b1 <= b2
    ensures TierMultiplier(b1, tiers) <= TierMultiplier(b2, tiers)
    decreases |tiers|
  {
    if |tiers| > 1 {
      MultiplierAtLeastFirst(b2, tiers);
      MultiplierGrows(b1, b2, tiers[1..]);
    }
  }

  /** More bytes never mean less runtime, and the runtime never falls below the baseline. */
  lemma RuntimeGrowsWithBytes(b1: nat, b2: nat, baseline: real)
    requires b1 <= b2 && 0.0 <= baseline
    ensures baseline <= ScaleRuntimeHours(b1, baseline) <= ScaleRuntimeHours(b2, baseline)
  {
    MultiplierAtLeastFirst(b1, TIERS);
    MultiplierGrows(b1, b2, TIERS);
    ScaleGrows(baseline, 1, TierMultiplier(b1, TIERS));
    ScaleGrows(baseline, TierMultiplier(b1, TIERS), TierMultiplier(b2, TIERS));
  }

  lemma ScaleGrows(baseline: real, m1: int, m2: int)
    requires 0.0 <= baseline && m1 <= m2
    ensures baseline * m1 as real <= baseline * m2 as real
  {
    assert 0.0 <= baseline * (m2 - m1) as real;
  }
}
