/** Dollars and bytes: the price of a dry run and the byte cap derived from a dollar cap. */
module BigQueryCaps {
  const TIB_IN_BYTES: int := 1024 * 1024 * 1024 * 1024
  const ON_DEMAND_USD_PER_TIB: real := 6.25
  const MIB: int := 1024 * 1024
  const MIN_MAXIMUM_BYTES_BILLED: int := 10 * MIB
  const INT64_MAX: int := 0x7FFF_FFFF_FFFF_FFFF
  const INT64_MAX_USD_CAP: real := INT64_MAX as real / TIB_IN_BYTES as real * ON_DEMAND_USD_PER_TIB

  /** The unrounded price of `b` processed bytes. */
  function Price(b: int): real { b as real / TIB_IN_BYTES as real * ON_DEMAND_USD_PER_TIB }

  /** Nearest integer, ties to even, of a non-negative number. */
  function RoundHalfEven(x: real): int {
    var f := x.Floor;
    var rest := x - f as real;
    if rest < 0.5 || (rest == 0.5 && f % 2 == 0) then f else f + 1
  }

  /** A dollar figure rounded to six decimals. */
  function Round6(x: real): real { RoundHalfEven(x * 1000000.0) as real / 1000000.0 }

  /** The figure the dry run reports for `b` bytes. */
  function DryRunFigure(b: int): real { Round6(Price(b)) }

  /** Conversion to an integer drops the fraction, towards zero. */
  function Truncate(x: real): int { if x >= 0.0 then x.Floor else -(-x).Floor }

  /** Up to the next MiB. */
  function CeilToMib(b: int): int { -((-b) / MIB) * MIB }

  function Max(a: int, b: int): int { if a < b then b else a }

  function Min(a: int, b: int): int { if a < b then a else b }

  /** The bytes a dollar cap buys before rounding. */
  function RawBytes(cap: real): real { cap / ON_DEMAND_USD_PER_TIB * TIB_IN_BYTES as real }

  /** The server-side byte cap equivalent of a dollar cap. */
  function CostCapToMaxBytesBilled(cap: real): int {
    if cap >= INT64_MAX_USD_CAP then INT64_MAX
    else
      var raw := Truncate(RawBytes(cap));
      Min(Max(CeilToMib(raw), MIN_MAXIMUM_BYTES_BILLED), INT64_MAX)
  }

  /** What the provider bills for `b` processed bytes of one table. */
  function BilledBytes(b: int): int { Max(MIN_MAXIMUM_BYTES_BILLED, CeilToMib(b)) }

  // ----- rounding

  /** The rounded-up figure is the least multiple of a MiB that is not below `b`. */
  lemma CeilToMibIsLeast(b: int, m: int)
    requires m % 1_048_576 == 0
    ensures b <= CeilToMib(b) && CeilToMib(b) % 1_048_576 == 0
    ensures b <= m <==> CeilToMib(b) <= m
  {
  }

  /** The bill is the least multiple of a MiB that covers the bytes and the minimum of ten. */
  lemma BilledBytesIsLeast(b: int, m: int)
    requires m % 1_048_576 == 0
    ensures b <= BilledBytes(b) && 10_485_760 <= BilledBytes(b) && BilledBytes(b) % 1_048_576 == 0
    ensures b <= m && 10_485_760 <= m ==> BilledBytes(b) <= m
  {
    CeilToMibIsLeast(b, m);
  }

  /** A TiB costs 6.25 dollars, and the price is proportional to the bytes. */
  lemma PriceIsProportional(b: int, n: int)
    ensures Price(n * 1_099_511_627_776) == n as real * 6.25
    ensures Price(b) + Price(n) == Price(b + n)
  {
  }

  /** The nearest integer; of two equally near ones the even one. */
  lemma RoundHalfEvenIsNearest(x: real, n: int)
    ensures var r := RoundHalfEven(x);
            && -0.5 <= x - r as real <= 0.5
            && (x - r as real == 0.5 || r as real - x == 0.5 ==> r % 2 == 0)
            && (-0.5 < x - n as real < 0.5 ==> n == r)
  {
  }

  /** Rounding to six decimals keeps the order of figures and moves none by more than half a unit. */
  lemma Round6Law(x: real, y: real)
    requires x <= y
    ensures Round6(x) <= Round6(y)
    ensures x - 0.0000005 <= Round6(x) <= x + 0.0000005
    ensures (Round6(x) * 1000000.0).Floor as real == Round6(x) * 1000000.0
  {
    assert (x * 1000000.0).Floor <= (y * 1000000.0).Floor;
  }

  // ----- the derived byte cap

  /** The derived cap is always one the API accepts and no smaller than the provider's minimum. */
  lemma DerivedCapBounds(cap: real)
    ensures 10_485_760 <= CostCapToMaxBytesBilled(cap) <= 9_223_372_036_854_775_807
  {
  }

  lemma DerivedCapMonotone(c1: real, c2: real)
    requires 0.0 <= c1 <= c2
    ensures CostCapToMaxBytesBilled(c1) <= CostCapToMaxBytesBilled(c2)
  {
  }

  /** Bytes that fit below the int64 ceiling after rounding up. */
  const MAX_ROUNDABLE: int := INT64_MAX + 1 - MIB

  /**
   For the unrounded price: what the dollar gate admits, the provider admits under the derived cap.
   */
  lemma GateAdmitsProviderAdmits(b: int, cap: real)
    requires 0 <= b <= MAX_ROUNDABLE && 0.0 <= cap && Price(b) <= cap
    ensures BilledBytes(b) <= CostCapToMaxBytesBilled(cap)
  {
  }

  /**
   The provider admits exactly the byte counts that do not exceed the derived cap; in the caller's
   own terms, the bytes the dollars buy, rounded up to a MiB, or the 10 MiB minimum.
   */
  lemma ProviderAdmitsIff(b: int, cap: real)
    requires 0 <= b <= MAX_ROUNDABLE && 0.0 <= cap
    ensures BilledBytes(b) <= CostCapToMaxBytesBilled(cap) <==> b <= CostCapToMaxBytesBilled(cap)
    ensures BilledBytes(b) <= CostCapToMaxBytesBilled(cap) <==>
              b <= 10_485_760 || b <= CeilToMib((cap / 6.25 * 1_099_511_627_776.0).Floor)
  {
  }

  /** Half a unit of the sixth decimal buys less than a MiB. */
  lemma HalfUnitUnderOneMib(cap: real)
    requires 0.0 <= cap
    ensures CostCapToMaxBytesBilled(cap + 0.0000005) <= CostCapToMaxBytesBilled(cap) + MIB
  {
  }

  /** With the six-decimal figure of the gate the bill may pass the derived cap, by one MiB at most. */
  lemma RoundedGateOvershoot(b: int, cap: real)
    requires 0 <= b <= MAX_ROUNDABLE && 0.0 <= cap && DryRunFigure(b) <= cap
    ensures BilledBytes(b) <= CostCapToMaxBytesBilled(cap) + MIB
  {
    Round6Law(Price(b), Price(b));
    GateAdmitsProviderAdmits(b, cap + 0.0000005);
    HalfUnitUnderOneMib(cap);
  }

  /**
   Which dollar caps the rounded gate lets a bill pass: exactly those whose derived cap, one byte
   more, still rounds to an admitted figure. A derived cap at the int64 ceiling refuses nothing.
   */
  lemma RoundedGateOvershootsIff(cap: real)
    requires 0.0 <= cap
    ensures (exists b: int :: Overshoots(b, cap)) <==>
              (var least := CostCapToMaxBytesBilled(cap) + 1; least <= MAX_ROUNDABLE && DryRunFigure(least) <= cap)
  {
    var least := CostCapToMaxBytesBilled(cap) + 1;
    DerivedCapBounds(cap);
    forall b: int | Overshoots(b, cap)
      ensures least <= b && DryRunFigure(least) <= DryRunFigure(b)
    {
      ProviderAdmitsIff(b, cap);
      PriceGrows(least, b);
      Round6Law(Price(least), Price(b));
    }
    if least <= MAX_ROUNDABLE {
      ProviderAdmitsIff(least, cap);
      assert DryRunFigure(least) <= cap ==> Overshoots(least, cap);
    }
  }

  /** A byte count the rounded gate admits and the provider refuses. */
  predicate Overshoots(b: int, cap: real) {
    0 <= b <= MAX_ROUNDABLE && DryRunFigure(b) <= cap && BilledBytes(b) > CostCapToMaxBytesBilled(cap)
  }

  lemma PriceGrows(b1: int, b2: int)
    requires b1 <= b2
    ensures Price(b1) <= Price(b2)
  {
  }

  lemma RoundsDown(x: real, n: int)
    requires n as real <= x < n as real + 0.5
    ensures RoundHalfEven(x) == n
  {
    assert x.Floor == n;
  }

  /** 6.25 dollars buy a TiB. */
  lemma CapOfOneTib()
    ensures CostCapToMaxBytesBilled(6.25) == 1_099_511_627_776
  {
    assert RawBytes(6.25) == 1_099_511_627_776.0;
  }

  lemma PriceAboveOneTib()
    ensures 6_250_000.0 <= Price(1_099_511_627_777) * 1000000.0 < 6_250_000.5
  {
  }

  /** One byte above a TiB shows that the rounded figure can be admitted where the provider refuses. */
  lemma RoundedGateCanOvershoot()
    ensures var b, cap := 1_099_511_627_777, 6.25;
            DryRunFigure(b) <= cap && BilledBytes(b) > CostCapToMaxBytesBilled(cap)
  {
    var b := 1_099_511_627_777;
    PriceAboveOneTib();
    RoundsDown(Price(b) * 1000000.0, 6_250_000);
    CapOfOneTib();
    BilledBytesIsLeast(b, 0);
  }

  /** A bill within the derived cap costs less than the dollar cap plus one MiB, unless at the minimum. */
  lemma BillStaysNearCap(billed: int, cap: real)
    requires 0.0 <= cap && 0 <= billed <= CostCapToMaxBytesBilled(cap)
    ensures Price(billed) < cap + Price(MIB) || CostCapToMaxBytesBilled(cap) == MIN_MAXIMUM_BYTES_BILLED
  {
  }
}
