/**
 * The affordability verdict of the cost model (scripts/verify-cost-model.ts:892-922, 1031-1121):
 * for which prices a ceiling that covers one load covers every smaller one.
 */
module CostCeilings {
  import opened Wrappers
  import opened CostModel

  // ----- rounding keeps the order of costs

  lemma FloorMonotone(a: real, b: real)
    requires a <= b
    ensures a.Floor <= b.Floor
  {
  }

  lemma CentsMonotone(a: int, b: int)
    requires a <= b
    ensures a as real / 100.0 <= b as real / 100.0
  {
  }

  lemma RoundingMonotone(a: real, b: real)
    requires a <= b
    ensures RoundCents(a) <= RoundCents(b)
  {
    FloorMonotone(a * 100.0 + 0.5, b * 100.0 + 0.5);
    CentsMonotone((a * 100.0 + 0.5).Floor, (b * 100.0 + 0.5).Floor);
  }

  // ----- the unrounded cost of a load

  function Times(quantity: real, rate: real): real {
    quantity * rate
  }

  /** The part of a load above `k`, and the part below. */
  function Above(x: real, k: real): real {
    AtLeastZero(x - k)
  }

  function Below(x: real, k: real): real {
    if x < k then x else k
  }

  /**
   * With `a` per million requests above `k1`, and `b` per million above `k2` (or below it, when
   * a request takes negative time), no stretch between the kinks has a falling cost.
   */
  predicate GrowthCondition(k1: real, k2: real, up: bool, a: real, b: real) {
    if up then a + b >= 0.0 && (k1 < k2 ==> a >= 0.0) && (k2 < k1 ==> b >= 0.0)
    else a >= 0.0 && (k1 > 0.0 && k2 > 0.0 ==> b >= 0.0) && (k1 < k2 ==> a + b >= 0.0)
  }

  predicate RisingPrices(p: Pricing) {
    if p.cpuMsPerRequest == 0.0 then p.requestUsdPerMillion >= 0.0
    else GrowthCondition(RequestKink(p), CpuKink(p), p.cpuMsPerRequest > 0.0, p.requestUsdPerMillion, CpuRate(p))
  }

  function RequestKink(p: Pricing): real {
    AtLeastZero(p.includedRequests)
  }

  function CpuKink(p: Pricing): real
    requires p.cpuMsPerRequest != 0.0
  {
    AtLeastZero(p.includedCpuMs / p.cpuMsPerRequest)
  }

  function CpuRate(p: Pricing): real {
    p.cpuMsPerRequest * p.cpuUsdPerMillionMs
  }

  lemma ChargeAbove(x: real, included: real, price: real)
    requires x >= 0.0
    ensures Charge(x - included, price) == (Above(x, AtLeastZero(included)) + AtLeastZero(-included)) / 1_000_000.0 * price
  {
  }

  lemma Spread(x: real, y: real, d: real, price: real)
    ensures (y + d) / 1_000_000.0 * price - (x + d) / 1_000_000.0 * price == (y - x) * price / 1_000_000.0
  {
    assert (y + d) / 1_000_000.0 - (x + d) / 1_000_000.0 == (y - x) / 1_000_000.0;
    assert ((y + d) / 1_000_000.0 - (x + d) / 1_000_000.0) * price == (y - x) / 1_000_000.0 * price;
  }

  /** What one charge adds from a load to another. */
  lemma ChargeGrows(x: real, y: real, included: real, price: real)
    requires x >= 0.0 && y >= 0.0
    ensures var k := AtLeastZero(included);
            Charge(y - included, price) - Charge(x - included, price) == Times(Above(y, k) - Above(x, k), price) / 1_000_000.0
  {
    hide Charge, Above;
    var k := AtLeastZero(included);
    ChargeAbove(x, included, price);
    ChargeAbove(y, included, price);
    Spread(Above(x, k), Above(y, k), AtLeastZero(-included), price);
  }

  lemma ProductSign(d: real, c: real)
    ensures (d >= 0.0 && c >= 0.0) || (d <= 0.0 && c <= 0.0) ==> Times(d, c) >= 0.0
    ensures (d >= 0.0 && c <= 0.0) || (d <= 0.0 && c >= 0.0) ==> Times(d, c) <= 0.0
    ensures Times(d, c) == 0.0 <==> d == 0.0 || c == 0.0
  {
  }

  lemma ScaledAbove(x: real, c: real, included: real)
    requires c > 0.0
    ensures AtLeastZero(x * c - included) == c * AtLeastZero(x - included / c)
  {
    var k := included / c;
    assert x * c - included == Times(x - k, c);
    ProductSign(x - k, c);
  }

  lemma ScaledBelow(x: real, c: real, included: real)
    requires c < 0.0
    ensures AtLeastZero(x * c - included) == c * (Below(x, included / c) - included / c)
  {
    var k := included / c;
    assert x * c - included == Times(x - k, c);
    ProductSign(x - k, c);
  }

  lemma AboveClamped(x: real, y: real, k: real)
    requires x >= 0.0 && y >= 0.0
    ensures AtLeastZero(y - k) - AtLeastZero(x - k) == Above(y, AtLeastZero(k)) - Above(x, AtLeastZero(k))
    ensures Below(y, k) - Below(x, k) == Below(y, AtLeastZero(k)) - Below(x, AtLeastZero(k))
  {
  }

  function Scaled(u: real, c: real, price: real): real {
    c * u / 1_000_000.0 * price
  }

  lemma ScaledStep(u: real, v: real, c: real, price: real)
    ensures Scaled(v, c, price) - Scaled(u, c, price) == Times(v - u, c * price) / 1_000_000.0
  {
    assert c * v / 1_000_000.0 * price == v * (c * price) / 1_000_000.0;
    assert c * u / 1_000_000.0 * price == u * (c * price) / 1_000_000.0;
  }

  function Beyond(x: real, k: real, up: bool): real {
    if up then Above(x, k) else Below(x, k)
  }

  lemma CpuCharge(x: real, p: Pricing)
    requires p.cpuMsPerRequest != 0.0
    ensures var c, k0 := p.cpuMsPerRequest, p.includedCpuMs / p.cpuMsPerRequest;
            Charge(CpuMs(x, p) - p.includedCpuMs, p.cpuUsdPerMillionMs) ==
            Scaled(if c > 0.0 then Above(x, k0) else Below(x, k0) - k0, c, p.cpuUsdPerMillionMs)
  {
    if p.cpuMsPerRequest > 0.0 {
      ScaledAbove(x, p.cpuMsPerRequest, p.includedCpuMs);
    } else {
      ScaledBelow(x, p.cpuMsPerRequest, p.includedCpuMs);
    }
    hide AtLeastZero, Below;
  }

  /** What the processor charge adds from a load to another. */
  lemma CpuGrows(x: real, y: real, p: Pricing)
    requires x >= 0.0 && y >= 0.0 && p.cpuMsPerRequest != 0.0
    ensures var up := p.cpuMsPerRequest > 0.0;
            Charge(CpuMs(y, p) - p.includedCpuMs, p.cpuUsdPerMillionMs)
            - Charge(CpuMs(x, p) - p.includedCpuMs, p.cpuUsdPerMillionMs)
            == Times(Beyond(y, CpuKink(p), up) - Beyond(x, CpuKink(p), up), CpuRate(p)) / 1_000_000.0
  {
    var c, price := p.cpuMsPerRequest, p.cpuUsdPerMillionMs;
    var k0 := p.includedCpuMs / c;
    var u := if c > 0.0 then Above(x, k0) else Below(x, k0) - k0;
    var v := if c > 0.0 then Above(y, k0) else Below(y, k0) - k0;
    var d := Beyond(y, CpuKink(p), c > 0.0) - Beyond(x, CpuKink(p), c > 0.0);
    AboveClamped(x, y, k0);
    assert v - u == d;
    CpuCharge(x, p);
    CpuCharge(y, p);
    ScaledStep(u, v, c, price);
    assert CpuRate(p) == c * price;
    hide Charge, CpuMs, AtLeastZero, Above, Below, Beyond, CpuKink, Scaled, Times, CpuRate;
  }

  /** Rates `a` and `b` on how much of the step from `x` to `y` lies above `k1`, and above or below `k2`. */
  function Growth(x: real, y: real, k1: real, k2: real, up: bool, a: real, b: real): real {
    Times(Above(y, k1) - Above(x, k1), a) + Times(Beyond(y, k2, up) - Beyond(x, k2, up), b)
  }

  function GrowthOf(x: real, y: real, p: Pricing): real
    requires p.cpuMsPerRequest != 0.0
  {
    Growth(x, y, RequestKink(p), CpuKink(p), p.cpuMsPerRequest > 0.0, p.requestUsdPerMillion, CpuRate(p))
  }

  lemma CostGrows(x: real, y: real, p: Pricing)
    requires x >= 0.0 && y >= 0.0 && p.cpuMsPerRequest != 0.0
    ensures RawCost(y, p) - RawCost(x, p) == GrowthOf(x, y, p) / 1_000_000.0
  {
    ChargeGrows(x, y, p.includedRequests, p.requestUsdPerMillion);
    CpuGrows(x, y, p);
    hide Charge, Above, Beyond, AtLeastZero, CpuMs, CpuKink, CpuRate, Times;
  }

  lemma Scale(d: real, e: real, a: real, b: real)
    requires 0.0 <= e <= d && a >= 0.0 && a + b >= 0.0
    ensures Times(d, a) + Times(e, b) >= 0.0
  {
    assert (d - e) * a >= 0.0;
    assert e * (a + b) >= 0.0;
    assert d * a + e * b == (d - e) * a + e * (a + b);
  }

  lemma Sum(d: real, e: real, a: real, b: real)
    requires d >= 0.0 && e >= 0.0 && (d == 0.0 || a >= 0.0) && (e == 0.0 || b >= 0.0)
    ensures Times(d, a) + Times(e, b) >= 0.0
  {
    assert d * a >= 0.0;
    assert e * b >= 0.0;
  }

  lemma Same(d: real, a: real, b: real)
    requires d >= 0.0 && a + b >= 0.0
    ensures Times(d, a) + Times(d, b) >= 0.0
  {
    assert d * a + d * b == d * (a + b);
  }

  /** The two rates never lower the cost under the condition on the two kinks. */
  lemma GrowthNonNegative(x: real, y: real, k1: real, k2: real, up: bool, a: real, b: real)
    requires 0.0 <= x <= y && k1 >= 0.0 && k2 >= 0.0 && GrowthCondition(k1, k2, up, a, b)
    ensures Growth(x, y, k1, k2, up, a, b) >= 0.0
  {
    var d := Above(y, k1) - Above(x, k1);
    var e := Beyond(y, k2, up) - Beyond(x, k2, up);
    assert d >= 0.0 && e >= 0.0;
    if up {
      if k1 < k2 {
        Scale(d, e, a, b);
      } else if k2 < k1 {
        Scale(e, d, b, a);
      } else {
        Same(d, a, b);
      }
    } else if k1 > 0.0 || k2 == 0.0 {
      Sum(d, e, a, b);
    } else {
      Scale(d, e, a, b);
    }
  }

  /** A step within one stretch between the kinks: the cost grows at one rate. */
  lemma GrowthWitness(k1: real, k2: real, up: bool, a: real, b: real)
    requires k1 >= 0.0 && k2 >= 0.0
    ensures up && k1 < k2 ==> Growth(k1, k2, k1, k2, up, a, b) == Times(k2 - k1, a)
    ensures up && k2 < k1 ==> Growth(k2, k1, k1, k2, up, a, b) == Times(k1 - k2, b)
    ensures var k := if k1 < k2 then k2 else k1;
            Growth(k, k + 1.0, k1, k2, up, a, b) == if up then a + b else a
    ensures !up && k1 < k2 ==> Growth(k1, k2, k1, k2, up, a, b) == Times(k2 - k1, a + b)
    ensures !up && k1 > 0.0 && k2 > 0.0 ==>
              var k := if k1 < k2 then k1 else k2;
              Growth(0.0, k, k1, k2, up, a, b) == Times(k, b)
  {
  }

  lemma PositiveFactor(d: real, r: real)
    requires d > 0.0 && Times(d, r) >= 0.0
    ensures r >= 0.0
  {
    ProductSign(d, r);
  }

  ghost predicate GrowthRises(k1: real, k2: real, up: bool, a: real, b: real) {
    forall x, y :: 0.0 <= x <= y ==> Growth(x, y, k1, k2, up, a, b) >= 0.0
  }

  lemma ConditionNeeded(k1: real, k2: real, up: bool, a: real, b: real)
    requires k1 >= 0.0 && k2 >= 0.0 && GrowthRises(k1, k2, up, a, b)
    ensures GrowthCondition(k1, k2, up, a, b)
  {
    GrowthWitness(k1, k2, up, a, b);
    hide Growth, Times;
    var top, low := if k1 < k2 then k2 else k1, if k1 < k2 then k1 else k2;
    assert Growth(top, top + 1.0, k1, k2, up, a, b) >= 0.0;
    assert Growth(low, top, k1, k2, up, a, b) >= 0.0;
    assert Growth(0.0, low, k1, k2, up, a, b) >= 0.0;
    hide GrowthRises;
    if k1 < k2 {
      PositiveFactor(k2 - k1, if up then a else a + b);
    }
    if up && k2 < k1 {
      PositiveFactor(k1 - k2, b);
    }
    if !up && k1 > 0.0 && k2 > 0.0 {
      PositiveFactor(low, b);
    }
  }

  /** The cost before rounding never falls when the load rises. */
  ghost predicate RawCostRises(p: Pricing) {
    forall x, y :: 0.0 <= x <= y ==> RawCost(x, p) <= RawCost(y, p)
  }

  lemma NoCpuGrows(x: real, y: real, p: Pricing)
    requires x >= 0.0 && y >= 0.0 && p.cpuMsPerRequest == 0.0
    ensures RawCost(y, p) - RawCost(x, p) ==
            Times(Above(y, RequestKink(p)) - Above(x, RequestKink(p)), p.requestUsdPerMillion) / 1_000_000.0
  {
    assert CpuMs(x, p) == CpuMs(y, p) == 0.0;
    hide Charge, Above, AtLeastZero, CpuMs;
    ChargeGrows(x, y, p.includedRequests, p.requestUsdPerMillion);
  }

  lemma NoCpuRisesExactly(p: Pricing)
    requires p.cpuMsPerRequest == 0.0
    ensures RawCostRises(p) <==> p.requestUsdPerMillion >= 0.0
  {
    hide RawCost;
    var k, a := RequestKink(p), p.requestUsdPerMillion;
    if a >= 0.0 {
      forall x, y | 0.0 <= x <= y ensures RawCost(x, p) <= RawCost(y, p) {
        NoCpuGrows(x, y, p);
        Sum(Above(y, k) - Above(x, k), 0.0, a, 0.0);
      }
    }
    if RawCostRises(p) {
      NoCpuGrows(k, k + 1.0, p);
      assert RawCost(k, p) <= RawCost(k + 1.0, p);
    }
  }

  lemma KinksNonNegative(p: Pricing)
    requires p.cpuMsPerRequest != 0.0
    ensures RequestKink(p) >= 0.0 && CpuKink(p) >= 0.0
  {
  }

  /** The unrounded cost rises along all loads exactly for rising prices. */
  lemma RawCostRisesExactly(p: Pricing)
    ensures RawCostRises(p) <==> RisingPrices(p)
  {
    hide RawCost, GrowthCondition;
    if p.cpuMsPerRequest == 0.0 {
      NoCpuRisesExactly(p);
    } else {
      KinksNonNegative(p);
      var k1, k2, up, a, b := RequestKink(p), CpuKink(p), p.cpuMsPerRequest > 0.0, p.requestUsdPerMillion, CpuRate(p);
      hide Growth, RequestKink, CpuKink, CpuRate;
      if RawCostRises(p) {
        forall x, y | 0.0 <= x <= y ensures Growth(x, y, k1, k2, up, a, b) >= 0.0 {
          CostGrows(x, y, p);
        }
        ConditionNeeded(k1, k2, up, a, b);
      }
      if RisingPrices(p) {
        forall x, y | 0.0 <= x <= y ensures RawCost(x, p) <= RawCost(y, p) {
          CostGrows(x, y, p);
          GrowthNonNegative(x, y, k1, k2, up, a, b);
        }
      }
    }
  }

  /** Prices that are not negative rise. */
  lemma NonNegativePricesRise(p: Pricing)
    requires p.requestUsdPerMillion >= 0.0 && p.cpuUsdPerMillionMs >= 0.0 && p.cpuMsPerRequest >= 0.0
    ensures RisingPrices(p)
  {
    ProductSign(p.cpuMsPerRequest, p.cpuUsdPerMillionMs);
    hide RequestKink, CpuKink;
  }

  // ----- the rounded cost of the loads the verifier costs

  function MonthLoad(rate: nat): real {
    (rate * SECONDS_PER_DAY * DAYS_PER_MONTH) as real
  }

  /** The rounded cost of a month at a rate. */
  function LoadCost(rate: nat, p: Pricing): real {
    RoundCents(RawCost(MonthLoad(rate), p))
  }

  /** Which of the two included parts a load exceeds. */
  function ZoneOf(x: real, p: Pricing): (bool, bool) {
    (x > p.includedRequests, CpuMs(x, p) > p.includedCpuMs)
  }

  predicate SameZone(m: nat, n: nat, p: Pricing) {
    ZoneOf(MonthLoad(m), p) == ZoneOf(MonthLoad(n), p)
  }

  function Slope(zone: (bool, bool), p: Pricing): real {
    (if zone.0 then p.requestUsdPerMillion else 0.0) + (if zone.1 then CpuRate(p) else 0.0)
  }

  lemma ChargeLine(u: real, v: real, price: real)
    requires u > 0.0 <==> v > 0.0
    ensures Charge(v, price) - Charge(u, price) == if u > 0.0 then (v - u) / 1_000_000.0 * price else 0.0
  {
    if u > 0.0 {
      assert (v / 1_000_000.0 - u / 1_000_000.0) * price == v / 1_000_000.0 * price - u / 1_000_000.0 * price;
    }
  }

  lemma SlopeParts(d: real, a: real, c: real, price: real)
    ensures d / 1_000_000.0 * a == Times(d, a) / 1_000_000.0
    ensures Times(d, c) / 1_000_000.0 * price == Times(d, c * price) / 1_000_000.0
  {
  }

  lemma TimesSum(d: real, a: real, b: real)
    ensures Times(d, a + b) == Times(d, a) + Times(d, b) && Times(d, 0.0) == 0.0
  {
  }

  lemma CpuLine(x: real, y: real, p: Pricing)
    ensures CpuMs(y, p) - CpuMs(x, p) == Times(y - x, p.cpuMsPerRequest)
  {
  }

  /** Within a zone the cost is a line. */
  lemma ZoneLine(x: real, y: real, p: Pricing)
    requires ZoneOf(x, p) == ZoneOf(y, p)
    ensures RawCost(y, p) - RawCost(x, p) == Times(y - x, Slope(ZoneOf(x, p), p)) / 1_000_000.0
  {
    ChargeLine(x - p.includedRequests, y - p.includedRequests, p.requestUsdPerMillion);
    ChargeLine(CpuMs(x, p) - p.includedCpuMs, CpuMs(y, p) - p.includedCpuMs, p.cpuUsdPerMillionMs);
    SlopeParts(y - x, p.requestUsdPerMillion, p.cpuMsPerRequest, p.cpuUsdPerMillionMs);
    CpuLine(x, y, p);
    TimesSum(y - x, p.requestUsdPerMillion, CpuRate(p));
    hide Charge, CpuMs, Times;
  }

  lemma CpuBetween(x: real, z: real, y: real, p: Pricing)
    requires x <= z <= y
    ensures CpuMs(x, p) <= CpuMs(z, p) <= CpuMs(y, p) || CpuMs(x, p) >= CpuMs(z, p) >= CpuMs(y, p)
  {
    CpuLine(x, z, p);
    CpuLine(z, y, p);
    ProductSign(z - x, p.cpuMsPerRequest);
    ProductSign(y - z, p.cpuMsPerRequest);
    hide CpuMs, Times;
  }

  lemma ZoneConvex(m: nat, k: nat, n: nat, p: Pricing)
    requires m <= k <= n && SameZone(m, n, p)
    ensures SameZone(m, k, p)
  {
    CpuBetween(MonthLoad(m), MonthLoad(k), MonthLoad(n), p);
    hide CpuMs;
  }

  /** Within a zone, the rounded cost moves one way. */
  lemma ZoneMonotone(m: nat, n: nat, p: Pricing)
    requires m <= n && SameZone(m, n, p)
    ensures var slope := Slope(ZoneOf(MonthLoad(m), p), p);
            && (slope >= 0.0 ==> LoadCost(m, p) <= LoadCost(n, p))
            && (slope <= 0.0 ==> LoadCost(m, p) >= LoadCost(n, p))
  {
    var x, y := MonthLoad(m), MonthLoad(n);
    var slope := Slope(ZoneOf(x, p), p);
    ZoneLine(x, y, p);
    ProductSign(y - x, slope);
    hide RawCost, RoundCents, Slope, Times;
    if slope >= 0.0 {
      RoundingMonotone(RawCost(x, p), RawCost(y, p));
    }
    if slope <= 0.0 {
      RoundingMonotone(RawCost(y, p), RawCost(x, p));
    }
  }

  /** A rate whose month the verifier costs under these prices. */
  predicate Accepted(rate: nat, p: Pricing) {
    Costed(rate, Some(p))
  }

  /** The first or the last accepted rate of its zone; there are at most three zones. */
  ghost predicate AtEdge(rate: nat, p: Pricing) {
    && Accepted(rate, p)
    && ((forall k: nat :: k < rate && Accepted(k, p) ==> !SameZone(k, rate, p))
        || (forall k: nat :: rate < k && Accepted(k, p) ==> !SameZone(k, rate, p)))
  }

  lemma {:induction false} FirstOfZone(rate: nat, p: Pricing) returns (first: nat)
    requires Accepted(rate, p)
    ensures first <= rate && AtEdge(first, p) && SameZone(first, rate, p)
    decreases rate
  {
    hide Costed, ZoneOf, Accepted;
    if k: nat :| k < rate && Accepted(k, p) && SameZone(k, rate, p) {
      first := FirstOfZone(k, p);
    } else {
      first := rate;
    }
  }

  lemma AcceptedBelow(rate: nat, p: Pricing)
    requires Accepted(rate, p)
    ensures rate <= MAX_SAFE_INTEGER
  {
  }

  lemma {:induction false} LastOfZone(rate: nat, p: Pricing) returns (last: nat)
    requires Accepted(rate, p)
    ensures rate <= last && AtEdge(last, p) && SameZone(last, rate, p)
    decreases MAX_SAFE_INTEGER - rate
  {
    hide Costed, ZoneOf, Accepted;
    if k: nat :| rate < k && Accepted(k, p) && SameZone(k, rate, p) {
      AcceptedBelow(k, p);
      last := LastOfZone(k, p);
    } else {
      last := rate;
    }
  }

  /** The rounded cost never falls from one accepted rate to a larger one. */
  ghost predicate CostRises(p: Pricing) {
    forall m: nat, n: nat :: m <= n && Accepted(m, p) && Accepted(n, p) ==> LoadCost(m, p) <= LoadCost(n, p)
  }

  /** The same between the edges of the zones alone: at most six rates. */
  ghost predicate EdgesRise(p: Pricing) {
    forall m: nat, n: nat :: m <= n && AtEdge(m, p) && AtEdge(n, p) ==> LoadCost(m, p) <= LoadCost(n, p)
  }

  lemma CostRisesWithin(m: nat, n: nat, p: Pricing)
    requires EdgesRise(p) && m <= n && Accepted(m, p) && Accepted(n, p) && SameZone(m, n, p)
    ensures LoadCost(m, p) <= LoadCost(n, p)
  {
    var f := FirstOfZone(m, p);
    var l := LastOfZone(n, p);
    assert LoadCost(f, p) <= LoadCost(l, p);
    ZoneMonotone(f, m, p);
    ZoneMonotone(m, n, p);
    ZoneMonotone(n, l, p);
    hide LoadCost, ZoneOf, Slope, AtEdge, EdgesRise;
  }

  /** The edges decide: between them the cost moves one way, and across them they are compared. */
  lemma CostRisesExactly(p: Pricing)
    ensures CostRises(p) <==> EdgesRise(p)
  {
    hide LoadCost, ZoneOf, Accepted;
    if EdgesRise(p) {
      forall m: nat, n: nat | m <= n && Accepted(m, p) && Accepted(n, p) ensures LoadCost(m, p) <= LoadCost(n, p) {
        if SameZone(m, n, p) {
          CostRisesWithin(m, n, p);
        } else {
          CostRisesAcross(m, n, p);
        }
      }
    }
  }

  lemma CostRisesAcross(m: nat, n: nat, p: Pricing)
    requires EdgesRise(p) && m <= n && Accepted(m, p) && Accepted(n, p) && !SameZone(m, n, p)
    ensures LoadCost(m, p) <= LoadCost(n, p)
  {
    hide LoadCost, ZoneOf, Accepted;
    var l := LastOfZone(m, p);
    var f := FirstOfZone(n, p);
    if n <= l {
      ZoneConvex(m, n, l, p);
    }
    if f <= m {
      ZoneConvex(f, m, n, p);
    }
    if f <= l {
      ZoneConvex(m, f, l, p);
    }
    assert LoadCost(l, p) <= LoadCost(f, p);
    CostRisesWithin(m, l, p);
    CostRisesWithin(f, n, p);
  }

  /** Prices under which the unrounded cost rises pass the test at the edges. */
  lemma RisingPricesSuffice(p: Pricing)
    requires RisingPrices(p)
    ensures EdgesRise(p)
  {
    RawCostRisesExactly(p);
    hide RawCost, RoundCents, RisingPrices, AtEdge;
    forall m: nat, n: nat | m <= n && AtEdge(m, p) && AtEdge(n, p) ensures LoadCost(m, p) <= LoadCost(n, p) {
      assert 0.0 <= MonthLoad(m) <= MonthLoad(n);
      RoundingMonotone(RawCost(MonthLoad(m), p), RawCost(MonthLoad(n), p));
    }
  }

  /** There are at most three zones ... */
  lemma ThreeZones(a: nat, b: nat, c: nat, d: nat, p: Pricing)
    ensures SameZone(a, b, p) || SameZone(a, c, p) || SameZone(a, d, p)
            || SameZone(b, c, p) || SameZone(b, d, p) || SameZone(c, d, p)
  {
    ZonesOrdered(a, b, p);
    ZonesOrdered(a, c, p);
    ZonesOrdered(a, d, p);
    ZonesOrdered(b, c, p);
    ZonesOrdered(b, d, p);
    ZonesOrdered(c, d, p);
    hide CpuMs;
  }

  /** ... with a first and a last rate each: at most six edges are to be compared. */
  lemma TwoEdges(a: nat, b: nat, c: nat, p: Pricing)
    requires AtEdge(a, p) && AtEdge(b, p) && AtEdge(c, p) && SameZone(a, b, p) && SameZone(b, c, p)
    ensures a == b || b == c || a == c
  {
    hide ZoneOf, Accepted;
  }

  /** Loads cannot differ in both parts one way for one sign of the time per request, nor the other way for the other. */
  lemma ZonesOrdered(m: nat, n: nat, p: Pricing)
    ensures var x, y := ZoneOf(MonthLoad(m), p), ZoneOf(MonthLoad(n), p);
            && (p.cpuMsPerRequest > 0.0 ==> !(x == (true, false) && y == (false, true)))
            && (p.cpuMsPerRequest > 0.0 ==> !(y == (true, false) && x == (false, true)))
            && (p.cpuMsPerRequest <= 0.0 ==> !(x == (true, true) && y == (false, false)))
            && (p.cpuMsPerRequest <= 0.0 ==> !(y == (true, true) && x == (false, false)))
  {
    CpuLine(MonthLoad(m), MonthLoad(n), p);
    ProductSign(MonthLoad(n) - MonthLoad(m), p.cpuMsPerRequest);
    hide CpuMs, Times;
  }

  // ----- the ceiling over declared inputs

  lemma CostOfInput(input: Input)
    requires Calculate(input).Ok? && input.ceiling.Some?
    ensures var w, p := Calculate(input).value, input.ceiling.value.pricing;
            && Accepted(w.cursorRate, p) && w.cost == Some(LoadCost(w.cursorRate, p))
            && w.ceiling == input.ceiling && PeakRate(input) == w.cursorRate as real
  {
    CalculateDerives(input);
    BaseRateExact(input, Calculate(input).value);
    hide Calculate, LoadsDerived, RawCost, RoundCents, SafeProduct, CpuMs, PeakRate, BaseRate, Ratio;
  }

  /** Under one ceiling, if the larger load is covered then so is the smaller one. */
  predicate CoveredDown(small: Input, large: Input) {
    Calculate(small).Ok? && Calculate(large).Ok? && PeakRate(small) <= PeakRate(large)
    && Resolutions(Calculate(large).value) != []
    ==> Resolutions(Calculate(small).value) != []
  }

  predicate UnderOneCeiling(small: Input, large: Input, p: Pricing) {
    small.ceiling.Some? && small.ceiling == large.ceiling && small.ceiling.value.pricing == p
  }

  lemma CostDecides(small: Input, large: Input, p: Pricing)
    requires CostRises(p) && UnderOneCeiling(small, large, p)
    ensures CoveredDown(small, large)
  {
    hide Calculate, LoadCost, Accepted, PeakRate;
    if Calculate(small).Ok? && Calculate(large).Ok? && PeakRate(small) <= PeakRate(large) {
      CostOfInput(small);
      CostOfInput(large);
      var m, n := Calculate(small).value.cursorRate, Calculate(large).value.cursorRate;
      assert LoadCost(m, p) <= LoadCost(n, p);
    }
  }

  /** An input whose peak rate and ceiling are given. */
  function LoadInput(rate: nat, ceiling: Ceiling): Input {
    Witness({}).(lurkers := Whole(rate), cursorPoll := Whole(1), burst := None, ceiling := Some(ceiling))
  }

  lemma LoadAccepted(rate: nat, ceiling: Ceiling)
    requires Accepted(rate, ceiling.pricing)
    ensures Calculate(LoadInput(rate, ceiling)).Ok? && Calculate(LoadInput(rate, ceiling)).value.cursorRate == rate
    ensures LoadInput(rate, ceiling).ceiling == Some(ceiling)
  {
    hide Calculate, SafeProduct, CpuMs;
    AcceptedExactly(LoadInput(rate, ceiling));
    AcceptedBelow(rate, ceiling.pricing);
    assert Calculate(LoadInput(rate, ceiling)).Ok?;
    CalculateDerives(LoadInput(rate, ceiling));
    hide PeaksDerived, ProductsSafe, RawCost, RoundCents;
  }

  /** A fall in cost between two accepted rates is a ceiling that covers only the larger load. */
  lemma FallIsRefused(m: nat, n: nat, p: Pricing)
    requires m <= n && Accepted(m, p) && Accepted(n, p) && LoadCost(m, p) > LoadCost(n, p)
    ensures var ceiling := Ceiling(LoadCost(n, p), "2026-08-17", p);
            && UnderOneCeiling(LoadInput(m, ceiling), LoadInput(n, ceiling), p)
            && !CoveredDown(LoadInput(m, ceiling), LoadInput(n, ceiling))
  {
    var ceiling := Ceiling(LoadCost(n, p), "2026-08-17", p);
    hide Calculate, LoadCost, Accepted, PeakRate;
    LoadAccepted(m, ceiling);
    LoadAccepted(n, ceiling);
    CostOfInput(LoadInput(m, ceiling));
    CostOfInput(LoadInput(n, ceiling));
  }

  /**
   * Under given prices every ceiling that covers a load covers every smaller one exactly when
   * the rounded cost does not fall between the edges of the zones.
   */
  lemma CoveringIsAntitoneExactly(p: Pricing)
    ensures (forall small, large :: UnderOneCeiling(small, large, p) ==> CoveredDown(small, large)) <==> EdgesRise(p)
  {
    hide CoveredDown, UnderOneCeiling, LoadInput, LoadCost, Accepted, EdgesRise;
    CostRisesExactly(p);
    if CostRises(p) {
      forall small, large | UnderOneCeiling(small, large, p) ensures CoveredDown(small, large) {
        CostDecides(small, large, p);
      }
    } else {
      var m: nat, n: nat :| m <= n && Accepted(m, p) && Accepted(n, p) && LoadCost(m, p) > LoadCost(n, p);
      FallIsRefused(m, n, p);
    }
  }

  /** Under such prices a ceiling that covers a load covers every smaller one, which is then not reported as exceeding it. */
  lemma CoveringIsAntitone(small: Input, large: Input)
    requires Calculate(small).Ok? && Calculate(large).Ok?
    requires small.ceiling == large.ceiling && small.ceiling.Some? && EdgesRise(small.ceiling.value.pricing)
    requires PeakRate(small) <= PeakRate(large)
    requires Resolutions(Calculate(large).value) != []
    ensures Resolutions(Calculate(small).value) != []
    ensures Exceeded !in Codes(Findings(Calculate(small).value))
  {
    hide Calculate, Resolutions, Findings, Codes, PeakRate, EdgesRise, CostRises;
    CostRisesExactly(small.ceiling.value.pricing);
    CostDecides(small, large, small.ceiling.value.pricing);
    VerdictExclusive(small);
  }

  lemma FloorIs(x: real, n: int)
    requires n as real <= x < n as real + 1.0
    ensures x.Floor == n
  {
  }

  const FALLING := Pricing("2026-08-17", 5.0, 0.0, -1.0, 0.0, 0.0, 0.0)

  lemma FallingCharges()
    ensures Charge(0.0, -1.0) == 0.0 && Charge(0.0, 0.0) == 0.0 && Charge(2_592_000.0, -1.0) == -2.592
  {
  }

  lemma FallingLine(x: real)
    ensures RawCost(x, FALLING) == 5.0 + Charge(x, -1.0) + Charge(0.0, 0.0)
  {
    assert CpuMs(x, FALLING) == 0.0;
    hide Charge, CpuMs;
  }

  lemma FallingMonths()
    ensures MonthLoad(0) == 0.0 && MonthLoad(1) == 2_592_000.0
  {
  }

  lemma FallingRaw()
    ensures RawCost(MonthLoad(0), FALLING) == 5.0 && RawCost(MonthLoad(1), FALLING) == 2.408
  {
    hide Charge, RawCost, MonthLoad;
    FallingMonths();
    FallingCharges();
    FallingLine(0.0);
    FallingLine(2_592_000.0);
  }

  lemma FallingRounded()
    ensures RoundCents(5.0) == 5.0 && RoundCents(2.408) == 2.41
  {
    FloorIs(500.5, 500);
    FloorIs(241.3, 241);
  }

  lemma FallingCosts()
    ensures LoadCost(0, FALLING) == 5.0 && LoadCost(1, FALLING) == 2.41
  {
    FallingRaw();
    FallingRounded();
    hide RawCost, RoundCents;
  }

  lemma FallingAccepted()
    ensures Accepted(0, FALLING) && Accepted(1, FALLING)
  {
    assert forall x :: CpuMs(x, FALLING) == 0.0;
    FloorIs(0.0, 0);
  }

  /**
   * The verifier takes prices as declared. With a negative one, and a ceiling of 3 over a base
   * of 5, a peak of one request per second is covered, at 2.41, and no requests at all are not.
   */
  lemma NegativePriceInverts()
    ensures var small, large := LoadInput(0, Ceiling(3.0, "2026-08-17", FALLING)), LoadInput(1, Ceiling(3.0, "2026-08-17", FALLING));
            && Calculate(small).Ok? && Calculate(large).Ok? && PeakRate(small) < PeakRate(large)
            && Resolutions(Calculate(large).value) != [] && Resolutions(Calculate(small).value) == []
            && Exceeded in Codes(Findings(Calculate(small).value))
  {
    hide Calculate, LoadCost, Accepted, PeakRate, PeakCost, Findings, Codes, LoadInput;
    var ceiling := Ceiling(3.0, "2026-08-17", FALLING);
    FallingCosts();
    FallingAccepted();
    LoadAccepted(0, ceiling);
    LoadAccepted(1, ceiling);
    CostOfInput(LoadInput(0, ceiling));
    CostOfInput(LoadInput(1, ceiling));
    VerdictExclusive(LoadInput(0, ceiling));
  }
}
