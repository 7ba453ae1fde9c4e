/**
 * The cost model's rounding and charges by what they are worth, and the error of a refused
 * input: the code of the first check that fails, in the order in which they are made.
 */
module CostErrors {
  import opened Wrappers
  import opened CostModel

  // ----- money

  predicate WholeCents(usd: real, cents: int) {
    usd * 100.0 == cents as real
  }

  /** Rounding gives whole cents, at most half a cent away, and the half cent goes up. */
  lemma RoundCentsExactly(usd: real, r: real)
    ensures r == RoundCents(usd) <==> (exists cents: int :: WholeCents(r, cents)) && r - 0.005 <= usd < r + 0.005
  {
    var rounded := RoundCents(usd);
    var cents := (usd * 100.0 + 0.5).Floor;
    assert WholeCents(rounded, cents);
    if r - 0.005 <= usd < r + 0.005 {
      if n: int :| WholeCents(r, n) {
        assert n as real <= usd * 100.0 + 0.5 < n as real + 1.0;
        assert n == cents;
      }
    }
  }

  /** Usage is free up to what is included; beyond it, each million costs its price. */
  lemma ChargeExactly(used: real, included: real, price: real)
    ensures Charge(used - included, price) * 1_000_000.0 == if used <= included then 0.0 else (used - included) * price
  {
    var excess := used - included;
    if excess > 0.0 {
      assert excess / 1_000_000.0 * 1_000_000.0 == excess;
      var share := excess / 1_000_000.0;
      assert share * price * 1_000_000.0 == (share * 1_000_000.0) * price;
    }
  }

  /** The base price, the requests over the included ones, and their processor time over the included one. */
  lemma RawCostExactly(requests: real, p: Pricing)
    ensures var cpu := requests * p.cpuMsPerRequest;
            (RawCost(requests, p) - p.baseUsd) * 1_000_000.0 ==
            (if requests <= p.includedRequests then 0.0 else (requests - p.includedRequests) * p.requestUsdPerMillion)
            + (if cpu <= p.includedCpuMs then 0.0 else (cpu - p.includedCpuMs) * p.cpuUsdPerMillionMs)
  {
    ChargeExactly(requests, p.includedRequests, p.requestUsdPerMillion);
    ChargeExactly(CpuMs(requests, p), p.includedCpuMs, p.cpuUsdPerMillionMs);
    hide Charge;
  }

  predicate Is(x: real, n: int) {
    x == n as real
  }

  /** A product is safe when it is a whole number less than two to the 53rd from zero. */
  lemma SafeProductExactly(x: real)
    ensures SafeProduct(x) <==> exists n: int :: Is(x, n) && -9_007_199_254_740_992 < n < 9_007_199_254_740_992
  {
    if SafeProduct(x) {
      assert Is(x, x.Floor);
    }
  }

  // ----- the checks, in order

  predicate Safe(n: int) {
    n < 9_007_199_254_740_992
  }

  /** A month of the rate stays within the safe range. */
  predicate MonthSafe(rate: int) {
    Safe(rate * 86_400 * 30)
  }

  predicate CpuSafe(input: Input) {
    input.ceiling.Some? ==>
      SafeProduct(CpuMs((PeakWhole(input) * 86_400 * 30) as real, input.ceiling.value.pricing))
  }

  /** The k-th check of the calculation. */
  predicate Passes(input: Input, k: nat) {
    match k
    case 0 => CountsOk(input)
    case 1 => Safe(N(input.fellows) * N(input.activeSeconds))
    case 2 => Divides(N(input.cursorPoll), N(input.lurkers))
    case 3 => Divides(N(input.packCadence), N(input.fellows) * N(input.activeSeconds))
    case 4 => Divides(N(input.workshopCadence), N(input.fellows) * N(input.activeSeconds))
    case 5 => Safe(N(input.fellows) * N(input.promotionsPerFellow))
    case 6 => Divides(30, N(input.tablePerMonth))
    case 7 => Safe(N(input.sizingFellows) * N(input.sizingActiveSeconds))
    case 8 => Divides(N(input.packCadence), N(input.sizingFellows) * N(input.sizingActiveSeconds))
    case 9 => MonthSafe(PeakWhole(input)) && CpuSafe(input)
    case 10 => MonthSafe(N(input.statedCursorRate))
    case 11 => Safe(N(input.sizingFellows) * N(input.activeSeconds))
    case 12 => Divides(N(input.packCadence), N(input.sizingFellows) * N(input.activeSeconds))
    case 13 => ClassesNamed(input.enumerated)
    case 14 => ClassesNamed(input.unenumerated)
    case 15 => input.burst.Some? ==> Safe(BurstLoad(PeakWhole(input), input.burst.value))
    case _ => true
  }

  /** A quotient that is not whole has its own code. */
  function CodeOfCheck(k: nat): Error {
    if k in {2, 3, 4, 6, 8, 12} then CadenceNotIntegral else InputInvalid
  }

  predicate FirstToFail(input: Input, k: nat) {
    !Passes(input, k) && forall j: nat :: j < k ==> Passes(input, j)
  }

  // ----- each step of the calculation, with its error

  lemma ProductStep(a: nat, b: nat)
    ensures CheckedProduct(a, b) == if Safe(a * b) then Ok(a * b) else Err(InputInvalid)
  {
  }

  lemma QuotientStep(a: nat, b: nat)
    requires b > 0
    ensures ExactQuotient(a, b) == if Divides(b, a) then Ok(a / b) else Err(CadenceNotIntegral)
  {
  }

  lemma MonthStep(rate: nat)
    ensures PerMonth(rate) == if MonthSafe(rate) then Ok(rate * 86_400 * 30) else Err(InputInvalid)
  {
  }

  lemma CostStep(month: nat, ceiling: Option<Ceiling>)
    ensures OptionalCost(month, ceiling).Ok? <==>
            (ceiling.Some? ==> SafeProduct(CpuMs(month as real, ceiling.value.pricing)))
    ensures OptionalCost(month, ceiling).Err? ==> OptionalCost(month, ceiling).error == InputInvalid
  {
    hide SafeProduct, CpuMs, RawCost, RoundCents;
  }

  lemma ClassesStep(classes: Option<seq<string>>)
    ensures RequestClasses(classes) == if ClassesNamed(classes) then Ok(classes.value) else Err(InputInvalid)
  {
  }

  lemma CountsStep(input: Input)
    ensures ReadCounts(input).Err? ==> ReadCounts(input).error == InputInvalid
  {
  }

  lemma BurstStep(rate: nat, burst: Option<Burst>, shape: Option<BurstShape>)
    requires BurstRead(burst, shape)
    ensures BurstRequests(rate, shape).Ok? <==> (burst.Some? ==> Safe(BurstLoad(rate, burst.value)))
    ensures BurstRequests(rate, shape).Err? ==> BurstRequests(rate, shape).error == InputInvalid
  {
    BurstMeans(rate, burst, shape);
  }

  /** The calculation up to the daily loads, then up to the sizing load, then up to the end. */
  lemma LoadsStep(input: Input, n: Counts)
    requires ReadCounts(input) == Ok(n) && CountsAre(input, n)
    ensures forall k: nat :: 1 <= k <= 5 && FirstToFail(input, k) ==> Calculate(input) == Err(CodeOfCheck(k))
  {
    ProductStep(n.fellows, n.activeSeconds);
    QuotientStep(n.lurkers, n.cursorPoll);
    if Safe(n.fellows * n.activeSeconds) {
      QuotientStep(n.fellows * n.activeSeconds, n.packCadence);
      QuotientStep(n.fellows * n.activeSeconds, n.workshopCadence);
    }
    ProductStep(n.fellows, n.promotionsPerFellow);
    hide ReadCounts, CheckedProduct, ExactQuotient, PerMonth, OptionalCost, RequestClasses, BurstRequests, Safe, Divides, BurstRead, CountsOk;
    forall k: nat | 1 <= k <= 5 && FirstToFail(input, k) ensures Calculate(input) == Err(CodeOfCheck(k)) {
      assert Passes(input, 1) || k == 1;
      assert Passes(input, 2) || k <= 2;
      assert Passes(input, 3) || k <= 3;
      assert Passes(input, 4) || k <= 4;
    }
  }

  /** Everything before the table has passed. */
  lemma EarlySteps(n: Counts)
    requires n.packCadence > 0 && n.workshopCadence > 0 && n.cursorPoll > 0
    requires Safe(n.fellows * n.activeSeconds) && Divides(n.cursorPoll, n.lurkers)
    requires Divides(n.packCadence, n.fellows * n.activeSeconds) && Divides(n.workshopCadence, n.fellows * n.activeSeconds)
    requires Safe(n.fellows * n.promotionsPerFellow)
    ensures CheckedProduct(n.fellows, n.activeSeconds) == Ok(n.fellows * n.activeSeconds)
    ensures ExactQuotient(n.lurkers, n.cursorPoll) == Ok(n.lurkers / n.cursorPoll)
    ensures ExactQuotient(n.fellows * n.activeSeconds, n.packCadence).Ok?
    ensures ExactQuotient(n.fellows * n.activeSeconds, n.workshopCadence).Ok?
    ensures CheckedProduct(n.fellows, n.promotionsPerFellow).Ok?
  {
    ProductStep(n.fellows, n.activeSeconds);
    QuotientStep(n.lurkers, n.cursorPoll);
    QuotientStep(n.fellows * n.activeSeconds, n.packCadence);
    QuotientStep(n.fellows * n.activeSeconds, n.workshopCadence);
    ProductStep(n.fellows, n.promotionsPerFellow);
    hide CheckedProduct, ExactQuotient, Safe, Divides;
  }

  predicate EarlyPass(input: Input) {
    Passes(input, 0) && Passes(input, 1) && Passes(input, 2) && Passes(input, 3) && Passes(input, 4) && Passes(input, 5)
  }

  lemma PassedBefore(input: Input, k: nat, j: nat)
    requires FirstToFail(input, k) && j < k
    ensures Passes(input, j)
  {
    hide Passes;
  }

  lemma SizingStep(input: Input, n: Counts)
    requires ReadCounts(input) == Ok(n) && CountsAre(input, n)
    ensures forall k: nat :: 6 <= k <= 8 && FirstToFail(input, k) ==> Calculate(input) == Err(CodeOfCheck(k))
  {
    forall k: nat | 6 <= k <= 8 && FirstToFail(input, k) ensures Calculate(input) == Err(CodeOfCheck(k)) {
      EarlyPasses(input, k);
      hide ReadCounts, CheckedProduct, ExactQuotient, PerMonth, OptionalCost, RequestClasses, BurstRequests, Safe, Divides, BurstRead, CountsOk;
      EarlySteps(n);
      QuotientStep(n.table, 30);
      ProductStep(n.sizingFellows, n.sizingActive);
      if k > 6 {
        PassedBefore(input, k, 6);
      }
      if k > 7 {
        PassedBefore(input, k, 7);
        QuotientStep(n.sizingFellows * n.sizingActive, n.packCadence);
      }
    }
  }

  lemma EarlyPasses(input: Input, k: nat)
    requires FirstToFail(input, k) && k >= 6
    ensures EarlyPass(input)
  {
    hide Passes;
  }

  /** The table and the sizing load have passed too. */
  predicate SizingPass(input: Input) {
    EarlyPass(input) && Passes(input, 6) && Passes(input, 7) && Passes(input, 8)
  }

  lemma SizingPasses(input: Input, k: nat)
    requires FirstToFail(input, k) && k >= 9
    ensures SizingPass(input)
  {
    hide Passes;
  }

  lemma SizingSteps(n: Counts)
    requires n.packCadence > 0
    requires Divides(30, n.table) && Safe(n.sizingFellows * n.sizingActive) && Divides(n.packCadence, n.sizingFellows * n.sizingActive)
    ensures ExactQuotient(n.table, DAYS_PER_MONTH).Ok?
    ensures CheckedProduct(n.sizingFellows, n.sizingActive) == Ok(n.sizingFellows * n.sizingActive)
    ensures ExactQuotient(n.sizingFellows * n.sizingActive, n.packCadence).Ok?
  {
    QuotientStep(n.table, 30);
    ProductStep(n.sizingFellows, n.sizingActive);
    QuotientStep(n.sizingFellows * n.sizingActive, n.packCadence);
    hide CheckedProduct, ExactQuotient, Safe, Divides;
  }

  /** The monthly loads, the cost and the worked duty. */
  lemma MonthsStep(input: Input, n: Counts)
    requires ReadCounts(input) == Ok(n) && CountsAre(input, n)
    ensures forall k: nat :: 9 <= k <= 12 && FirstToFail(input, k) ==> Calculate(input) == Err(CodeOfCheck(k))
  {
    forall k: nat | 9 <= k <= 12 && FirstToFail(input, k) ensures Calculate(input) == Err(CodeOfCheck(k)) {
      SizingPasses(input, k);
      assert PeakWhole(input) == n.lurkers / n.cursorPoll;
      hide ReadCounts, CheckedProduct, ExactQuotient, PerMonth, OptionalCost, RequestClasses, BurstRequests, Safe, Divides, BurstRead, CountsOk, MonthSafe, PeakWhole, SafeProduct, CpuMs;
      EarlySteps(n);
      SizingSteps(n);
      MonthStep(PeakWhole(input));
      CostStep(PeakWhole(input) * 86_400 * 30, input.ceiling);
      if k > 9 {
        PassedBefore(input, k, 9);
        MonthStep(n.stated);
      }
      if k > 10 {
        PassedBefore(input, k, 10);
        ProductStep(n.sizingFellows, n.activeSeconds);
      }
      if k > 11 {
        PassedBefore(input, k, 11);
        QuotientStep(n.sizingFellows * n.activeSeconds, n.packCadence);
      }
    }
  }

  predicate MonthsPass(input: Input) {
    SizingPass(input) && Passes(input, 9) && Passes(input, 10) && Passes(input, 11) && Passes(input, 12)
  }

  lemma MonthsPasses(input: Input, k: nat)
    requires FirstToFail(input, k) && k >= 13
    ensures MonthsPass(input)
  {
    hide Passes;
  }

  lemma DutySteps(n: Counts, rate: nat, ceiling: Option<Ceiling>)
    requires n.packCadence > 0 && MonthSafe(rate) && MonthSafe(n.stated)
    requires ceiling.Some? ==> SafeProduct(CpuMs((rate * 86_400 * 30) as real, ceiling.value.pricing))
    requires Safe(n.sizingFellows * n.activeSeconds) && Divides(n.packCadence, n.sizingFellows * n.activeSeconds)
    ensures PerMonth(rate).Ok? && OptionalCost(PerMonth(rate).value, ceiling).Ok? && PerMonth(n.stated).Ok?
    ensures CheckedProduct(n.sizingFellows, n.activeSeconds) == Ok(n.sizingFellows * n.activeSeconds)
    ensures ExactQuotient(n.sizingFellows * n.activeSeconds, n.packCadence).Ok?
  {
    hide CheckedProduct, ExactQuotient, Safe, Divides, PerMonth, OptionalCost, MonthSafe, SafeProduct, CpuMs;
    MonthStep(rate);
    CostStep(rate * 86_400 * 30, ceiling);
    MonthStep(n.stated);
    ProductStep(n.sizingFellows, n.activeSeconds);
    QuotientStep(n.sizingFellows * n.activeSeconds, n.packCadence);
  }

  /** The two lists of request classes and the burst. */
  lemma ClassesAndBurstStep(input: Input, n: Counts)
    requires ReadCounts(input) == Ok(n) && CountsAre(input, n)
    ensures forall k: nat :: 13 <= k <= 15 && FirstToFail(input, k) ==> Calculate(input) == Err(CodeOfCheck(k))
  {
    forall k: nat | 13 <= k <= 15 && FirstToFail(input, k) ensures Calculate(input) == Err(CodeOfCheck(k)) {
      MonthsPasses(input, k);
      assert PeakWhole(input) == n.lurkers / n.cursorPoll;
      hide ReadCounts, CheckedProduct, ExactQuotient, PerMonth, OptionalCost, RequestClasses, BurstRequests, Safe, Divides, BurstRead, CountsOk, MonthSafe, PeakWhole, SafeProduct, CpuMs, ClassesNamed, BurstLoad;
      EarlySteps(n);
      SizingSteps(n);
      DutySteps(n, PeakWhole(input), input.ceiling);
      ClassesStep(input.enumerated);
      if k > 13 {
        PassedBefore(input, k, 13);
        ClassesStep(input.unenumerated);
      }
      if k > 14 {
        PassedBefore(input, k, 14);
        BurstStep(PeakWhole(input), input.burst, n.burst);
      }
    }
  }

  // ----- the theorem

  lemma FirstIsSaid(input: Input, k: nat)
    requires FirstToFail(input, k)
    ensures k <= 15 && Calculate(input) == Err(CodeOfCheck(k))
  {
    CountsRead(input);
    CountsStep(input);
    assert k <= 15;
    if k > 0 {
      PassedBefore(input, k, 0);
      var n := ReadCounts(input).value;
      hide Calculate, ReadCounts, CountsOk, CountsAre, FirstToFail, CodeOfCheck;
      LoadsStep(input, n);
      SizingStep(input, n);
      MonthsStep(input, n);
      ClassesAndBurstStep(input, n);
    } else {
      hide ReadCounts, CountsOk, CheckedProduct, ExactQuotient, PerMonth, OptionalCost, RequestClasses, BurstRequests;
    }
  }

  lemma {:induction false} SomeFirst(input: Input, k: nat) returns (i: nat)
    requires !Passes(input, k)
    ensures FirstToFail(input, i)
  {
    hide Passes;
    i := k;
    if j: nat :| j < k && !Passes(input, j) {
      i := SomeFirst(input, j);
    }
  }

  lemma AllPass(input: Input)
    requires forall k: nat :: Passes(input, k)
    ensures Calculate(input).Ok?
  {
    AcceptedExactly(input);
    assert Passes(input, 0) && Passes(input, 1) && Passes(input, 2) && Passes(input, 3) && Passes(input, 4) && Passes(input, 5);
    assert Passes(input, 6) && Passes(input, 7) && Passes(input, 8) && Passes(input, 9) && Passes(input, 10) && Passes(input, 11);
    assert Passes(input, 12) && Passes(input, 13) && Passes(input, 14) && Passes(input, 15);
    hide Calculate, CountsOk, SafeProduct, CpuMs, ClassesNamed, BurstLoad;
  }

  /** A refused input gets the code of the first of the sixteen checks that fails, and every other input is accepted. */
  lemma ErrorIsFirst(input: Input, e: Error)
    ensures Calculate(input) == Err(e) <==> exists k: nat :: FirstToFail(input, k) && CodeOfCheck(k) == e
    ensures Calculate(input).Ok? <==> forall k: nat :: Passes(input, k)
  {
    hide Calculate, Passes, CodeOfCheck;
    if k: nat :| !Passes(input, k) {
      var i := SomeFirst(input, k);
      FirstIsSaid(input, i);
      OneFirst(input, i);
    } else {
      AllPass(input);
    }
  }

  lemma OneFirst(input: Input, i: nat)
    requires FirstToFail(input, i)
    ensures forall k: nat :: FirstToFail(input, k) ==> k == i
  {
    hide Passes;
  }
}
