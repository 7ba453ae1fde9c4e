/**
 * The cost-model verifier's workload arithmetic, findings and resolution
 * (scripts/verify-cost-model.ts). Counts are exact integers within the safe range;
 * money is modelled over the reals, with the rounding to cents.
 */
module CostModel {
  import opened Wrappers

  const MAX_SAFE_INTEGER := 9_007_199_254_740_991
  const SECONDS_PER_DAY := 86_400
  const DAYS_PER_MONTH := 30

  datatype Error = InputInvalid | CadenceNotIntegral

  /** A JSON field: a safe integer, or anything else. */
  datatype Field = Whole(n: int) | NotWhole

  datatype Burst = Burst(seconds: Field, occurrences: Field)

  datatype Pricing = Pricing(
    retrievedOn: string,
    baseUsd: real,
    includedRequests: real,
    requestUsdPerMillion: real,
    includedCpuMs: real,
    cpuUsdPerMillionMs: real,
    cpuMsPerRequest: real)

  datatype Ceiling = Ceiling(usdPerMonth: real, acceptedOn: string, pricing: Pricing)

  datatype Input = Input(
    problems: Field,
    fellows: Field,
    activeSeconds: Field,
    packCadence: Field,
    workshopCadence: Field,
    promotionsPerFellow: Field,
    lurkers: Field,
    cursorPoll: Field,
    statedCursorRate: Field,
    displayedPackReads: Field,
    displayedWorkshopPushes: Field,
    displayedPromotions: Field,
    burst: Option<Burst>,
    ceiling: Option<Ceiling>,
    sizingFellows: Field,
    sizingActiveSeconds: Field,
    tablePerMonth: Field,
    enumerated: Option<seq<string>>,
    unenumerated: Option<seq<string>>)

  datatype Workload = Workload(
    problems: nat,
    packReads: nat,
    workshopPushes: nat,
    promotions: nat,
    cursorRate: nat,
    statedCursorRate: nat,
    sustainedAtPeak: nat,
    sustainedAtStated: nat,
    baseLoad: nat,
    displayedPackReads: nat,
    displayedWorkshopPushes: nat,
    displayedPromotions: nat,
    displayedBaseLoad: nat,
    tablePerDay: nat,
    sizingPerDay: nat,
    sizingAtWorkedDuty: nat,
    enumerated: seq<string>,
    unenumerated: seq<string>,
    activeSeconds: nat,
    sizingActiveSeconds: nat,
    burstPerDay: Option<nat>,
    cost: Option<real>,
    ceiling: Option<Ceiling>)

  // ----- checked arithmetic

  function NonNegative(f: Field): (r: Result<nat, Error>) {
    if f.Whole? && 0 <= f.n <= MAX_SAFE_INTEGER then Ok(f.n) else Err(InputInvalid)
  }

  function Positive(f: Field): (r: Result<nat, Error>)
    ensures r.Ok? ==> r.value > 0
  {
    var n :- NonNegative(f);
    if n == 0 then Err(InputInvalid) else Ok(n)
  }

  /** A product that leaves the safe range is refused, never rounded. */
  function CheckedProduct(a: nat, b: nat): (r: Result<nat, Error>)
    ensures r.Ok? <==> a * b <= MAX_SAFE_INTEGER
    ensures r.Ok? ==> r.value == a * b
  {
    if a * b > MAX_SAFE_INTEGER then Err(InputInvalid) else Ok(a * b)
  }

  /** A quotient that would need rounding is refused. */
  function ExactQuotient(a: nat, b: nat): (r: Result<nat, Error>)
    requires b > 0
    ensures r.Ok? ==> r.value * b == a
  {
    if a % b != 0 then Err(CadenceNotIntegral)
    else
      assert a / b * b == a;
      Ok(a / b)
  }

  lemma MultipleBelow(d: int, b: int)
    requires -b < d * b < b
    ensures d == 0
  {
    assert d >= 1 ==> d * b >= b;
    assert d <= -1 ==> d * b <= -b;
  }

  /** ... and only then. */
  lemma ExactQuotientFinds(a: nat, b: nat, q: nat)
    requires b > 0 && q * b == a
    ensures ExactQuotient(a, b) == Ok(q)
  {
    var d: int := q - a / b;
    assert a == a / b * b + a % b;
    assert d * b == a % b;
    MultipleBelow(d, b);
  }

  function RequestClasses(classes: Option<seq<string>>): Result<seq<string>, Error> {
    if classes.None? || (exists i :: 0 <= i < |classes.value| && classes.value[i] == "") then Err(InputInvalid)
    else Ok(classes.value)
  }

  // ----- the cost of a sustained peak

  function AtLeastZero(x: real): real {
    if x < 0.0 then 0.0 else x
  }

  /** Rounded half up to whole cents. */
  function RoundCents(usd: real): real {
    (usd * 100.0 + 0.5).Floor as real / 100.0
  }

  /** What the usage beyond the included part costs. */
  function Charge(excess: real, usdPerMillion: real): real {
    AtLeastZero(excess) / 1_000_000.0 * usdPerMillion
  }

  /** The processor time of some requests. */
  function CpuMs(requests: real, p: Pricing): real {
    requests * p.cpuMsPerRequest
  }

  function RawCost(requests: real, p: Pricing): real {
    p.baseUsd
    + Charge(requests - p.includedRequests, p.requestUsdPerMillion)
    + Charge(CpuMs(requests, p) - p.includedCpuMs, p.cpuUsdPerMillionMs)
  }

  predicate SafeProduct(x: real) {
    x == x.Floor as real && -(MAX_SAFE_INTEGER as real) <= x <= MAX_SAFE_INTEGER as real
  }

  function SustainedCost(requests: nat, p: Pricing): Result<real, Error> {
    if !SafeProduct(CpuMs(requests as real, p)) then Err(InputInvalid) else Ok(RoundCents(RawCost(requests as real, p)))
  }

  function OptionalCost(requests: nat, ceiling: Option<Ceiling>): Result<Option<real>, Error> {
    if ceiling.None? then Ok(None)
    else
      var cost :- SustainedCost(requests, ceiling.value.pricing);
      Ok(Some(cost))
  }

  datatype BurstShape = BurstShape(seconds: nat, occurrences: nat)

  function RequireBurst(burst: Option<Burst>): Result<Option<BurstShape>, Error> {
    if burst.None? then Ok(None)
    else
      var seconds :- Positive(burst.value.seconds);
      var occurrences :- Positive(burst.value.occurrences);
      Ok(Some(BurstShape(seconds, occurrences)))
  }

  function BurstRequests(cursorRate: nat, burst: Option<BurstShape>): Result<Option<nat>, Error> {
    if burst.None? then Ok(None)
    else
      var perOccurrence :- CheckedProduct(cursorRate, burst.value.seconds);
      var perDay :- CheckedProduct(perOccurrence, burst.value.occurrences);
      Ok(Some(perDay))
  }

  function PerMonth(rate: nat): Result<nat, Error> {
    var perDay :- CheckedProduct(rate, SECONDS_PER_DAY);
    CheckedProduct(perDay, DAYS_PER_MONTH)
  }

  // ----- the workload

  /** The counts of an input once each is known to be a safe integer of its sign. */
  datatype Counts = Counts(
    problems: nat,
    fellows: nat,
    activeSeconds: nat,
    packCadence: nat,
    workshopCadence: nat,
    promotionsPerFellow: nat,
    lurkers: nat,
    cursorPoll: nat,
    stated: nat,
    displayedPackReads: nat,
    displayedWorkshopPushes: nat,
    displayedPromotions: nat,
    sizingFellows: nat,
    sizingActive: nat,
    table: nat,
    burst: Option<BurstShape>)

  function ReadCounts(input: Input): (r: Result<Counts, Error>)
    ensures r.Ok? ==> r.value.packCadence > 0 && r.value.workshopCadence > 0 && r.value.cursorPoll > 0
  {
    var problems :- Positive(input.problems);
    var fellows :- NonNegative(input.fellows);
    var activeSeconds :- Positive(input.activeSeconds);
    if activeSeconds > SECONDS_PER_DAY then Err(InputInvalid) else
    var packCadence :- Positive(input.packCadence);
    var workshopCadence :- Positive(input.workshopCadence);
    var promotionsPerFellow :- NonNegative(input.promotionsPerFellow);
    var lurkers :- NonNegative(input.lurkers);
    var cursorPoll :- Positive(input.cursorPoll);
    var stated :- NonNegative(input.statedCursorRate);
    var displayedPackReads :- NonNegative(input.displayedPackReads);
    var displayedWorkshopPushes :- NonNegative(input.displayedWorkshopPushes);
    var displayedPromotions :- NonNegative(input.displayedPromotions);
    var sizingFellows :- Positive(input.sizingFellows);
    var sizingActive :- Positive(input.sizingActiveSeconds);
    var table :- Positive(input.tablePerMonth);
    var burst :- RequireBurst(input.burst);
    Ok(Counts(
      problems, fellows, activeSeconds, packCadence, workshopCadence, promotionsPerFellow, lurkers, cursorPoll, stated,
      displayedPackReads, displayedWorkshopPushes, displayedPromotions, sizingFellows, sizingActive, table, burst))
  }

  function Calculate(input: Input): Result<Workload, Error> {
    var n :- ReadCounts(input);
    var activeFellowSeconds :- CheckedProduct(n.fellows, n.activeSeconds);
    var cursorRate :- ExactQuotient(n.lurkers, n.cursorPoll);
    var packReads :- ExactQuotient(activeFellowSeconds, n.packCadence);
    var workshopPushes :- ExactQuotient(activeFellowSeconds, n.workshopCadence);
    var promotions :- CheckedProduct(n.fellows, n.promotionsPerFellow);
    var tablePerDay :- ExactQuotient(n.table, DAYS_PER_MONTH);
    var sizingProduct :- CheckedProduct(n.sizingFellows, n.sizingActive);
    var sizingPerDay :- ExactQuotient(sizingProduct, n.packCadence);
    var sustained :- PerMonth(cursorRate);
    var cost :- OptionalCost(sustained, input.ceiling);
    var sustainedAtStated :- PerMonth(n.stated);
    var dutyProduct :- CheckedProduct(n.sizingFellows, n.activeSeconds);
    var sizingAtDuty :- ExactQuotient(dutyProduct, n.packCadence);
    var enumerated :- RequestClasses(input.enumerated);
    var unenumerated :- RequestClasses(input.unenumerated);
    var burstPerDay :- BurstRequests(cursorRate, n.burst);
    Ok(Workload(
      n.problems, packReads, workshopPushes, promotions, cursorRate, n.stated, sustained, sustainedAtStated,
      packReads + workshopPushes + promotions, n.displayedPackReads, n.displayedWorkshopPushes, n.displayedPromotions,
      n.displayedPackReads + n.displayedWorkshopPushes + n.displayedPromotions, tablePerDay, sizingPerDay, sizingAtDuty,
      enumerated, unenumerated, n.activeSeconds, n.sizingActive, burstPerDay, cost, input.ceiling))
  }

  // ----- findings and the resolution

  /** The three classes of requests that make up the base load. */
  datatype Components = Components(packReads: nat, workshopPushes: nat, promotions: nat)

  datatype Finding =
    | CursorRateMismatch(stated: nat, computed: nat)
    | TableScenarioMismatch(table: nat, sizing: nat, base: nat)
    | DutyCycleMismatch(workedSeconds: nat, sizingSeconds: nat, sizingPerDay: nat, atWorkedDuty: nat)
    | BurstShapeUndeclared(peak: nat)
    | CeilingExceeded(ceilingUsd: real, costUsd: real)
    | StormRoomUnresolved(table: nat, sizing: nat, enumerated: seq<string>, unenumerated: seq<string>)
    | RoundedDisplayMismatch(exact: nat, displayed: nat, difference: int, exactParts: Components, displayedParts: Components)

  datatype Resolution = CeilingCovers(usd: real, cost: real, acceptedOn: string, pricingRetrievedOn: string)

  predicate Covers(w: Workload) {
    w.ceiling.Some? && w.cost.Some? && w.cost.value <= w.ceiling.value.usdPerMonth
  }

  predicate Exceeds(w: Workload) {
    w.ceiling.Some? && w.cost.Some? && w.cost.value > w.ceiling.value.usdPerMonth
  }

  function When(condition: bool, f: Finding): seq<Finding> {
    if condition then [f] else []
  }

  function CursorFinding(w: Workload): Finding {
    CursorRateMismatch(w.statedCursorRate, w.cursorRate)
  }

  function TableFinding(w: Workload): Finding {
    TableScenarioMismatch(w.tablePerDay, w.sizingPerDay, w.baseLoad)
  }

  function DutyFinding(w: Workload): Finding {
    DutyCycleMismatch(w.activeSeconds, w.sizingActiveSeconds, w.sizingPerDay, w.sizingAtWorkedDuty)
  }

  function CeilingFinding(w: Workload): Finding {
    if Exceeds(w) then CeilingExceeded(w.ceiling.value.usdPerMonth, w.cost.value) else CeilingExceeded(0.0, 0.0)
  }

  function StormFinding(w: Workload): Finding {
    StormRoomUnresolved(w.tablePerDay, w.sizingPerDay, w.enumerated, w.unenumerated)
  }

  function DisplayFinding(w: Workload): Finding {
    RoundedDisplayMismatch(
      w.baseLoad, w.displayedBaseLoad, w.displayedBaseLoad - w.baseLoad,
      Components(w.packReads, w.workshopPushes, w.promotions),
      Components(w.displayedPackReads, w.displayedWorkshopPushes, w.displayedPromotions))
  }

  function Findings(w: Workload): seq<Finding> {
    When(w.cursorRate != w.statedCursorRate, CursorFinding(w))
    + When(w.tablePerDay != w.baseLoad, TableFinding(w))
    + When(w.sizingPerDay != w.sizingAtWorkedDuty, DutyFinding(w))
    + When(w.burstPerDay.None? && !Covers(w), BurstShapeUndeclared(w.cursorRate))
    + When(Exceeds(w), CeilingFinding(w))
    + When(w.unenumerated != [], StormFinding(w))
    + When(w.displayedBaseLoad != w.baseLoad, DisplayFinding(w))
  }

  lemma PushWhen(found: seq<Finding>, condition: bool, f: Finding)
    ensures found + When(condition, f) == if condition then found + [f] else found
  {
  }

  /** The findings are pushed one by one, each under its own test. */
  method SourceDiscrepancies(w: Workload) returns (found: seq<Finding>)
    ensures found == Findings(w)
  {
    hide When;
    found := When(w.cursorRate != w.statedCursorRate, CursorFinding(w));
    PushWhen(found, w.tablePerDay != w.baseLoad, TableFinding(w));
    if w.tablePerDay != w.baseLoad {
      found := found + [TableScenarioMismatch(w.tablePerDay, w.sizingPerDay, w.baseLoad)];
    }
    PushWhen(found, w.sizingPerDay != w.sizingAtWorkedDuty, DutyFinding(w));
    if w.sizingPerDay != w.sizingAtWorkedDuty {
      found := found + [DutyCycleMismatch(w.activeSeconds, w.sizingActiveSeconds, w.sizingPerDay, w.sizingAtWorkedDuty)];
    }
    var ceilingCovers := w.ceiling.Some? && w.cost.Some? && w.cost.value <= w.ceiling.value.usdPerMonth;
    PushWhen(found, w.burstPerDay.None? && !ceilingCovers, BurstShapeUndeclared(w.cursorRate));
    if w.burstPerDay.None? && !ceilingCovers {
      found := found + [BurstShapeUndeclared(w.cursorRate)];
    }
    PushWhen(found, Exceeds(w), CeilingFinding(w));
    if w.ceiling.Some? && w.cost.Some? && w.cost.value > w.ceiling.value.usdPerMonth {
      found := found + [CeilingExceeded(w.ceiling.value.usdPerMonth, w.cost.value)];
    }
    PushWhen(found, w.unenumerated != [], StormFinding(w));
    if w.unenumerated != [] {
      found := found + [StormRoomUnresolved(w.tablePerDay, w.sizingPerDay, w.enumerated, w.unenumerated)];
    }
    PushWhen(found, w.displayedBaseLoad != w.baseLoad, DisplayFinding(w));
    if w.displayedBaseLoad != w.baseLoad {
      var exact := Components(w.packReads, w.workshopPushes, w.promotions);
      var displayed := Components(w.displayedPackReads, w.displayedWorkshopPushes, w.displayedPromotions);
      found := found + [RoundedDisplayMismatch(w.baseLoad, w.displayedBaseLoad, w.displayedBaseLoad - w.baseLoad, exact, displayed)];
    }
  }

  function Resolutions(w: Workload): seq<Resolution> {
    if w.ceiling.None? || w.cost.None? || w.cost.value > w.ceiling.value.usdPerMonth then []
    else [CeilingCovers(w.ceiling.value.usdPerMonth, w.cost.value, w.ceiling.value.acceptedOn,
                        w.ceiling.value.pricing.retrievedOn)]
  }

  datatype Code = Cursor | Table | Duty | Undeclared | Exceeded | Storm | Display

  function CodeOf(f: Finding): Code {
    match f
    case CursorRateMismatch(_, _) => Cursor
    case TableScenarioMismatch(_, _, _) => Table
    case DutyCycleMismatch(_, _, _, _) => Duty
    case BurstShapeUndeclared(_) => Undeclared
    case CeilingExceeded(_, _) => Exceeded
    case StormRoomUnresolved(_, _, _, _) => Storm
    case RoundedDisplayMismatch(_, _, _, _, _) => Display
  }

  function Codes(fs: seq<Finding>): (codes: seq<Code>)
    ensures |codes| == |fs| && forall i :: 0 <= i < |fs| ==> codes[i] == CodeOf(fs[i])
  {
    if fs == [] then [] else Codes(fs[..|fs| - 1]) + [CodeOf(fs[|fs| - 1])]
  }

  // ----- each code under its own condition on the input

  function N(f: Field): int {
    if f.Whole? then f.n else 0
  }

  function Ratio(a: int, b: int): real {
    if b == 0 then 0.0 else a as real / b as real
  }

  /** The base load the declared cadences give, as a real number of requests per day. */
  function BaseRate(input: Input): real {
    Ratio(N(input.fellows) * N(input.activeSeconds), N(input.packCadence))
    + Ratio(N(input.fellows) * N(input.activeSeconds), N(input.workshopCadence))
    + (N(input.fellows) * N(input.promotionsPerFellow)) as real
  }

  function PeakRate(input: Input): real {
    Ratio(N(input.lurkers), N(input.cursorPoll))
  }

  function Month(rate: real): real {
    rate * SECONDS_PER_DAY as real * DAYS_PER_MONTH as real
  }

  /** The cost of a month at the peak rate the input declares. */
  function PeakCost(input: Input): real
    requires input.ceiling.Some?
  {
    RoundCents(RawCost(Month(PeakRate(input)), input.ceiling.value.pricing))
  }

  /** The arithmetic condition of each code, on the declared input only. */
  predicate Condition(input: Input, code: Code) {
    match code
    case Cursor => PeakRate(input) != N(input.statedCursorRate) as real
    case Table => Ratio(N(input.tablePerMonth), DAYS_PER_MONTH) != BaseRate(input)
    case Duty => N(input.sizingActiveSeconds) != N(input.activeSeconds)
    case Undeclared => input.burst.None? && (input.ceiling.None? || PeakCost(input) > input.ceiling.value.usdPerMonth)
    case Exceeded => input.ceiling.Some? && PeakCost(input) > input.ceiling.value.usdPerMonth
    case Storm => input.unenumerated != Some([])
    case Display =>
      (N(input.displayedPackReads) + N(input.displayedWorkshopPushes) + N(input.displayedPromotions)) as real
      != BaseRate(input)
  }

  /** The declared figures that a workload repeats. */
  predicate Carried(input: Input, w: Workload) {
    && input.problems == Whole(w.problems)
    && input.statedCursorRate == Whole(w.statedCursorRate)
    && input.activeSeconds == Whole(w.activeSeconds) && input.sizingActiveSeconds == Whole(w.sizingActiveSeconds)
    && input.displayedPackReads == Whole(w.displayedPackReads)
    && input.displayedWorkshopPushes == Whole(w.displayedWorkshopPushes)
    && input.displayedPromotions == Whole(w.displayedPromotions)
    && input.enumerated == Some(w.enumerated) && input.unenumerated == Some(w.unenumerated)
    && w.ceiling == input.ceiling
  }

  /** The rates and daily loads, each by its defining equation. */
  predicate LoadsDerived(input: Input, w: Workload) {
    && input.lurkers == Whole(w.cursorRate * N(input.cursorPoll)) && N(input.cursorPoll) > 0
    && w.packReads * N(input.packCadence) == N(input.fellows) * N(input.activeSeconds) && N(input.packCadence) > 0
    && w.workshopPushes * N(input.workshopCadence) == N(input.fellows) * N(input.activeSeconds)
    && N(input.workshopCadence) > 0
    && w.promotions == N(input.fellows) * N(input.promotionsPerFellow)
    && w.baseLoad == w.packReads + w.workshopPushes + w.promotions
    && N(input.tablePerMonth) == w.tablePerDay * DAYS_PER_MONTH
    && w.displayedBaseLoad ==
       N(input.displayedPackReads) + N(input.displayedWorkshopPushes) + N(input.displayedPromotions)
    && w.sizingPerDay * N(input.packCadence) == N(input.sizingFellows) * N(input.sizingActiveSeconds)
    && w.sizingAtWorkedDuty * N(input.packCadence) == N(input.sizingFellows) * N(input.activeSeconds)
    && N(input.sizingFellows) > 0
  }

  function BurstLoad(rate: nat, burst: Burst): int {
    rate * N(burst.seconds) * N(burst.occurrences)
  }

  /** The monthly loads, the burst and the cost of the peak. */
  predicate PeaksDerived(input: Input, w: Workload) {
    && w.sustainedAtPeak == w.cursorRate * SECONDS_PER_DAY * DAYS_PER_MONTH
    && w.sustainedAtStated == w.statedCursorRate * SECONDS_PER_DAY * DAYS_PER_MONTH
    && (w.burstPerDay.None? <==> input.burst.None?)
    && (input.burst.Some? ==> w.burstPerDay.value == BurstLoad(w.cursorRate, input.burst.value))
    && (input.ceiling.Some? ==> w.cost == Some(RoundCents(RawCost(w.sustainedAtPeak as real, input.ceiling.value.pricing))))
    && (input.ceiling.None? ==> w.cost.None?)
  }

  /** What an accepted workload says about its input: every figure it holds. */
  predicate Derived(input: Input, w: Workload) {
    Carried(input, w) && LoadsDerived(input, w) && PeaksDerived(input, w)
  }

  /** Every product the calculation checks, in the order it forms them. */
  predicate ProductsSafe(input: Input, w: Workload) {
    && N(input.fellows) * N(input.activeSeconds) <= MAX_SAFE_INTEGER
    && N(input.fellows) * N(input.promotionsPerFellow) <= MAX_SAFE_INTEGER
    && N(input.sizingFellows) * N(input.sizingActiveSeconds) <= MAX_SAFE_INTEGER
    && w.cursorRate * SECONDS_PER_DAY <= MAX_SAFE_INTEGER && w.sustainedAtPeak <= MAX_SAFE_INTEGER
    && (input.ceiling.Some? ==> SafeProduct(CpuMs(w.sustainedAtPeak as real, input.ceiling.value.pricing)))
    && w.statedCursorRate * SECONDS_PER_DAY <= MAX_SAFE_INTEGER && w.sustainedAtStated <= MAX_SAFE_INTEGER
    && N(input.sizingFellows) * N(input.activeSeconds) <= MAX_SAFE_INTEGER
    && (input.burst.Some? ==>
          && w.cursorRate * N(input.burst.value.seconds) <= MAX_SAFE_INTEGER
          && BurstLoad(w.cursorRate, input.burst.value) <= MAX_SAFE_INTEGER)
  }

  lemma PerMonthMeans(rate: nat)
    ensures PerMonth(rate).Ok? <==> rate * SECONDS_PER_DAY * DAYS_PER_MONTH <= MAX_SAFE_INTEGER
    ensures PerMonth(rate).Ok? ==> PerMonth(rate).value == rate * SECONDS_PER_DAY * DAYS_PER_MONTH
  {
  }

  lemma FactorBelow(a: nat, b: nat)
    requires b > 0
    ensures a <= a * b
  {
  }

  predicate BurstRead(burst: Option<Burst>, shape: Option<BurstShape>) {
    && (shape.Some? <==> burst.Some?)
    && (burst.Some? ==> burst.value == Burst(Whole(shape.value.seconds), Whole(shape.value.occurrences)))
    && (burst.Some? ==> shape.value.occurrences > 0)
  }

  lemma BurstMeans(rate: nat, burst: Option<Burst>, shape: Option<BurstShape>)
    requires BurstRead(burst, shape)
    ensures BurstRequests(rate, shape).Ok? <==> (burst.Some? ==> BurstLoad(rate, burst.value) <= MAX_SAFE_INTEGER)
    ensures BurstRequests(rate, shape).Ok? ==>
              && (BurstRequests(rate, shape).value.Some? <==> burst.Some?)
              && (burst.Some? ==> BurstRequests(rate, shape).value.value == BurstLoad(rate, burst.value))
              && (burst.Some? ==> rate * N(burst.value.seconds) <= MAX_SAFE_INTEGER)
  {
    if burst.Some? {
      FactorBelow(rate * N(burst.value.seconds), N(burst.value.occurrences));
    }
  }

  /** The counts are the declared ones. */
  predicate CountsAre(input: Input, n: Counts) {
    && input.problems == Whole(n.problems) && input.fellows == Whole(n.fellows)
    && input.activeSeconds == Whole(n.activeSeconds)
    && input.packCadence == Whole(n.packCadence) && input.workshopCadence == Whole(n.workshopCadence)
    && input.promotionsPerFellow == Whole(n.promotionsPerFellow)
    && input.lurkers == Whole(n.lurkers) && input.cursorPoll == Whole(n.cursorPoll)
    && input.statedCursorRate == Whole(n.stated)
    && input.displayedPackReads == Whole(n.displayedPackReads)
    && input.displayedWorkshopPushes == Whole(n.displayedWorkshopPushes)
    && input.displayedPromotions == Whole(n.displayedPromotions)
    && input.sizingFellows == Whole(n.sizingFellows) && n.sizingFellows > 0
    && input.sizingActiveSeconds == Whole(n.sizingActive) && input.tablePerMonth == Whole(n.table)
    && BurstRead(input.burst, n.burst)
  }

  lemma CountsRead(input: Input)
    ensures ReadCounts(input).Ok? <==> CountsOk(input)
    ensures ReadCounts(input).Ok? ==> CountsAre(input, ReadCounts(input).value)
  {
  }

  lemma CalculateCarries(input: Input)
    requires Calculate(input).Ok?
    ensures Carried(input, Calculate(input).value)
  {
    CountsRead(input);
    hide ReadCounts, BurstRead, PerMonth, BurstRequests, OptionalCost, CheckedProduct, ExactQuotient;
  }

  lemma CalculateLoads(input: Input)
    requires Calculate(input).Ok?
    ensures LoadsDerived(input, Calculate(input).value)
  {
    CountsRead(input);
    hide ReadCounts, BurstRead, PerMonth, BurstRequests, OptionalCost, CheckedProduct, ExactQuotient, RequestClasses;
  }

  lemma SustainedMeans(month: nat, p: Pricing)
    ensures SustainedCost(month, p).Ok? <==> SafeProduct(CpuMs(month as real, p))
    ensures SustainedCost(month, p).Ok? ==> SustainedCost(month, p).value == RoundCents(RawCost(month as real, p))
  {
    hide SafeProduct, CpuMs, RawCost, RoundCents;
  }

  lemma CostMeans(month: nat, ceiling: Option<Ceiling>)
    ensures OptionalCost(month, ceiling).Ok? <==>
            (ceiling.Some? ==> SafeProduct(CpuMs(month as real, ceiling.value.pricing)))
    ensures OptionalCost(month, ceiling).Ok? ==>
              OptionalCost(month, ceiling).value ==
              if ceiling.None? then None else Some(RoundCents(RawCost(month as real, ceiling.value.pricing)))
  {
    hide SustainedCost, SafeProduct, CpuMs, RawCost, RoundCents;
    if ceiling.Some? {
      SustainedMeans(month, ceiling.value.pricing);
    }
  }

  lemma CalculatePeaks(input: Input)
    requires Calculate(input).Ok?
    ensures PeaksDerived(input, Calculate(input).value)
  {
    var w := Calculate(input).value;
    PerMonthMeans(w.cursorRate);
    PerMonthMeans(w.statedCursorRate);
    CountsRead(input);
    BurstMeans(w.cursorRate, input.burst, ReadCounts(input).value.burst);
    CostMeans(w.sustainedAtPeak, input.ceiling);
    hide ReadCounts, BurstRead, PerMonth, BurstRequests, BurstLoad, OptionalCost, RawCost, RoundCents, SafeProduct, CpuMs;
    hide CheckedProduct, ExactQuotient, RequestClasses;
  }

  lemma CalculateSafe(input: Input)
    requires Calculate(input).Ok?
    ensures ProductsSafe(input, Calculate(input).value)
  {
    var w := Calculate(input).value;
    PerMonthMeans(w.cursorRate);
    PerMonthMeans(w.statedCursorRate);
    CountsRead(input);
    BurstMeans(w.cursorRate, input.burst, ReadCounts(input).value.burst);
    CostMeans(w.sustainedAtPeak, input.ceiling);
    hide ReadCounts, BurstRead, PerMonth, BurstRequests, BurstLoad, OptionalCost, RawCost, RoundCents, SafeProduct, CpuMs;
    hide CheckedProduct, ExactQuotient, RequestClasses;
  }

  /** Every figure of an accepted workload satisfies its equation, and every checked product is safe. */
  lemma CalculateDerives(input: Input)
    requires Calculate(input).Ok?
    ensures Derived(input, Calculate(input).value)
    ensures ProductsSafe(input, Calculate(input).value)
  {
    hide Calculate, Carried, LoadsDerived, PeaksDerived, ProductsSafe;
    CalculateCarries(input);
    CalculateLoads(input);
    CalculatePeaks(input);
    CalculateSafe(input);
  }

  // ----- which inputs are accepted

  predicate Count(f: Field) {
    f.Whole? && 0 <= f.n <= MAX_SAFE_INTEGER
  }

  predicate PositiveCount(f: Field) {
    Count(f) && f.n > 0
  }

  predicate BurstCounts(burst: Option<Burst>) {
    burst.Some? ==> PositiveCount(burst.value.seconds) && PositiveCount(burst.value.occurrences)
  }

  predicate ClassesNamed(classes: Option<seq<string>>) {
    classes.Some? && forall i :: 0 <= i < |classes.value| ==> classes.value[i] != ""
  }

  predicate CountsOk(input: Input) {
    && PositiveCount(input.problems) && Count(input.fellows)
    && PositiveCount(input.activeSeconds) && input.activeSeconds.n <= SECONDS_PER_DAY
    && PositiveCount(input.packCadence) && PositiveCount(input.workshopCadence) && Count(input.promotionsPerFellow)
    && Count(input.lurkers) && PositiveCount(input.cursorPoll) && Count(input.statedCursorRate)
    && Count(input.displayedPackReads) && Count(input.displayedWorkshopPushes) && Count(input.displayedPromotions)
    && PositiveCount(input.sizingFellows) && PositiveCount(input.sizingActiveSeconds)
    && PositiveCount(input.tablePerMonth) && BurstCounts(input.burst)
  }

  predicate Divides(d: int, n: int) {
    d > 0 && n % d == 0
  }

  /** No cadence needs rounding. */
  predicate CadencesDivide(input: Input) {
    && Divides(N(input.cursorPoll), N(input.lurkers))
    && Divides(N(input.packCadence), N(input.fellows) * N(input.activeSeconds))
    && Divides(N(input.workshopCadence), N(input.fellows) * N(input.activeSeconds))
    && Divides(DAYS_PER_MONTH, N(input.tablePerMonth))
    && Divides(N(input.packCadence), N(input.sizingFellows) * N(input.sizingActiveSeconds))
    && Divides(N(input.packCadence), N(input.sizingFellows) * N(input.activeSeconds))
  }

  /** A load that is costed: a month of it, and its processor time, stay within the safe range. */
  predicate Costed(rate: nat, pricing: Option<Pricing>) {
    && rate * SECONDS_PER_DAY * DAYS_PER_MONTH <= MAX_SAFE_INTEGER
    && (pricing.Some? ==>
          SafeProduct(CpuMs((rate * SECONDS_PER_DAY * DAYS_PER_MONTH) as real, pricing.value)))
  }

  function PricingOf(ceiling: Option<Ceiling>): Option<Pricing> {
    if ceiling.None? then None else Some(ceiling.value.pricing)
  }

  /** No product leaves the safe range; `rate` is the peak rate. */
  predicate LoadsFit(input: Input, rate: nat) {
    && N(input.fellows) * N(input.activeSeconds) <= MAX_SAFE_INTEGER
    && N(input.fellows) * N(input.promotionsPerFellow) <= MAX_SAFE_INTEGER
    && N(input.sizingFellows) * N(input.sizingActiveSeconds) <= MAX_SAFE_INTEGER
    && N(input.sizingFellows) * N(input.activeSeconds) <= MAX_SAFE_INTEGER
    && Costed(rate, PricingOf(input.ceiling))
    && Costed(if N(input.statedCursorRate) < 0 then 0 else N(input.statedCursorRate), None)
    && (input.burst.Some? ==> BurstLoad(rate, input.burst.value) <= MAX_SAFE_INTEGER)
  }

  function PeakWhole(input: Input): nat {
    if N(input.cursorPoll) > 0 && N(input.lurkers) >= 0 then N(input.lurkers) / N(input.cursorPoll) else 0
  }

  lemma ClassesNamedExactly(classes: Option<seq<string>>)
    ensures RequestClasses(classes).Ok? <==> ClassesNamed(classes)
  {
  }

  lemma CostExactly(rate: nat, ceiling: Option<Ceiling>)
    ensures PerMonth(rate).Ok? && OptionalCost(PerMonth(rate).value, ceiling).Ok? <==> Costed(rate, PricingOf(ceiling))
  {
    hide PerMonth, OptionalCost, SafeProduct, CpuMs;
    PerMonthMeans(rate);
    if PerMonth(rate).Ok? {
      CostMeans(PerMonth(rate).value, ceiling);
    }
  }

  /**
   * An input is accepted exactly when its counts are in range and its classes named, no cadence
   * needs rounding and no product leaves the safe range.
   */
  lemma AcceptedExactly(input: Input)
    ensures Calculate(input).Ok? <==>
            && CountsOk(input) && ClassesNamed(input.enumerated) && ClassesNamed(input.unenumerated)
            && CadencesDivide(input) && LoadsFit(input, PeakWhole(input))
  {
    var rate := PeakWhole(input);
    CountsRead(input);
    if CountsOk(input) {
      BurstMeans(rate, input.burst, ReadCounts(input).value.burst);
      ClassesNamedExactly(input.enumerated);
      ClassesNamedExactly(input.unenumerated);
      CostExactly(rate, input.ceiling);
      CostExactly(ReadCounts(input).value.stated, None);
    }
    hide ReadCounts, CountsOk, BurstRead, PerMonth, BurstRequests, BurstLoad, OptionalCost, Costed, ClassesNamed, RequestClasses;
  }

  lemma ExactRatio(q: int, a: int, b: int)
    requires b > 0 && q * b == a
    ensures Ratio(a, b) == q as real
  {
    assert a as real == q as real * b as real;
  }

  lemma DutyDiffers(f: int, a: int, b: int, x: int, y: int, c: int)
    requires f > 0 && c > 0 && x * c == f * a && y * c == f * b
    ensures x == y <==> a == b
  {
    if x == y {
      assert f * a == f * b;
    }
    if a == b {
      assert x * c == y * c;
    }
  }

  lemma BaseRateExact(input: Input, w: Workload)
    requires Derived(input, w)
    ensures BaseRate(input) == w.baseLoad as real && PeakRate(input) == w.cursorRate as real
    ensures Ratio(N(input.tablePerMonth), DAYS_PER_MONTH) == w.tablePerDay as real
  {
    hide RawCost, RoundCents, Ratio;
    ExactRatio(w.packReads, N(input.fellows) * N(input.activeSeconds), N(input.packCadence));
    ExactRatio(w.workshopPushes, N(input.fellows) * N(input.activeSeconds), N(input.workshopCadence));
    ExactRatio(w.cursorRate, N(input.lurkers), N(input.cursorPoll));
    ExactRatio(w.tablePerDay, N(input.tablePerMonth), DAYS_PER_MONTH);
  }

  lemma PeakCostExact(input: Input, w: Workload)
    requires Derived(input, w) && input.ceiling.Some?
    ensures w.cost == Some(PeakCost(input))
  {
    BaseRateExact(input, w);
    hide RawCost, RoundCents, PeakRate;
    MonthAsReal(w.cursorRate);
  }

  lemma MonthAsReal(rate: nat)
    ensures (rate * SECONDS_PER_DAY * DAYS_PER_MONTH) as real ==
            rate as real * SECONDS_PER_DAY as real * DAYS_PER_MONTH as real
  {
  }

  /** The tests of the workload are the conditions on the input. */
  predicate Test(w: Workload, code: Code) {
    match code
    case Cursor => w.cursorRate != w.statedCursorRate
    case Table => w.tablePerDay != w.baseLoad
    case Duty => w.sizingPerDay != w.sizingAtWorkedDuty
    case Undeclared => w.burstPerDay.None? && !Covers(w)
    case Exceeded => Exceeds(w)
    case Storm => w.unenumerated != []
    case Display => w.displayedBaseLoad != w.baseLoad
  }

  lemma TestIsCondition(input: Input, w: Workload, code: Code)
    requires Derived(input, w)
    ensures Test(w, code) <==> Condition(input, code)
  {
    BaseRateExact(input, w);
    if input.ceiling.Some? {
      PeakCostExact(input, w);
    }
    hide BaseRate, PeakRate, PeakCost, Ratio;
    if code == Duty {
      DutyDiffers(N(input.sizingFellows), N(input.sizingActiveSeconds), N(input.activeSeconds),
                  w.sizingPerDay, w.sizingAtWorkedDuty, N(input.packCadence));
    }
  }

  lemma CodesAppend(a: seq<Finding>, b: seq<Finding>)
    ensures Codes(a + b) == Codes(a) + Codes(b)
  {
    var l, r := Codes(a + b), Codes(a) + Codes(b);
    assert forall i :: 0 <= i < |l| ==> l[i] == r[i];
  }

  function CodeWhen(condition: bool, code: Code): seq<Code> {
    if condition then [code] else []
  }

  lemma CodesWhen(condition: bool, f: Finding)
    ensures Codes(When(condition, f)) == CodeWhen(condition, CodeOf(f))
  {
    assert Codes([f]) == [CodeOf(f)];
  }

  /** The codes found are those whose test holds, each once, in the fixed order. */
  lemma CodesOfFindings(w: Workload)
    ensures Codes(Findings(w)) ==
            CodeWhen(Test(w, Cursor), Cursor) + CodeWhen(Test(w, Table), Table) + CodeWhen(Test(w, Duty), Duty)
            + CodeWhen(Test(w, Undeclared), Undeclared) + CodeWhen(Test(w, Exceeded), Exceeded)
            + CodeWhen(Test(w, Storm), Storm) + CodeWhen(Test(w, Display), Display)
  {
    hide Codes, CodeWhen, When, CodeOf;
    var f1 := When(Test(w, Cursor), CursorFinding(w));
    var f2 := When(Test(w, Table), TableFinding(w));
    var f3 := When(Test(w, Duty), DutyFinding(w));
    var f4 := When(Test(w, Undeclared), BurstShapeUndeclared(w.cursorRate));
    var f5 := When(Test(w, Exceeded), CeilingFinding(w));
    var f6 := When(Test(w, Storm), StormFinding(w));
    var f7 := When(Test(w, Display), DisplayFinding(w));
    CodesAppend(f1, f2);
    CodesAppend(f1 + f2, f3);
    CodesAppend(f1 + f2 + f3, f4);
    CodesAppend(f1 + f2 + f3 + f4, f5);
    CodesAppend(f1 + f2 + f3 + f4 + f5, f6);
    CodesAppend(f1 + f2 + f3 + f4 + f5 + f6, f7);
    FindingCodes(w);
    CodesWhen(Test(w, Cursor), CursorFinding(w));
    CodesWhen(Test(w, Table), TableFinding(w));
    CodesWhen(Test(w, Duty), DutyFinding(w));
    CodesWhen(Test(w, Undeclared), BurstShapeUndeclared(w.cursorRate));
    CodesWhen(Test(w, Exceeded), CeilingFinding(w));
    CodesWhen(Test(w, Storm), StormFinding(w));
    CodesWhen(Test(w, Display), DisplayFinding(w));
  }

  lemma FindingCodes(w: Workload)
    ensures CodeOf(CursorFinding(w)) == Cursor && CodeOf(TableFinding(w)) == Table && CodeOf(DutyFinding(w)) == Duty
    ensures CodeOf(BurstShapeUndeclared(w.cursorRate)) == Undeclared && CodeOf(CeilingFinding(w)) == Exceeded
    ensures CodeOf(StormFinding(w)) == Storm && CodeOf(DisplayFinding(w)) == Display
  {
  }

  predicate Distinct(codes: seq<Code>) {
    forall i, j :: 0 <= i < j < |codes| ==> codes[i] != codes[j]
  }

  /** The place of a code in the fixed order. */
  function Rank(code: Code): nat {
    match code
    case Cursor => 0
    case Table => 1
    case Duty => 2
    case Undeclared => 3
    case Exceeded => 4
    case Storm => 5
    case Display => 6
  }

  /** In order of rank, all below `bound`. */
  predicate Ranked(codes: seq<Code>, bound: nat) {
    && (forall i, j :: 0 <= i < j < |codes| ==> Rank(codes[i]) < Rank(codes[j]))
    && forall i :: 0 <= i < |codes| ==> Rank(codes[i]) < bound
  }

  lemma RankedNext(codes: seq<Code>, condition: bool, code: Code)
    requires Ranked(codes, Rank(code))
    ensures Ranked(codes + CodeWhen(condition, code), Rank(code) + 1)
  {
    hide Rank;
  }

  lemma InBoth<T>(a: seq<T>, b: seq<T>, x: T)
    ensures x in a + b <==> x in a || x in b
  {
  }

  lemma InCodeWhen(condition: bool, code: Code, x: Code)
    ensures x in CodeWhen(condition, code) <==> condition && x == code
  {
  }

  lemma InWhen(condition: bool, f: Finding, x: Finding)
    ensures x in When(condition, f) <==> condition && x == f
  {
  }

  lemma RankedIsDistinct(codes: seq<Code>, bound: nat)
    requires Ranked(codes, bound)
    ensures Distinct(codes)
  {
    hide Rank;
  }

  /** One more code whose test may hold: the list stays ranked, and holds what it held and that code. */
  lemma CodeNext(w: Workload, codes: seq<Code>, code: Code, asked: Code)
    requires Ranked(codes, Rank(code))
    ensures Ranked(codes + CodeWhen(Test(w, code), code), Rank(code) + 1)
    ensures asked in codes + CodeWhen(Test(w, code), code) <==> asked in codes || (Test(w, code) && asked == code)
  {
    hide Test, CodeWhen, Rank, Ranked;
    RankedNext(codes, Test(w, code), code);
    InBoth(codes, CodeWhen(Test(w, code), code), asked);
    InCodeWhen(Test(w, code), code, asked);
  }

  lemma CodesRanked(w: Workload, code: Code)
    ensures Ranked(Codes(Findings(w)), 7)
    ensures code in Codes(Findings(w)) <==> Test(w, code)
  {
    CodesOfFindings(w);
    hide Codes, Findings, CodeWhen, Ranked, Test;
    var c1 := CodeWhen(Test(w, Cursor), Cursor);
    NoneRanked();
    assert [] + c1 == c1;
    CodeNext(w, [], Cursor, code);
    var c2 := c1 + CodeWhen(Test(w, Table), Table);
    CodeNext(w, c1, Table, code);
    var c3 := c2 + CodeWhen(Test(w, Duty), Duty);
    CodeNext(w, c2, Duty, code);
    var c4 := c3 + CodeWhen(Test(w, Undeclared), Undeclared);
    CodeNext(w, c3, Undeclared, code);
    var c5 := c4 + CodeWhen(Test(w, Exceeded), Exceeded);
    CodeNext(w, c4, Exceeded, code);
    var c6 := c5 + CodeWhen(Test(w, Storm), Storm);
    CodeNext(w, c5, Storm, code);
    CodeNext(w, c6, Display, code);
  }

  lemma NoneRanked()
    ensures Ranked([], 0)
  {
  }

  /** Each of the seven codes appears at most once, and exactly under its own condition. */
  lemma FindingsExact(input: Input, code: Code)
    requires Calculate(input).Ok?
    ensures Distinct(Codes(Findings(Calculate(input).value)))
    ensures code in Codes(Findings(Calculate(input).value)) <==> Condition(input, code)
  {
    hide Calculate, Findings, Condition, Test, Derived, Codes, Ranked, Distinct;
    var w := Calculate(input).value;
    CalculateDerives(input);
    CodesRanked(w, code);
    RankedIsDistinct(Codes(Findings(w)), 7);
    TestIsCondition(input, w, code);
  }

  /** What a finding's figures say about the declared input. */
  predicate Figures(input: Input, f: Finding) {
    match f
    case CursorRateMismatch(stated, computed) =>
      stated == N(input.statedCursorRate) && computed as real == PeakRate(input)
    case TableScenarioMismatch(table, sizing, base) =>
      && table * DAYS_PER_MONTH == N(input.tablePerMonth) && base as real == BaseRate(input)
      && sizing * N(input.packCadence) == N(input.sizingFellows) * N(input.sizingActiveSeconds)
    case DutyCycleMismatch(worked, sizing, perDay, atWorkedDuty) =>
      && worked == N(input.activeSeconds) && sizing == N(input.sizingActiveSeconds)
      && perDay * N(input.packCadence) == N(input.sizingFellows) * sizing
      && atWorkedDuty * N(input.packCadence) == N(input.sizingFellows) * worked
    case BurstShapeUndeclared(peak) => peak as real == PeakRate(input)
    case CeilingExceeded(ceilingUsd, costUsd) =>
      input.ceiling.Some? && ceilingUsd == input.ceiling.value.usdPerMonth && costUsd == PeakCost(input) > ceilingUsd
    case StormRoomUnresolved(table, sizing, enumerated, unenumerated) =>
      && table * DAYS_PER_MONTH == N(input.tablePerMonth)
      && sizing * N(input.packCadence) == N(input.sizingFellows) * N(input.sizingActiveSeconds)
      && input.enumerated == Some(enumerated) && input.unenumerated == Some(unenumerated) && unenumerated != []
    case RoundedDisplayMismatch(exact, displayed, difference, exactParts, displayedParts) =>
      && exact as real == BaseRate(input) && difference == displayed - exact != 0
      && exact == exactParts.packReads + exactParts.workshopPushes + exactParts.promotions
      && displayed == displayedParts.packReads + displayedParts.workshopPushes + displayedParts.promotions
      && exactParts.packReads * N(input.packCadence) == N(input.fellows) * N(input.activeSeconds)
      && exactParts.workshopPushes * N(input.workshopCadence) == N(input.fellows) * N(input.activeSeconds)
      && exactParts.promotions == N(input.fellows) * N(input.promotionsPerFellow)
      && input.displayedPackReads == Whole(displayedParts.packReads)
      && input.displayedWorkshopPushes == Whole(displayedParts.workshopPushes)
      && input.displayedPromotions == Whole(displayedParts.promotions)
  }

  lemma FindingIsOne(w: Workload, f: Finding)
    requires f in Findings(w)
    ensures || f == CursorFinding(w) || f == TableFinding(w) || f == DutyFinding(w) || f == BurstShapeUndeclared(w.cursorRate)
            || (Exceeds(w) && f == CeilingFinding(w)) || (w.unenumerated != [] && f == StormFinding(w))
            || (w.displayedBaseLoad != w.baseLoad && f == DisplayFinding(w))
  {
    hide When, CursorFinding, TableFinding, DutyFinding, CeilingFinding, StormFinding, DisplayFinding, Covers, Exceeds;
    var f1 := When(w.cursorRate != w.statedCursorRate, CursorFinding(w));
    var f2 := When(w.tablePerDay != w.baseLoad, TableFinding(w));
    var f3 := When(w.sizingPerDay != w.sizingAtWorkedDuty, DutyFinding(w));
    var f4 := When(w.burstPerDay.None? && !Covers(w), BurstShapeUndeclared(w.cursorRate));
    var f5 := When(Exceeds(w), CeilingFinding(w));
    var f6 := When(w.unenumerated != [], StormFinding(w));
    var f7 := When(w.displayedBaseLoad != w.baseLoad, DisplayFinding(w));
    assert Findings(w) == f1 + f2 + f3 + f4 + f5 + f6 + f7;
    hide Findings;
    InBoth(f1 + f2 + f3 + f4 + f5 + f6, f7, f);
    InBoth(f1 + f2 + f3 + f4 + f5, f6, f);
    InBoth(f1 + f2 + f3 + f4, f5, f);
    InBoth(f1 + f2 + f3, f4, f);
    InBoth(f1 + f2, f3, f);
    InBoth(f1, f2, f);
    InWhen(w.cursorRate != w.statedCursorRate, CursorFinding(w), f);
    InWhen(w.tablePerDay != w.baseLoad, TableFinding(w), f);
    InWhen(w.sizingPerDay != w.sizingAtWorkedDuty, DutyFinding(w), f);
    InWhen(w.burstPerDay.None? && !Covers(w), BurstShapeUndeclared(w.cursorRate), f);
    InWhen(Exceeds(w), CeilingFinding(w), f);
    InWhen(w.unenumerated != [], StormFinding(w), f);
    InWhen(w.displayedBaseLoad != w.baseLoad, DisplayFinding(w), f);
  }

  /** Every finding carries the declared and the derived figures it compares. */
  lemma FiguresExact(input: Input, f: Finding)
    requires Calculate(input).Ok? && f in Findings(Calculate(input).value)
    ensures Figures(input, f)
  {
    hide Calculate, Findings, PeakRate, BaseRate, PeakCost, Ratio;
    var w := Calculate(input).value;
    CalculateDerives(input);
    FindingIsOne(w, f);
    BaseRateExact(input, w);
    if input.ceiling.Some? {
      PeakCostExact(input, w);
    }
  }

  // ----- every combination of findings is possible

  /** An input whose findings are exactly the codes asked for. */
  function Witness(codes: set<Code>): Input {
    var tight := Pricing("2026-08-17", 5.0, 10_000_000.0, 0.0, 30_000_000.0, 0.0, 1.0);
    Input(
      Whole(1), Whole(1), Whole(60), Whole(60), Whole(60), Whole(0), Whole(10), Whole(10),
      Whole(if Cursor in codes then 2 else 1),
      Whole(if Display in codes then 2 else 1), Whole(1), Whole(0),
      if Undeclared in codes then None else Some(Burst(Whole(1), Whole(1))),
      if Exceeded in codes then Some(Ceiling(1.0, "2026-08-17", tight)) else None,
      Whole(1), Whole(if Duty in codes then 120 else 60),
      Whole(if Table in codes then 30 else 60),
      Some(["pack_reads"]), Some(if Storm in codes then ["promotions"] else []))
  }

  lemma WitnessAccepted(codes: set<Code>)
    ensures Calculate(Witness(codes)).Ok?
  {
    hide Calculate;
    AcceptedExactly(Witness(codes));
  }

  lemma WitnessConditions(codes: set<Code>, code: Code)
    ensures Condition(Witness(codes), code) <==> code in codes
  {
  }

  /** Every one of the 128 subsets of codes is what some accepted input yields. */
  lemma FindingsIndependent(codes: set<Code>)
    ensures Calculate(Witness(codes)).Ok?
    ensures forall code :: code in Codes(Findings(Calculate(Witness(codes)).value)) <==> code in codes
  {
    hide Calculate, Findings, Condition, Codes, Witness;
    WitnessAccepted(codes);
    forall code ensures code in Codes(Findings(Calculate(Witness(codes)).value)) <==> code in codes {
      FindingsExact(Witness(codes), code);
      WitnessConditions(codes, code);
    }
  }

  // ----- the affordability verdict

  /** With a ceiling declared, exactly one of the resolution and the finding; with none, neither. */
  lemma VerdictExclusive(input: Input)
    requires Calculate(input).Ok?
    ensures var w := Calculate(input).value;
            && (input.ceiling.Some? ==> (Resolutions(w) != [] <==> Exceeded !in Codes(Findings(w))))
            && (input.ceiling.None? ==> Resolutions(w) == [] && Exceeded !in Codes(Findings(w)))
            && (Resolutions(w) != [] ==>
                  var c := input.ceiling.value;
                  Resolutions(w) == [CeilingCovers(c.usdPerMonth, PeakCost(input), c.acceptedOn, c.pricing.retrievedOn)])
  {
    hide Findings, Codes, PeakCost, Derived, Calculate;
    var w := Calculate(input).value;
    FindingsExact(input, Exceeded);
    CalculateDerives(input);
    CeilingKept(input, w);
    if input.ceiling.Some? {
      PeakCostExact(input, w);
    }
  }

  lemma CeilingKept(input: Input, w: Workload)
    requires Derived(input, w)
    ensures w.ceiling == input.ceiling && (w.cost.Some? <==> input.ceiling.Some?)
  {
    hide RawCost, RoundCents;
  }

  /** The evidence total: a running sum that is refused before it leaves the safe range. */
  method SafeEvidenceTotal(values: seq<Field>) returns (r: Result<nat, Error>)
    ensures r.Ok? <==> AllCounts(values) && Total(values) <= MAX_SAFE_INTEGER
    ensures r == if AllCounts(values) && Total(values) <= MAX_SAFE_INTEGER then Ok(Total(values)) else Err(InputInvalid)
  {
    var total: nat := 0;
    for i := 0 to |values|
      invariant AllCounts(values[..i]) && total == Total(values[..i]) <= MAX_SAFE_INTEGER
    {
      var value := values[i];
      TotalNext(values, i);
      if !value.Whole? || value.n < 0 || value.n > MAX_SAFE_INTEGER - total {
        if value.Whole? && value.n >= 0 {
          TotalGrows(values, i + 1);
        }
        return Err(InputInvalid);
      }
      total := total + value.n;
    }
    assert values[..|values|] == values;
    r := Ok(total);
  }

  predicate AllCounts(values: seq<Field>) {
    forall i :: 0 <= i < |values| ==> values[i].Whole? && values[i].n >= 0
  }

  function Total(values: seq<Field>): int {
    if values == [] then 0 else Total(values[..|values| - 1]) + N(values[|values| - 1])
  }

  lemma TotalNext(values: seq<Field>, i: nat)
    requires i < |values|
    ensures Total(values[..i + 1]) == Total(values[..i]) + N(values[i])
  {
    assert values[..i + 1][..i] == values[..i];
  }

  lemma {:induction false} TotalGrows(values: seq<Field>, i: nat)
    requires i <= |values|
    ensures AllCounts(values) ==> Total(values[..i]) <= Total(values)
    decreases |values|
  {
    if i == |values| {
      assert values[..i] == values;
    } else {
      TotalGrows(values[..|values| - 1], i);
      assert values[..|values| - 1][..i] == values[..i];
    }
  }
}
