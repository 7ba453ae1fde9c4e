/**
 * What the fixture origin answers, said from the requests of a run alone: the rules a
 * promotion must pass, the whole answer of a ledger without a defect, and the one place
 * where each planted defect shows.
 */
module FixtureReplies {
  import opened Wrappers
  import opened FixtureLedger

  predicate Authorised(c: Config, r: Request) {
    c.token != "" && r.authorization == "Bearer " + c.token
  }

  predicate Promotes(r: Request) {
    r.Post? && r.postRoute.Promote?
  }

  function PromotionOf(r: Request): Promotion
    requires Promotes(r)
  {
    r.postRoute.body
  }

  /** A conjecture without a falsifier. */
  predicate Bare(p: Promotion) {
    p.kind == "conjecture" && p.falsifier == ""
  }

  /** An authorised promotion at place i. */
  predicate Promoting(c: Config, run: seq<Request>, i: nat) {
    i < |run| && Promotes(run[i]) && Authorised(c, run[i])
  }

  /** The j-th request was a promotion of the statement, answered 201. */
  predicate PromotedAt(c: Config, run: seq<Request>, j: nat, norm: string) {
    && j < |run| && Promotes(run[j]) && !Bare(PromotionOf(run[j]))
    && c.norm(PromotionOf(run[j]).statement) == norm && ReplyTo(c, run, j).status == 201
  }

  ghost predicate PromotedBefore(c: Config, run: seq<Request>, i: nat, norm: string) {
    exists j: nat :: j < i && PromotedAt(c, run, j, norm)
  }

  /** The i-th request was not accepted, and left no trace in the ledger. */
  predicate Refused(c: Config, run: seq<Request>, i: nat) {
    i < |run| && ReplyTo(c, run, i).status != 201 && After(c, run[..i + 1]) == After(c, run[..i])
  }

  /** The same, with the status and the problem code of the refusal. */
  predicate RefusedWith(c: Config, run: seq<Request>, i: nat, status: int, code: string) {
    Refused(c, run, i) && ReplyTo(c, run, i) == Say(status, Problem(code))
  }

  // ----- runs, one request at a time

  lemma StepAt(c: Config, run: seq<Request>, i: nat)
    requires i < |run|
    ensures After(c, run[..i + 1]) == Step(c, After(c, run[..i]), run[i]).0
    ensures ReplyTo(c, run, i) == Step(c, After(c, run[..i]), run[i]).1
  {
    hide Step;
    assert run[..i + 1][..i] == run[..i];
    AfterNext(c, run[..i + 1]);
  }

  lemma PromotionStep(c: Config, run: seq<Request>, i: nat)
    requires Promoting(c, run, i)
    ensures (After(c, run[..i + 1]), ReplyTo(c, run, i)) == PromoteStep(c, After(c, run[..i]), PromotionOf(run[i]))
  {
    hide PromoteStep;
    StepAt(c, run, i);
    PromoteIsStep(c, After(c, run[..i]), run[i]);
  }

  /** The statements a ledger holds are exactly those of the promotions it accepted. */
  lemma {:induction false} HeldExactly(c: Config, run: seq<Request>, i: nat, norm: string)
    requires i <= |run|
    ensures norm in After(c, run[..i]).promotedNorms <==> PromotedBefore(c, run, i, norm)
  {
    if i > 0 {
      HeldExactly(c, run, i - 1, norm);
      StepAt(c, run, i - 1);
      NormsStep(c, After(c, run[..i - 1]), run[i - 1], norm);
      hide Step, After, ReplyTo;
      var before, now := PromotedBefore(c, run, i - 1, norm), PromotedAt(c, run, i - 1, norm);
      assert PromotedBefore(c, run, i, norm) ==> before || now;
    }
  }

  lemma NormsStep(c: Config, s: State, r: Request, norm: string)
    ensures norm in Step(c, s, r).0.promotedNorms <==>
            || norm in s.promotedNorms
            || (Promotes(r) && !Bare(PromotionOf(r)) && c.norm(PromotionOf(r).statement) == norm && Step(c, s, r).1.status == 201)
  {
    if Promotes(r) {
      PromoteIsStep(c, s, r);
    } else {
      OthersKeepCursor(c, s, r);
    }
    hide Step, BearerOk;
  }

  // ----- the three rules, over all runs

  /** A promotion that claims its own status. */
  predicate Claims(c: Config, run: seq<Request>, i: nat) {
    Promoting(c, run, i) && PromotionOf(run[i]).hasStatusField
  }

  predicate LacksFalsifier(c: Config, run: seq<Request>, i: nat) {
    Promoting(c, run, i) && Bare(PromotionOf(run[i]))
  }

  /** A promotion of a statement that was promoted before, other than a conjecture without a falsifier. */
  ghost predicate Repeats(c: Config, run: seq<Request>, i: nat) {
    Promoting(c, run, i) && !Bare(PromotionOf(run[i])) && PromotedBefore(c, run, i, c.norm(PromotionOf(run[i]).statement))
  }

  /** No conjecture without a falsifier is ever accepted, exactly when that check is not the planted defect. */
  lemma FalsifierRuleExactly(c: Config)
    requires c.token != ""
    ensures (forall run, i: nat :: LacksFalsifier(c, run, i) ==> Refused(c, run, i)) <==> c.defect != P3Missing
  {
    if c.defect == P3Missing {
      var run := [PromoteRequest(c, NO_FALSIFIER)];
      PromotionStep(c, run, 0);
      assert LacksFalsifier(c, run, 0) && !Refused(c, run, 0);
    } else {
      forall run, i: nat | LacksFalsifier(c, run, i) ensures Refused(c, run, i) {
        PromotionStep(c, run, i);
      }
    }
  }

  const SELF_CERTIFIED := Promotion("claim", "a statement", "", true)

  /** No promotion that claims its own status is ever accepted, exactly when that check is not the planted defect. */
  lemma StatusRuleExactly(c: Config)
    requires c.token != ""
    ensures (forall run, i: nat :: Claims(c, run, i) ==> Refused(c, run, i)) <==> c.defect != SelfCertMissing
  {
    if c.defect == SelfCertMissing {
      var run := [PromoteRequest(c, SELF_CERTIFIED)];
      assert run[..0] == [];
      PromotionStep(c, run, 0);
      assert Claims(c, run, 0) && !Refused(c, run, 0);
    } else {
      forall run, i: nat | Claims(c, run, i) ensures Refused(c, run, i) {
        PromotionStep(c, run, i);
      }
    }
  }

  /** No statement is ever promoted twice, exactly when that check is not the planted defect. */
  lemma DuplicateRuleExactly(c: Config)
    requires c.token != ""
    ensures (forall run, i: nat :: Repeats(c, run, i) ==> Refused(c, run, i)) <==> c.defect != P11Missing
  {
    if c.defect == P11Missing {
      var r := PromoteRequest(c, PLAIN);
      var run := [r, r];
      assert run[..0] == [];
      PromotionStep(c, run, 0);
      PromotionStep(c, run, 1);
      assert PromotedAt(c, run, 0, c.norm(PLAIN.statement));
      assert Repeats(c, run, 1) && !Refused(c, run, 1);
    } else {
      forall run, i: nat | Repeats(c, run, i) ensures Refused(c, run, i) {
        PromotionStep(c, run, i);
        HeldExactly(c, run, i, c.norm(PromotionOf(run[i]).statement));
      }
    }
  }

  /**
   * How each rule refuses, in the order in which the rules are applied: the status field first, the
   * falsifier next, and the repeated statement last.
   */
  lemma RefusalsNamed(c: Config, run: seq<Request>, i: nat)
    ensures Claims(c, run, i) && c.defect != SelfCertMissing ==> RefusedWith(c, run, i, 422, "SCHEMA_INVALID")
    ensures LacksFalsifier(c, run, i) && !Claims(c, run, i) && c.defect != P3Missing ==>
              RefusedWith(c, run, i, 422, "MISSING_FALSIFIER")
    ensures Repeats(c, run, i) && !Claims(c, run, i) && c.defect != P11Missing ==>
              RefusedWith(c, run, i, 409, "DUPLICATE_CLAIM")
  {
    if Promoting(c, run, i) {
      PromotionStep(c, run, i);
      HeldExactly(c, run, i, c.norm(PromotionOf(run[i]).statement));
    }
  }

  /** A promotion that no rule stands against is accepted and recorded, unless acceptance itself is the defect. */
  lemma AcceptedOtherwise(c: Config, run: seq<Request>, i: nat)
    requires Promoting(c, run, i) && !Claims(c, run, i) && !LacksFalsifier(c, run, i) && !Repeats(c, run, i)
    ensures if c.defect == PromoteFailed then Refused(c, run, i) && ReplyTo(c, run, i) == Say(500, Boom)
            else
              && ReplyTo(c, run, i) == Say(201, Promoted)
              && c.norm(PromotionOf(run[i]).statement) in After(c, run[..i + 1]).promotedNorms
              && After(c, run[..i + 1]).cursor == After(c, run[..i]).cursor + if c.defect == CursorLaw then 0 else 1
  {
    PromotionStep(c, run, i);
    HeldExactly(c, run, i, c.norm(PromotionOf(run[i]).statement));
  }

  // ----- the ledger without a defect

  function Unauthorised(): Reply {
    Say(401, Problem("UNAUTHORIZED"))
  }

  function Missing(): Reply {
    Say(404, Problem("NOT_FOUND"))
  }

  /** What a promotion deserves, from the promotions before it. */
  ghost function PromotionDue(c: Config, run: seq<Request>, i: nat, p: Promotion): Reply {
    if p.hasStatusField then Say(422, Problem("SCHEMA_INVALID"))
    else if Bare(p) then Say(422, Problem("MISSING_FALSIFIER"))
    else if PromotedBefore(c, run, i, c.norm(p.statement)) then Say(409, Problem("DUPLICATE_CLAIM"))
    else Say(201, Promoted)
  }

  ghost function SessionDue(c: Config, run: seq<Request>, i: nat, route: PostRoute): Reply {
    match route
    case OpenSession => Say(201, SessionOpened)
    case PackPost => Say(200, PackBody)
    case WorkshopPush(claimShaped) => if claimShaped then Say(422, Problem("LOOKS_LIKE_CLAIM")) else Say(201, WorkshopAccepted)
    case Promote(p) => PromotionDue(c, run, i, p)
    case CloseSession => Say(201, Closed)
    case _ => Missing()
  }

  ghost function PostDue(c: Config, run: seq<Request>, i: nat): Reply
    requires i < |run| && run[i].Post?
  {
    match run[i].postRoute
    case SponsorWorkshop => Unauthorised()
    case DeviceCode(key) => if key == "" then Say(400, Problem("IDEMPOTENCY_KEY_MISSING")) else Say(201, Device(DeviceBody))
    case route => if Authorised(c, run[i]) then SessionDue(c, run, i, route) else Unauthorised()
  }

  /** The answer a faithful origin owes to the i-th request, from the requests before it and not from any state. */
  ghost function Due(c: Config, run: seq<Request>, i: nat): Reply
    requires i < |run|
  {
    if run[i].Post? then PostDue(c, run, i)
    else
      match run[i].getRoute
      case Handbook => Say(200, Page)
      case Capabilities => Say(200, CapabilityList)
      case ProblemsIndex => Say(200, Index)
      case Cursor => Say(200, CursorText(41 + PromotionsAccepted(c, run[..i])))
      case PackRead => if Authorised(c, run[i]) then Say(200, PackBody) else Unauthorised()
      case UnknownGet => Missing()
  }

  lemma NeverArmed(c: Config, run: seq<Request>)
    requires !c.defect.RetryAfter?
    ensures !After(c, run).rateLimitArm
  {
    AtMostOne429(c, run);
  }

  lemma GetDue(c: Config, run: seq<Request>, i: nat)
    requires c.defect == NoDefect && i < |run| && run[i].Get?
    ensures ReplyTo(c, run, i) == Due(c, run, i)
  {
    NeverArmed(c, run[..i]);
    PromotionsCounted(c, run[..i]);
    hide After, PostStep, PostDue, PromotionsAccepted;
  }

  lemma DeviceDue(c: Config, run: seq<Request>, i: nat)
    requires c.defect == NoDefect && i < |run| && run[i].Post? && run[i].postRoute.DeviceCode?
    ensures ReplyTo(c, run, i) == PostDue(c, run, i)
  {
    DeviceReplies(c, run, i, run[i].postRoute.key);
    hide ReplyTo, SessionDue;
  }

  lemma OtherDue(c: Config, run: seq<Request>, i: nat)
    requires c.defect == NoDefect && i < |run| && run[i].Post? && !run[i].postRoute.DeviceCode? && !Promoting(c, run, i)
    ensures ReplyTo(c, run, i) == PostDue(c, run, i)
  {
    assert Authorised(c, run[i]) == BearerOk(c, run[i].authorization);
    hide After, PromoteStep, DeviceStep, PromotionDue, GetStep, Authorised, BearerOk;
  }

  /** Without a defect every request of every run gets the answer that is due to it. */
  lemma FaithfulLedger(c: Config, run: seq<Request>, i: nat)
    requires c.defect == NoDefect && i < |run|
    ensures ReplyTo(c, run, i) == Due(c, run, i)
  {
    hide ReplyTo, PromotionDue;
    if run[i].Get? {
      GetDue(c, run, i);
    } else if run[i].postRoute.DeviceCode? {
      DeviceDue(c, run, i);
    } else if Promoting(c, run, i) {
      PromotionIsDue(c, run, i);
    } else {
      OtherDue(c, run, i);
    }
  }

  lemma PromotionIsDue(c: Config, run: seq<Request>, i: nat)
    requires c.defect == NoDefect && Promoting(c, run, i)
    ensures ReplyTo(c, run, i) == PromotionDue(c, run, i, PromotionOf(run[i]))
  {
    PromotionStep(c, run, i);
    HeldExactly(c, run, i, c.norm(PromotionOf(run[i]).statement));
    hide After, ReplyTo;
  }

  // ----- where a defect shows

  function Healthy(c: Config): Config {
    c.(defect := NoDefect)
  }

  /** The same request, without the field by which a promotion claims its own status. */
  function WithoutStatusField(r: Request): Request
    requires Promotes(r)
  {
    r.(postRoute := Promote(PromotionOf(r).(hasStatusField := false)))
  }

  /** The requests that reach the defective line. */
  predicate GetShows(defect: Defect, route: GetRoute, authorised: bool) {
    match defect
    case HandbookUnavailable => route == Handbook
    case CapabilitiesUnavailable => route == Capabilities
    case IndexStatus | IndexMediaType | IndexMalformed | PublicFaceLeak | IndexContract => route == ProblemsIndex
    case CursorNonInteger | CursorHttp => route == Cursor
    case PackUnavailable | PackContract => route == PackRead && authorised
    case _ => false
  }

  predicate PostShows(c: Config, s: State, route: PostRoute, authorised: bool) {
    match c.defect
    case SponsorBoundaryOpen | SponsorBoundaryOrder | SponsorBoundaryFace => route == SponsorWorkshop
    case DeviceStatus | DeviceShape => route.DeviceCode? && route.key != "" && route.key !in s.deviceKeys
    case ReplayStatus | ReplayDrift => route.DeviceCode? && route.key != "" && route.key in s.deviceKeys
    case PackUnavailable | PackContract => route == PackPost && authorised
    case SessionOpenFailed | SessionIdMalformed => route == OpenSession && authorised
    case ClassifierMissing => route == WorkshopPush(true) && authorised
    case WorkshopPushFailed | WorkshopIdMalformed => route == WorkshopPush(false) && authorised
    case CloseFailed => route == CloseSession && authorised
    case P3Missing => route.Promote? && authorised && !route.body.hasStatusField && Bare(route.body)
    case P11Missing =>
      route.Promote? && authorised && !route.body.hasStatusField && !Bare(route.body) && c.norm(route.body.statement) in s.promotedNorms
    case PromoteFailed =>
      route.Promote? && authorised && !route.body.hasStatusField && !Bare(route.body) && c.norm(route.body.statement) !in s.promotedNorms
    case _ => false
  }

  predicate Shows(c: Config, s: State, r: Request) {
    if r.Get? then GetShows(c.defect, r.getRoute, Authorised(c, r)) else PostShows(c, s, r.postRoute, Authorised(c, r))
  }

  /** The answer that a defective line gives. */
  function Planted(defect: Defect): Reply {
    match defect
    case HandbookUnavailable | DeviceStatus | ReplayStatus | SessionOpenFailed | WorkshopPushFailed
       | PromoteFailed | CloseFailed => Say(500, Boom)
    case CapabilitiesUnavailable | IndexStatus | CursorHttp | PackUnavailable => Say(503, Boom)
    case IndexMediaType | IndexMalformed | PublicFaceLeak | IndexContract => Say(200, BrokenIndex)
    case CursorNonInteger => Say(200, NotACursor)
    case PackContract => Say(200, BrokenPack)
    case SponsorBoundaryOpen => Say(200, Page)
    case SponsorBoundaryOrder => Say(400, Problem("SCHEMA_INVALID"))
    case SponsorBoundaryFace => Say(401, Problem("WRONG_PRINCIPAL"))
    case DeviceShape => Say(201, Device(MisshapenBody))
    case ReplayDrift => Say(201, Device(DriftedBody))
    case SessionIdMalformed => Say(201, BadSessionId)
    case ClassifierMissing => Say(201, WorkshopAccepted)
    case WorkshopIdMalformed => Say(201, BadWorkshopId)
    case _ => Say(201, Promoted)
  }

  /** The step of the ledger without the defect; a status field is overlooked, and the cursor kept, under the defects of that name. */
  function Otherwise(c: Config, s: State, r: Request): (State, Reply) {
    var healthy := Step(Healthy(c), s, if c.defect == SelfCertMissing && Promotes(r) then WithoutStatusField(r) else r);
    if c.defect == CursorLaw then (healthy.0.(cursor := s.cursor), healthy.1) else healthy
  }

  /**
   * A defect changes the answer at its own line and nowhere else: every other request is answered, and
   * kept, as by the ledger without it, in the same state.
   */
  lemma DefectLocal(c: Config, s: State, r: Request)
    requires !s.rateLimitArm
    ensures if Shows(c, s, r) then Step(c, s, r).1 == Planted(c.defect) else Step(c, s, r) == Otherwise(c, s, r)
  {
    if r.Get? {
      GetLocal(c, s, r);
    } else if Promotes(r) {
      PromotionLocal(c, s, r);
    } else {
      PostLocal(c, s, r);
    }
  }

  lemma GetLocal(c: Config, s: State, r: Request)
    requires r.Get? && !s.rateLimitArm
    ensures if Shows(c, s, r) then Step(c, s, r).1 == Planted(c.defect) else Step(c, s, r) == Otherwise(c, s, r)
  {
    hide PostStep, PostShows;
  }

  lemma DeviceLocal(c: Config, s: State, key: string)
    ensures if PostShows(c, s, DeviceCode(key), true) then DeviceStep(c, s, key).1 == Planted(c.defect)
            else DeviceStep(c, s, key) == DeviceStep(Healthy(c), s, key)
    ensures PostShows(c, s, DeviceCode(key), true) == PostShows(c, s, DeviceCode(key), false)
  {
  }

  lemma PostLocal(c: Config, s: State, r: Request)
    requires r.Post? && !Promotes(r)
    ensures if Shows(c, s, r) then Step(c, s, r).1 == Planted(c.defect) else Step(c, s, r) == Otherwise(c, s, r)
  {
    hide GetStep, GetShows, PromoteStep;
    assert Authorised(c, r) == BearerOk(c, r.authorization) == BearerOk(Healthy(c), r.authorization);
    hide Authorised, BearerOk, DeviceStep;
    if r.postRoute.DeviceCode? {
      DeviceLocal(c, s, r.postRoute.key);
      hide PostShows, Planted;
    }
  }

  lemma RulesLocal(c: Config, s: State, p: Promotion)
    ensures var healthy := PromoteStep(Healthy(c), s, if c.defect == SelfCertMissing then p.(hasStatusField := false) else p);
            if PostShows(c, s, Promote(p), true) then PromoteStep(c, s, p).1 == Planted(c.defect)
            else PromoteStep(c, s, p) == if c.defect == CursorLaw then (healthy.0.(cursor := s.cursor), healthy.1) else healthy
  {
  }

  lemma PromotionLocal(c: Config, s: State, r: Request)
    requires Promotes(r)
    ensures if Shows(c, s, r) then Step(c, s, r).1 == Planted(c.defect) else Step(c, s, r) == Otherwise(c, s, r)
  {
    PromoteIsStep(c, s, r);
    PromoteIsStep(Healthy(c), s, r);
    PromoteIsStep(Healthy(c), s, WithoutStatusField(r));
    assert Authorised(c, r) == BearerOk(c, r.authorization) == BearerOk(Healthy(c), r.authorization);
    RulesLocal(c, s, PromotionOf(r));
    hide Step, Authorised, BearerOk, PromoteStep, Planted;
  }
}
