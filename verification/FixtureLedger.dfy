/**
 * The seeded fixture origin (scripts/smoke-agent-fixture-origin.py): one locked
 * ledger, two handlers that are atomic steps on it, and a defect planted per run.
 */
module FixtureLedger {
  import opened Wrappers

  datatype Defect =
    | NoDefect
    | RetryAfter(value: string)
    | HandbookUnavailable | CapabilitiesUnavailable
    | IndexStatus | IndexMediaType | IndexMalformed | PublicFaceLeak | IndexContract
    | CursorNonInteger | CursorHttp
    | PackUnavailable | PackContract
    | SponsorBoundaryOpen | SponsorBoundaryOrder | SponsorBoundaryFace
    | DeviceStatus | DeviceShape | ReplayStatus | ReplayDrift
    | SessionOpenFailed | SessionIdMalformed
    | ClassifierMissing | WorkshopPushFailed | WorkshopIdMalformed
    | SelfCertMissing | P3Missing | P11Missing | PromoteFailed | CursorLaw
    | CloseFailed

  /** The fixed part of a run; `norm` is the statement normal form (strip, collapse, casefold). */
  datatype Config = Config(defect: Defect, token: string, norm: string -> string)

  datatype DevicePayload = DeviceBody | DriftedBody | MisshapenBody

  datatype Promotion = Promotion(kind: string, statement: string, falsifier: string, hasStatusField: bool)

  datatype GetRoute = Handbook | Capabilities | ProblemsIndex | Cursor | PackRead | UnknownGet

  datatype PostRoute =
    | SponsorWorkshop
    | DeviceCode(key: string)
    | OpenSession
    | PackPost
    | WorkshopPush(claimShaped: bool)
    | Promote(body: Promotion)
    | CloseSession
    | UnknownPost

  datatype Request = Get(getRoute: GetRoute, authorization: string) | Post(postRoute: PostRoute, authorization: string)

  datatype Body =
    | Page | CapabilityList | Index | BrokenIndex | CursorText(n: int) | NotACursor | PackBody | BrokenPack
    | Device(payload: DevicePayload) | SessionOpened | BadSessionId | WorkshopAccepted | BadWorkshopId
    | Promoted | Closed | Problem(code: string) | Boom

  datatype Reply = Reply(status: int, body: Body, retryAfter: Option<string>)

  /** The mutable fields of the ledger. */
  datatype State = State(cursor: int, deviceKeys: map<string, DevicePayload>, promotedNorms: set<string>, rateLimitArm: bool)

  function Say(status: int, body: Body): Reply {
    Reply(status, body, None)
  }

  const INITIAL_CURSOR := 41

  function Initial(c: Config): State {
    State(INITIAL_CURSOR, map[], {}, c.defect.RetryAfter?)
  }

  predicate BearerOk(c: Config, authorization: string) {
    c.token != "" && authorization == "Bearer " + c.token
  }

  function PackReply(c: Config): Reply {
    if c.defect == PackUnavailable then Say(503, Boom)
    else if c.defect == PackContract then Say(200, BrokenPack)
    else Say(200, PackBody)
  }

  // ----- GET

  function GetStep(c: Config, s: State, route: GetRoute, authorization: string): (State, Reply) {
    if s.rateLimitArm then
      (s.(rateLimitArm := false),
       Reply(429, Boom, if c.defect.RetryAfter? then Some(c.defect.value) else None))
    else
      (s, match route
          case Handbook => if c.defect == HandbookUnavailable then Say(500, Boom) else Say(200, Page)
          case Capabilities => if c.defect == CapabilitiesUnavailable then Say(503, Boom) else Say(200, CapabilityList)
          case ProblemsIndex =>
            if c.defect == IndexStatus then Say(503, Boom)
            else if c.defect in {IndexMediaType, IndexMalformed, PublicFaceLeak, IndexContract} then Say(200, BrokenIndex)
            else Say(200, Index)
          case Cursor =>
            if c.defect == CursorNonInteger then Say(200, NotACursor)
            else if c.defect == CursorHttp then Say(503, Boom)
            else Say(200, CursorText(s.cursor))
          case PackRead => if !BearerOk(c, authorization) then Say(401, Problem("UNAUTHORIZED")) else PackReply(c)
          case UnknownGet => Say(404, Problem("NOT_FOUND")))
  }

  // ----- POST

  function DeviceStep(c: Config, s: State, key: string): (State, Reply) {
    if key == "" then (s, Say(400, Problem("IDEMPOTENCY_KEY_MISSING")))
    else if key in s.deviceKeys then
      if c.defect == ReplayStatus then (s, Say(500, Boom))
      else if c.defect == ReplayDrift then
        (s.(deviceKeys := s.deviceKeys[key := DriftedBody]), Say(201, Device(DriftedBody)))
      else (s, Say(201, Device(s.deviceKeys[key])))
    else if c.defect == DeviceStatus then (s, Say(500, Boom))
    else
      var payload := if c.defect == DeviceShape then MisshapenBody else DeviceBody;
      (s.(deviceKeys := s.deviceKeys[key := payload]), Say(201, Device(payload)))
  }

  function PromoteStep(c: Config, s: State, p: Promotion): (State, Reply) {
    if p.hasStatusField && c.defect != SelfCertMissing then (s, Say(422, Problem("SCHEMA_INVALID")))
    else if p.kind == "conjecture" && p.falsifier == "" then
      (s, if c.defect == P3Missing then Say(201, Promoted) else Say(422, Problem("MISSING_FALSIFIER")))
    else
      var norm := c.norm(p.statement);
      if norm in s.promotedNorms && c.defect != P11Missing then (s, Say(409, Problem("DUPLICATE_CLAIM")))
      else if c.defect == PromoteFailed then (s, Say(500, Boom))
      else
        (s.(cursor := if c.defect != CursorLaw then s.cursor + 1 else s.cursor,
            promotedNorms := s.promotedNorms + {norm}),
         Say(201, Promoted))
  }

  function PostStep(c: Config, s: State, route: PostRoute, authorization: string): (State, Reply) {
    match route
    case SponsorWorkshop =>
      (s, if c.defect == SponsorBoundaryOpen then Say(200, Page)
          else if c.defect == SponsorBoundaryOrder then Say(400, Problem("SCHEMA_INVALID"))
          else if c.defect == SponsorBoundaryFace then Say(401, Problem("WRONG_PRINCIPAL"))
          else Say(401, Problem("UNAUTHORIZED")))
    case DeviceCode(key) => DeviceStep(c, s, key)
    case _ =>
      if !BearerOk(c, authorization) then (s, Say(401, Problem("UNAUTHORIZED")))
      else
        match route
        case OpenSession =>
          (s, if c.defect == SessionOpenFailed then Say(500, Boom)
              else if c.defect == SessionIdMalformed then Say(201, BadSessionId) else Say(201, SessionOpened))
        case PackPost => (s, PackReply(c))
        case WorkshopPush(claimShaped) =>
          (s, if claimShaped then
                if c.defect == ClassifierMissing then Say(201, WorkshopAccepted) else Say(422, Problem("LOOKS_LIKE_CLAIM"))
              else if c.defect == WorkshopPushFailed then Say(500, Boom)
              else if c.defect == WorkshopIdMalformed then Say(201, BadWorkshopId) else Say(201, WorkshopAccepted))
        case Promote(body) => PromoteStep(c, s, body)
        case CloseSession => (s, if c.defect == CloseFailed then Say(500, Boom) else Say(201, Closed))
        case _ => (s, Say(404, Problem("NOT_FOUND")))
  }

  function Step(c: Config, s: State, r: Request): (State, Reply) {
    match r
    case Get(route, authorization) => GetStep(c, s, route, authorization)
    case Post(route, authorization) => PostStep(c, s, route, authorization)
  }

  // ----- the ledger and its handlers

  class Ledger {
    const config: Config
    var cursor: int
    var deviceKeys: map<string, DevicePayload>
    var promotedNorms: set<string>
    var rateLimitArm: bool

    function Abstract(): State
      reads this
    {
      State(cursor, deviceKeys, promotedNorms, rateLimitArm)
    }

    constructor (config: Config)
      ensures this.config == config && Abstract() == Initial(config)
    {
      this.config := config;
      cursor := INITIAL_CURSOR;
      deviceKeys := map[];
      promotedNorms := {};
      rateLimitArm := config.defect.RetryAfter?;
    }

    method DoGet(route: GetRoute, authorization: string) returns (reply: Reply)
      modifies `rateLimitArm
      ensures (Abstract(), reply) == GetStep(config, old(Abstract()), route, authorization)
    {
      var defect := config.defect;
      if rateLimitArm {
        rateLimitArm := false;
        return Reply(429, Boom, if defect.RetryAfter? then Some(defect.value) else None);
      }
      match route {
        case Handbook => reply := if defect == HandbookUnavailable then Say(500, Boom) else Say(200, Page);
        case Capabilities =>
          reply := if defect == CapabilitiesUnavailable then Say(503, Boom) else Say(200, CapabilityList);
        case ProblemsIndex =>
          if defect == IndexStatus {
            return Say(503, Boom);
          }
          reply := if defect in {IndexMediaType, IndexMalformed, PublicFaceLeak, IndexContract}
                   then Say(200, BrokenIndex) else Say(200, Index);
        case Cursor =>
          if defect == CursorNonInteger {
            return Say(200, NotACursor);
          }
          reply := if defect == CursorHttp then Say(503, Boom) else Say(200, CursorText(cursor));
        case PackRead =>
          if !BearerOk(config, authorization) {
            return Say(401, Problem("UNAUTHORIZED"));
          }
          reply := PackReply(config);
        case UnknownGet => reply := Say(404, Problem("NOT_FOUND"));
      }
    }

    method StartDevice(key: string) returns (reply: Reply)
      modifies `deviceKeys
      ensures (Abstract(), reply) == DeviceStep(config, old(Abstract()), key)
    {
      if key == "" {
        return Say(400, Problem("IDEMPOTENCY_KEY_MISSING"));
      }
      if key in deviceKeys {
        if config.defect == ReplayStatus {
          return Say(500, Boom);
        }
        if config.defect == ReplayDrift {
          deviceKeys := deviceKeys[key := DriftedBody];
          return Say(201, Device(DriftedBody));
        }
        return Say(201, Device(deviceKeys[key]));
      }
      if config.defect == DeviceStatus {
        return Say(500, Boom);
      }
      var payload := if config.defect == DeviceShape then MisshapenBody else DeviceBody;
      deviceKeys := deviceKeys[key := payload];
      reply := Say(201, Device(payload));
    }

    method PromoteClaim(p: Promotion) returns (reply: Reply)
      modifies `cursor, `promotedNorms
      ensures (Abstract(), reply) == PromoteStep(config, old(Abstract()), p)
    {
      if p.hasStatusField && config.defect != SelfCertMissing {
        return Say(422, Problem("SCHEMA_INVALID"));
      }
      if p.kind == "conjecture" && p.falsifier == "" {
        return if config.defect == P3Missing then Say(201, Promoted) else Say(422, Problem("MISSING_FALSIFIER"));
      }
      var norm := config.norm(p.statement);
      if norm in promotedNorms && config.defect != P11Missing {
        return Say(409, Problem("DUPLICATE_CLAIM"));
      }
      if config.defect == PromoteFailed {
        return Say(500, Boom);
      }
      if config.defect != CursorLaw {
        cursor := cursor + 1;
      }
      promotedNorms := promotedNorms + {norm};
      reply := Say(201, Promoted);
    }

    method DoPost(route: PostRoute, authorization: string) returns (reply: Reply)
      modifies `cursor, `deviceKeys, `promotedNorms
      ensures (Abstract(), reply) == PostStep(config, old(Abstract()), route, authorization)
    {
      var defect := config.defect;
      if route.SponsorWorkshop? {
        return if defect == SponsorBoundaryOpen then Say(200, Page)
               else if defect == SponsorBoundaryOrder then Say(400, Problem("SCHEMA_INVALID"))
               else if defect == SponsorBoundaryFace then Say(401, Problem("WRONG_PRINCIPAL"))
               else Say(401, Problem("UNAUTHORIZED"));
      }
      if route.DeviceCode? {
        reply := StartDevice(route.key);
        return;
      }
      if !BearerOk(config, authorization) {
        return Say(401, Problem("UNAUTHORIZED"));
      }
      match route {
        case OpenSession =>
          reply := if defect == SessionOpenFailed then Say(500, Boom)
                   else if defect == SessionIdMalformed then Say(201, BadSessionId) else Say(201, SessionOpened);
        case PackPost => reply := PackReply(config);
        case WorkshopPush(claimShaped) =>
          if claimShaped {
            return if defect == ClassifierMissing then Say(201, WorkshopAccepted) else Say(422, Problem("LOOKS_LIKE_CLAIM"));
          }
          reply := if defect == WorkshopPushFailed then Say(500, Boom)
                   else if defect == WorkshopIdMalformed then Say(201, BadWorkshopId) else Say(201, WorkshopAccepted);
        case Promote(body) => reply := PromoteClaim(body);
        case CloseSession => reply := if defect == CloseFailed then Say(500, Boom) else Say(201, Closed);
        case _ => reply := Say(404, Problem("NOT_FOUND"));
      }
    }
  }

  // ----- runs

  function After(c: Config, run: seq<Request>): State {
    if run == [] then Initial(c) else Step(c, After(c, run[..|run| - 1]), run[|run| - 1]).0
  }

  /** The reply to the i-th request of a run. */
  function ReplyTo(c: Config, run: seq<Request>, i: nat): Reply
    requires i < |run|
  {
    Step(c, After(c, run[..i]), run[i]).1
  }

  predicate IsPromotion(r: Request, reply: Reply) {
    r.Post? && r.postRoute.Promote? && reply.status == 201
  }

  /** How many promotions were answered 201. */
  function PromotionsAccepted(c: Config, run: seq<Request>): nat {
    if run == [] then 0
    else
      var init := run[..|run| - 1];
      PromotionsAccepted(c, init) +
      (if IsPromotion(run[|run| - 1], Step(c, After(c, init), run[|run| - 1]).1) then 1 else 0)
  }

  function Count429(c: Config, run: seq<Request>): nat {
    if run == [] then 0
    else
      var init := run[..|run| - 1];
      Count429(c, init) + (if Step(c, After(c, init), run[|run| - 1]).1.status == 429 then 1 else 0)
  }

  // ----- (I1) the cursor counts the distinct promoted statements

  predicate CursorCountsNorms(c: Config, run: seq<Request>) {
    After(c, run).cursor == INITIAL_CURSOR + |After(c, run).promotedNorms|
  }

  lemma AfterNext(c: Config, run: seq<Request>)
    requires run != []
    ensures After(c, run) == Step(c, After(c, run[..|run| - 1]), run[|run| - 1]).0
  {
    hide Step;
  }

  lemma PromoteCountsNorms(c: Config, s: State, p: Promotion)
    requires c.defect != CursorLaw && c.defect != P11Missing
    ensures var after := PromoteStep(c, s, p).0; after.cursor - s.cursor == |after.promotedNorms| - |s.promotedNorms|
  {
  }

  /** No other request touches the cursor or the statements. */
  lemma OthersKeepCursor(c: Config, s: State, r: Request)
    requires !(r.Post? && r.postRoute.Promote?)
    ensures Step(c, s, r).0.cursor == s.cursor && Step(c, s, r).0.promotedNorms == s.promotedNorms
  {
    hide PackReply, BearerOk;
  }

  lemma PromoteIsStep(c: Config, s: State, r: Request)
    requires r.Post? && r.postRoute.Promote?
    ensures Step(c, s, r) ==
            if BearerOk(c, r.authorization) then PromoteStep(c, s, r.postRoute.body)
            else (s, Say(401, Problem("UNAUTHORIZED")))
  {
    hide PromoteStep, BearerOk;
  }

  lemma StepCountsNorms(c: Config, s: State, r: Request)
    requires c.defect != CursorLaw && c.defect != P11Missing
    ensures Step(c, s, r).0.cursor - s.cursor == |Step(c, s, r).0.promotedNorms| - |s.promotedNorms|
  {
    hide Step, PromoteStep, BearerOk;
    if r.Post? && r.postRoute.Promote? {
      PromoteIsStep(c, s, r);
      PromoteCountsNorms(c, s, r.postRoute.body);
    } else {
      OthersKeepCursor(c, s, r);
    }
  }

  lemma {:induction false} NormsCounted(c: Config, run: seq<Request>)
    requires c.defect != CursorLaw && c.defect != P11Missing
    ensures CursorCountsNorms(c, run)
  {
    hide Step;
    if run != [] {
      AfterNext(c, run);
      StepCountsNorms(c, After(c, run[..|run| - 1]), run[|run| - 1]);
      NormsCounted(c, run[..|run| - 1]);
    }
  }

  function Bearer(c: Config): string {
    "Bearer " + c.token
  }

  const PLAIN := Promotion("claim", "a statement", "", false)
  const NO_FALSIFIER := Promotion("conjecture", "a statement", "", false)

  function PromoteRequest(c: Config, p: Promotion): Request {
    Post(Promote(p), Bearer(c))
  }

  /** Two identical promotions: enough to tell the defects that break (I1) apart. */
  lemma TwoPromotions(c: Config)
    requires c.token != "" && c.defect in {CursorLaw, P11Missing}
    ensures exists run :: !CursorCountsNorms(c, run)
  {
    var r := PromoteRequest(c, PLAIN);
    var one, two := [r], [r, r];
    assert one[..0] == [] && two[..1] == one;
    var s0, norm := Initial(c), c.norm(PLAIN.statement);
    assert After(c, []) == s0;
    var s1 := Step(c, s0, r).0;
    assert After(c, one) == s1;
    assert s1.promotedNorms == {norm};
    var s2 := Step(c, s1, r).0;
    assert After(c, two) == s2;
    if c.defect == CursorLaw {
      assert !CursorCountsNorms(c, one);
    } else {
      assert s2.promotedNorms == {norm};
      assert !CursorCountsNorms(c, two);
    }
  }

  /** (I1) holds in every reachable state exactly when neither defect that breaks it is planted. */
  lemma CursorLawExactly(c: Config)
    requires c.token != ""
    ensures (forall run :: CursorCountsNorms(c, run)) <==> c.defect != CursorLaw && c.defect != P11Missing
  {
    if c.defect in {CursorLaw, P11Missing} {
      TwoPromotions(c);
    } else {
      forall run ensures CursorCountsNorms(c, run) {
        NormsCounted(c, run);
      }
    }
  }

  // ----- (I2) the cursor counts the accepted promotions

  predicate CursorCountsPromotions(c: Config, run: seq<Request>) {
    After(c, run).cursor == INITIAL_CURSOR + PromotionsAccepted(c, run)
  }

  lemma StepCountsPromotions(c: Config, s: State, r: Request)
    requires c.defect != CursorLaw && c.defect != P3Missing
    ensures Step(c, s, r).0.cursor - s.cursor == if IsPromotion(r, Step(c, s, r).1) then 1 else 0
  {
  }

  lemma {:induction false} PromotionsCounted(c: Config, run: seq<Request>)
    requires c.defect != CursorLaw && c.defect != P3Missing
    ensures CursorCountsPromotions(c, run)
  {
    hide Step, IsPromotion;
    if run != [] {
      StepCountsPromotions(c, After(c, run[..|run| - 1]), run[|run| - 1]);
      PromotionsCounted(c, run[..|run| - 1]);
    }
  }

  lemma OnePromotion(c: Config)
    requires c.token != "" && c.defect in {CursorLaw, P3Missing}
    ensures exists run :: !CursorCountsPromotions(c, run)
  {
    var r := PromoteRequest(c, if c.defect == P3Missing then NO_FALSIFIER else PLAIN);
    var none: seq<Request> := [];
    assert [r][..0] == none;
    assert After(c, none) == Initial(c) && PromotionsAccepted(c, none) == 0;
    assert Step(c, Initial(c), r).1 == Say(201, Promoted);
    assert !CursorCountsPromotions(c, [r]);
  }

  /** (I2) holds in every reachable state exactly when neither defect that breaks it is planted. */
  lemma PromotionLawExactly(c: Config)
    requires c.token != ""
    ensures (forall run :: CursorCountsPromotions(c, run)) <==> c.defect != CursorLaw && c.defect != P3Missing
  {
    if c.defect in {CursorLaw, P3Missing} {
      OnePromotion(c);
    } else {
      forall run ensures CursorCountsPromotions(c, run) {
        PromotionsCounted(c, run);
      }
    }
  }

  /** Only an accepted promotion moves the cursor, and by one. */
  lemma OnlyPromotionsMoveCursor(c: Config, s: State, r: Request)
    ensures Step(c, s, r).0.cursor == s.cursor ||
            (IsPromotion(r, Step(c, s, r).1) && Step(c, s, r).0.cursor == s.cursor + 1)
    ensures s.promotedNorms <= Step(c, s, r).0.promotedNorms
  {
  }

  // ----- rate limiting fires once

  lemma StepDisarms(c: Config, s: State, r: Request)
    ensures (if Step(c, s, r).1.status == 429 then 1 else 0) + (if Step(c, s, r).0.rateLimitArm then 1 else 0) ==
            if s.rateLimitArm then 1 else 0
  {
  }

  /** At most one 429 is ever sent, and none while the limit is still armed. */
  lemma {:induction false} AtMostOne429(c: Config, run: seq<Request>)
    ensures Count429(c, run) + (if After(c, run).rateLimitArm then 1 else 0) ==
            if c.defect.RetryAfter? then 1 else 0
  {
    hide Step;
    if run != [] {
      StepDisarms(c, After(c, run[..|run| - 1]), run[|run| - 1]);
      AtMostOne429(c, run[..|run| - 1]);
    }
  }

  /** It is the first GET that is refused, with the planted delay. */
  lemma {:induction false} FirstGetRefused(c: Config, run: seq<Request>, i: nat)
    requires c.defect.RetryAfter? && i < |run| && run[i].Get?
    requires forall j :: 0 <= j < i ==> run[j].Post?
    ensures ReplyTo(c, run, i) == Reply(429, Boom, Some(c.defect.value))
  {
    StillArmed(c, run[..i]);
  }

  lemma {:induction false} StillArmed(c: Config, run: seq<Request>)
    requires c.defect.RetryAfter? && forall j :: 0 <= j < |run| ==> run[j].Post?
    ensures After(c, run).rateLimitArm
  {
    if run != [] {
      StillArmed(c, run[..|run| - 1]);
    }
  }

  // ----- idempotent device starts

  predicate StartsDevice(r: Request, key: string) {
    r.Post? && r.postRoute == DeviceCode(key)
  }

  predicate SeenBefore(run: seq<Request>, i: nat, key: string)
    requires i <= |run|
  {
    exists j :: 0 <= j < i && StartsDevice(run[j], key)
  }

  /** What the ledger keeps for a key once it was seen. */
  predicate KeptPayload(c: Config, s: State, key: string) {
    if key == "" || c.defect == DeviceStatus then key !in s.deviceKeys
    else
      key in s.deviceKeys &&
      (c.defect != ReplayDrift ==> s.deviceKeys[key] == if c.defect == DeviceShape then MisshapenBody else DeviceBody)
  }

  lemma StepKeepsPayload(c: Config, s: State, r: Request, key: string)
    ensures StartsDevice(r, key) && (KeptPayload(c, s, key) || key !in s.deviceKeys) ==>
              KeptPayload(c, Step(c, s, r).0, key)
    ensures !StartsDevice(r, key) ==> (key in Step(c, s, r).0.deviceKeys <==> key in s.deviceKeys)
    ensures !StartsDevice(r, key) && key in s.deviceKeys ==> Step(c, s, r).0.deviceKeys[key] == s.deviceKeys[key]
  {
  }

  lemma SeenNext(run: seq<Request>, key: string)
    requires run != []
    ensures var init := run[..|run| - 1];
            SeenBefore(run, |run|, key) <==> SeenBefore(init, |init|, key) || StartsDevice(run[|run| - 1], key)
  {
    hide StartsDevice;
    var init := run[..|run| - 1];
    assert forall j :: 0 <= j < |init| ==> init[j] == run[j];
    if SeenBefore(init, |init|, key) {
      var j :| 0 <= j < |init| && StartsDevice(init[j], key);
      assert StartsDevice(run[j], key);
    }
  }

  lemma {:induction false} PayloadKept(c: Config, run: seq<Request>, key: string)
    ensures if SeenBefore(run, |run|, key) then KeptPayload(c, After(c, run), key) else key !in After(c, run).deviceKeys
  {
    if run != [] {
      var init, r := run[..|run| - 1], run[|run| - 1];
      PayloadKept(c, init, key);
      AfterNext(c, run);
      SeenNext(run, key);
      StepKeepsPayload(c, After(c, init), r, key);
      hide Step, After, SeenBefore, StartsDevice;
    }
  }

  function FirstReply(c: Config, key: string): Reply {
    if key == "" then Say(400, Problem("IDEMPOTENCY_KEY_MISSING"))
    else if c.defect == DeviceStatus then Say(500, Boom)
    else Say(201, Device(if c.defect == DeviceShape then MisshapenBody else DeviceBody))
  }

  function LaterReply(c: Config, key: string): Reply {
    if key == "" then Say(400, Problem("IDEMPOTENCY_KEY_MISSING"))
    else if c.defect == DeviceStatus || c.defect == ReplayStatus then Say(500, Boom)
    else if c.defect == ReplayDrift then Say(201, Device(DriftedBody))
    else Say(201, Device(if c.defect == DeviceShape then MisshapenBody else DeviceBody))
  }

  /** All replies to one key after the first are identical, whatever happens in between. */
  lemma DeviceReplies(c: Config, run: seq<Request>, i: nat, key: string)
    requires i < |run| && StartsDevice(run[i], key)
    ensures ReplyTo(c, run, i) == if SeenBefore(run, i, key) then LaterReply(c, key) else FirstReply(c, key)
  {
    PayloadKept(c, run[..i], key);
    if SeenBefore(run, i, key) {
      var j :| 0 <= j < i && StartsDevice(run[j], key);
      assert StartsDevice(run[..i][j], key);
    }
  }

  /** The i-th request is the first start of a device under the key, and the j-th a later one. */
  predicate Replayed(run: seq<Request>, i: nat, j: nat, key: string) {
    i < j < |run| && StartsDevice(run[i], key) && !SeenBefore(run, i, key) && StartsDevice(run[j], key)
  }

  /** In every run, every later start under the key is answered like the first. */
  ghost predicate ReplaysFaithful(c: Config, key: string) {
    forall run: seq<Request>, i: nat, j: nat :: Replayed(run, i, j, key) ==> ReplyTo(c, run, j) == ReplyTo(c, run, i)
  }

  lemma ReplayReplies(c: Config, run: seq<Request>, i: nat, j: nat, key: string)
    requires Replayed(run, i, j, key)
    ensures ReplyTo(c, run, i) == FirstReply(c, key) && ReplyTo(c, run, j) == LaterReply(c, key)
  {
    hide ReplyTo, FirstReply, LaterReply;
    DeviceReplies(c, run, i, key);
    DeviceReplies(c, run, j, key);
    assert SeenBefore(run, j, key);
  }

  /** Over all runs, replays repeat the first reply exactly when no replay defect is planted. */
  lemma ReplayFaithfulExactly(c: Config, key: string)
    requires key != ""
    ensures ReplaysFaithful(c, key) <==> c.defect != ReplayStatus && c.defect != ReplayDrift
  {
    if c.defect == ReplayStatus || c.defect == ReplayDrift {
      var start := Post(DeviceCode(key), "");
      var twice := [start, start];
      assert Replayed(twice, 0, 1, key);
      ReplayReplies(c, twice, 0, 1, key);
      hide ReplyTo;
      assert ReplyTo(c, twice, 0) != ReplyTo(c, twice, 1);
    } else {
      forall run: seq<Request>, i: nat, j: nat | Replayed(run, i, j, key) ensures ReplyTo(c, run, j) == ReplyTo(c, run, i) {
        ReplayReplies(c, run, i, j, key);
      }
    }
  }
}
